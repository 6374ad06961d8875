/** The React page's `useReducer` demo: `todoReducer` over a list of todos and
    the `addTodo` button handler. The fresh id `Date.now()` is a parameter. */
module Todos {
  import opened Js
  import opened Lists

  datatype Todo = Todo(id: int, text: string, completed: bool)

  /** A dispatched action: its `type`, and the `text` and `id` fields the
      three known types read. */
  datatype TodoAction = TodoAction(kind: string, text: string, id: int)

  /** `todo.id === action.id ? {...todo, completed: !todo.completed} : todo`. */
  function ToggleOne(t: Todo, id: int): Todo {
    if t.id == id then t.(completed := !t.completed) else t
  }

  /** `state.map(...)` for `TOGGLE_TODO`. */
  function ToggleAll(state: seq<Todo>, id: int): (r: seq<Todo>)
    ensures |r| == |state|
    ensures forall k :: 0 <= k < |state| ==>
      r[k].id == state[k].id && r[k].text == state[k].text
      && (r[k].completed <==> (state[k].completed != (state[k].id == id)))
  {
    seq(|state|, k requires 0 <= k < |state| => ToggleOne(state[k], id))
  }

  /** The test `filter` keeps for `DELETE_TODO`. */
  predicate OtherId(id: int, t: Todo) {
    t.id != id
  }

  /** `state.filter(todo => todo.id !== action.id)`. */
  function DeleteAll(state: seq<Todo>, id: int): (r: seq<Todo>)
    ensures |r| <= |state|
    ensures forall k :: 0 <= k < |r| ==> r[k].id != id && r[k] in state
    ensures forall k :: 0 <= k < |state| && state[k].id != id ==> state[k] in r
  {
    Keep(state, t => OtherId(id, t))
  }

  /** `todoReducer(state, action)`, with `now` the value `Date.now()` returns. */
  function TodoReducer(state: seq<Todo>, action: TodoAction, now: int): (r: seq<Todo>)
    ensures action.kind == "ADD_TODO" ==>
      |r| == |state| + 1 && r[..|state|] == state && r[|state|] == Todo(now, action.text, false)
    ensures action.kind == "TOGGLE_TODO" ==> r == ToggleAll(state, action.id)
    ensures action.kind == "DELETE_TODO" ==> r == DeleteAll(state, action.id)
    ensures action.kind !in {"ADD_TODO", "TOGGLE_TODO", "DELETE_TODO"} ==> r == state
  {
    match action.kind
    case "ADD_TODO" => state + [Todo(now, action.text, false)]
    case "TOGGLE_TODO" => ToggleAll(state, action.id)
    case "DELETE_TODO" => DeleteAll(state, action.id)
    case _ => state
  }

  /** Toggling the same id twice gives back the list. */
  lemma ToggleTwiceIdentity(state: seq<Todo>, id: int, now1: int, now2: int)
    ensures var a := TodoAction("TOGGLE_TODO", "", id);
      TodoReducer(TodoReducer(state, a, now1), a, now2) == state
  {
    var once := ToggleAll(state, id);
    var twice := ToggleAll(once, id);
    forall k | 0 <= k < |state|
      ensures twice[k] == state[k]
    {
      assert once[k].id == state[k].id;
    }
  }

  /** Deleting an id no todo carries leaves the list unchanged. */
  lemma DeleteAbsentUnchanged(state: seq<Todo>, id: int, now: int)
    requires forall k :: 0 <= k < |state| ==> state[k].id != id
    ensures TodoReducer(state, TodoAction("DELETE_TODO", "", id), now) == state
  {
    KeepAll(state, t => OtherId(id, t));
  }

  /** Deleting twice is deleting once. */
  lemma DeleteIdempotent(state: seq<Todo>, id: int)
    ensures DeleteAll(DeleteAll(state, id), id) == DeleteAll(state, id)
  {
    KeepIdempotent(state, t => OtherId(id, t));
  }

  /** Adding a todo and deleting it by its id undoes the add, provided the
      id was fresh (no todo already carried it). */
  lemma AddThenDelete(state: seq<Todo>, text: string, now: int, later: int)
    requires forall k :: 0 <= k < |state| ==> state[k].id != now
    ensures var added := TodoReducer(state, TodoAction("ADD_TODO", text, 0), now);
      TodoReducer(added, TodoAction("DELETE_TODO", "", now), later) == state
  {
    var keep := t => OtherId(now, t);
    KeepAppend(state, [Todo(now, text, false)], keep);
    KeepAll(state, keep);
  }

  /** Deleting an id that two todos share removes both: ids made from the
      clock are not unique when two adds land in the same millisecond. */
  lemma DeleteRemovesEveryMatch(state: seq<Todo>, id: int)
    ensures forall k :: 0 <= k < |DeleteAll(state, id)| ==> DeleteAll(state, id)[k].id != id
    ensures |DeleteAll(state, id)| + |Matching(state, id)| == |state|
  {
    KeepSplit(state, t => OtherId(id, t), t => !OtherId(id, t));
  }

  /** The todos carrying `id`. */
  function Matching(state: seq<Todo>, id: int): seq<Todo> {
    Keep(state, t => !OtherId(id, t))
  }

  /** A filter and its complement split the input between them. */
  lemma {:induction false} KeepSplit<T>(xs: seq<T>, keep: T -> bool, drop: T -> bool)
    requires forall x :: drop(x) == !keep(x)
    ensures |Keep(xs, keep)| + |Keep(xs, drop)| == |xs|
  {
    if xs != [] {
      KeepSplit(xs[1..], keep, drop);
    }
  }

  /** The input box and the list, as `addTodo` sees them. */
  datatype TodoForm = TodoForm(input: string, todos: seq<Todo>)

  /** `addTodo`: dispatches `ADD_TODO` with the untrimmed text and clears the
      box, but only when the trimmed text is non-empty. */
  function AddTodo(f: TodoForm, now: int): (r: TodoForm)
    ensures Trim(f.input) == "" ==> r == f
    ensures Trim(f.input) != "" ==>
      && r.input == ""
      && |r.todos| == |f.todos| + 1
      && r.todos[..|f.todos|] == f.todos
      && r.todos[|f.todos|] == Todo(now, f.input, false)
  {
    if Trim(f.input) != "" then
      TodoForm("", TodoReducer(f.todos, TodoAction("ADD_TODO", f.input, 0), now))
    else f
  }

  /** An input of spaces adds nothing, however often the button is pressed. */
  lemma BlankInputAddsNothing(f: TodoForm, now: int)
    requires forall k :: 0 <= k < |f.input| ==> IsJsWhitespace(f.input[k])
    ensures AddTodo(f, now) == f
  {
  }

  /** Pressing the button a second time adds nothing: after a successful
      add the box is empty, and after a refused one it is still blank. */
  lemma AddTodoTwice(f: TodoForm, now1: int, now2: int)
    ensures AddTodo(AddTodo(f, now1), now2) == AddTodo(f, now1)
  {
  }
}
