/** The counters of the React and state-management pages: the `useCounter`
    custom hook, the Redux demo's `counterReducer`, and the cut-down copy of
    that reducer in the state-management playground, which has no `RESET`. */
module Counters {
  import opened Wrappers

  /** A Redux counter state `{count}`. */
  datatype CounterState = CounterState(count: int)

  /** The reducer's default state. */
  const InitialCounter: CounterState := CounterState(0)

  /** `counterReducer(state = {count: 0}, action)`; `None` stands for the
      `undefined` state Redux passes on its first call. */
  function CounterReducer(state: Option<CounterState>, kind: string): (r: CounterState)
    ensures var s := if state.Some? then state.value else InitialCounter;
      && (kind == "INCREMENT" ==> r.count == s.count + 1)
      && (kind == "DECREMENT" ==> r.count == s.count - 1)
      && (kind == "RESET" ==> r == InitialCounter)
      && (kind !in {"INCREMENT", "DECREMENT", "RESET"} ==> r == s)
  {
    var s := if state.Some? then state.value else InitialCounter;
    match kind
    case "INCREMENT" => CounterState(s.count + 1)
    case "DECREMENT" => CounterState(s.count - 1)
    case "RESET" => CounterState(0)
    case _ => s
  }

  /** The playground's copy: the same reducer without the `RESET` case. */
  function PlaygroundCounterReducer(state: Option<CounterState>, kind: string): (r: CounterState)
    ensures kind == "RESET" ==> r == (if state.Some? then state.value else InitialCounter)
  {
    var s := if state.Some? then state.value else InitialCounter;
    match kind
    case "INCREMENT" => CounterState(s.count + 1)
    case "DECREMENT" => CounterState(s.count - 1)
    case _ => s
  }

  /** The store's first state, whatever action type Redux initialises it
      with, is `{count: 0}` unless that type is one the reducer handles. */
  lemma InitialState(kind: string)
    requires kind !in {"INCREMENT", "DECREMENT", "RESET"}
    ensures CounterReducer(None, kind) == InitialCounter
    ensures PlaygroundCounterReducer(None, kind) == InitialCounter
  {
  }

  /** The two copies agree on every action except `RESET`, which the
      playground's copy ignores. */
  lemma PlaygroundAgrees(state: Option<CounterState>, kind: string)
    ensures kind != "RESET" ==> PlaygroundCounterReducer(state, kind) == CounterReducer(state, kind)
    ensures kind == "RESET" && state.Some? && state.value.count != 0 ==>
      PlaygroundCounterReducer(state, kind) != CounterReducer(state, kind)
  {
  }

  /** `INCREMENT` then `DECREMENT`, or the reverse, restores the state. */
  lemma IncrementDecrementInverse(s: CounterState)
    ensures CounterReducer(Some(CounterReducer(Some(s), "INCREMENT")), "DECREMENT") == s
    ensures CounterReducer(Some(CounterReducer(Some(s), "DECREMENT")), "INCREMENT") == s
  {
  }

  /** The store's state after dispatching each action type in turn. */
  function Dispatch(s: CounterState, kinds: seq<string>): CounterState
    decreases |kinds|
  {
    if kinds == [] then s else Dispatch(CounterReducer(Some(s), kinds[0]), kinds[1..])
  }

  /** Increments minus decrements. */
  function Net(kinds: seq<string>): int
    decreases |kinds|
  {
    if kinds == [] then 0
    else (if kinds[0] == "INCREMENT" then 1 else if kinds[0] == "DECREMENT" then -1 else 0) + Net(kinds[1..])
  }

  /** Without a `RESET`, the count moves by the increments minus the
      decrements, in any order. */
  lemma {:induction false} DispatchNet(s: CounterState, kinds: seq<string>)
    requires "RESET" !in kinds
    ensures Dispatch(s, kinds).count == s.count + Net(kinds)
    decreases |kinds|
  {
    if kinds != [] {
      assert "RESET" !in kinds[1..];
      DispatchNet(CounterReducer(Some(s), kinds[0]), kinds[1..]);
    }
  }

  /** A `RESET` forgets everything dispatched before it. */
  lemma {:induction false} ResetForgets(s: CounterState, before: seq<string>, after: seq<string>)
    ensures Dispatch(s, before + ["RESET"] + after) == Dispatch(InitialCounter, after)
    decreases |before|
  {
    if before == [] {
      assert before + ["RESET"] + after == ["RESET"] + after;
      assert (["RESET"] + after)[1..] == after;
    } else {
      assert (before + ["RESET"] + after)[1..] == before[1..] + ["RESET"] + after;
      ResetForgets(CounterReducer(Some(s), before[0]), before[1..], after);
    }
  }

  /** The three functions `useCounter` hands out. */
  datatype HookCall = Increment | Decrement | Reset

  /** One call on a `useCounter(initialValue)` instance holding `count`. */
  function HookStep(initialValue: int, count: int, call: HookCall): (r: int)
    ensures call == Increment ==> r == count + 1
    ensures call == Decrement ==> r == count - 1
    ensures call == Reset ==> r == initialValue
  {
    match call
    case Increment => count + 1
    case Decrement => count - 1
    case Reset => initialValue
  }

  /** The count after a history of calls on a fresh instance. */
  function HookRun(initialValue: int, count: int, calls: seq<HookCall>): int
    decreases |calls|
  {
    if calls == [] then count else HookRun(initialValue, HookStep(initialValue, count, calls[0]), calls[1..])
  }

  /** Ups minus downs. */
  function HookNet(calls: seq<HookCall>): int
    decreases |calls|
  {
    if calls == [] then 0
    else (if calls[0] == Increment then 1 else if calls[0] == Decrement then -1 else 0) + HookNet(calls[1..])
  }

  /** Without a reset, the count is the start plus ups minus downs. */
  lemma {:induction false} HookRunNet(initialValue: int, count: int, calls: seq<HookCall>)
    requires Reset !in calls
    ensures HookRun(initialValue, count, calls) == count + HookNet(calls)
    decreases |calls|
  {
    if calls != [] {
      assert Reset !in calls[1..];
      HookRunNet(initialValue, HookStep(initialValue, count, calls[0]), calls[1..]);
    }
  }

  /** `reset` returns to the instance's own initial value whatever came
      before it. */
  lemma {:induction false} HookResetForgets(initialValue: int, count: int, before: seq<HookCall>)
    ensures HookRun(initialValue, count, before + [Reset]) == initialValue
    decreases |before|
  {
    if before == [] {
      assert before + [Reset] == [Reset];
    } else {
      assert (before + [Reset])[1..] == before[1..] + [Reset];
      HookResetForgets(initialValue, HookStep(initialValue, count, before[0]), before[1..]);
    }
  }
}
