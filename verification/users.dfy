/** The user list of the state-management page's patterns demo (`addUser`,
    `removeUser`). The fresh id `Date.now()` is a parameter. */
module UserList {
  import opened Lists

  /** `{...newUser, id}`. */
  datatype User = User(name: string, email: string, id: int)

  /** The two inputs of the add-user form. */
  datatype UserForm = UserForm(name: string, email: string)

  const EmptyForm: UserForm := UserForm("", "")

  /** The list and the form, as the component state holds them. */
  datatype Patterns = Patterns(users: seq<User>, form: UserForm)

  /** `addUser`: when both fields are non-empty, appends the user with a
      fresh id and clears the form; otherwise changes nothing. */
  function AddUser(p: Patterns, now: int): (r: Patterns)
    ensures p.form.name == "" || p.form.email == "" ==> r == p
    ensures p.form.name != "" && p.form.email != "" ==>
      && r.form == EmptyForm
      && |r.users| == |p.users| + 1
      && r.users[..|p.users|] == p.users
      && r.users[|p.users|] == User(p.form.name, p.form.email, now)
  {
    if p.form.name != "" && p.form.email != "" then
      Patterns(p.users + [User(p.form.name, p.form.email, now)], EmptyForm)
    else p
  }

  /** The test `filter` keeps for `removeUser(id)`. */
  predicate OtherUser(id: int, u: User) {
    u.id != id
  }

  /** `removeUser(id)`: drops every user carrying `id`, keeps the others in
      their order, and leaves the form alone. */
  function RemoveUser(p: Patterns, id: int): (r: Patterns)
    ensures r.form == p.form
    ensures forall k :: 0 <= k < |r.users| ==> r.users[k].id != id && r.users[k] in p.users
    ensures forall k :: 0 <= k < |p.users| && p.users[k].id != id ==> p.users[k] in r.users
  {
    p.(users := Keep(p.users, u => OtherUser(id, u)))
  }

  /** Adding a user with a fresh id and then removing that id restores the
      list; the form stays cleared. */
  lemma AddThenRemove(p: Patterns, now: int)
    requires p.form.name != "" && p.form.email != ""
    requires forall k :: 0 <= k < |p.users| ==> p.users[k].id != now
    ensures RemoveUser(AddUser(p, now), now) == Patterns(p.users, EmptyForm)
  {
    var keep := u => OtherUser(now, u);
    KeepAppend(p.users, [User(p.form.name, p.form.email, now)], keep);
    KeepAll(p.users, keep);
  }

  /** Removing an id nobody carries changes nothing. */
  lemma RemoveAbsent(p: Patterns, id: int)
    requires forall k :: 0 <= k < |p.users| ==> p.users[k].id != id
    ensures RemoveUser(p, id) == p
  {
    KeepAll(p.users, u => OtherUser(id, u));
  }

  /** A cleared form refuses a second add, so one click adds at most one
      user. */
  lemma AddUserTwice(p: Patterns, now1: int, now2: int)
    ensures AddUser(AddUser(p, now1), now2) == AddUser(p, now1)
  {
  }
}
