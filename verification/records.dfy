/** The field-wise record updates on the React page: the three buttons of
    `StateUpdatesDemo`, and `FormsDemo.handleChange`, which writes the field
    named by the changed input. */
module Records {

  /** The demo's user object. */
  datatype UserRecord = UserRecord(name: string, email: string, age: int)

  const InitialUser: UserRecord := UserRecord("", "", 0)

  /** `updateName`: only `name` changes. */
  function UpdateName(prev: UserRecord): (r: UserRecord)
    ensures r.name == "Alice Johnson"
    ensures r.email == prev.email && r.age == prev.age
  {
    prev.(name := "Alice Johnson")
  }

  /** `updateMultiple`: every field is overwritten, so the result does not
      depend on the previous record. */
  function UpdateMultiple(prev: UserRecord): (r: UserRecord)
    ensures r.name == "Bob Smith" && r.email == "bob@example.com" && r.age == 30
  {
    prev.(name := "Bob Smith", email := "bob@example.com", age := 30)
  }

  /** `resetUser`: back to the initial record. */
  function ResetUser(prev: UserRecord): (r: UserRecord)
    ensures r == InitialUser
  {
    UserRecord("", "", 0)
  }

  /** Each button pressed twice acts as once, and the last of
      `updateMultiple` and `resetUser` decides the whole record. */
  lemma UpdatersIdempotent(u: UserRecord, v: UserRecord)
    ensures UpdateName(UpdateName(u)) == UpdateName(u)
    ensures UpdateMultiple(u) == UpdateMultiple(v)
    ensures ResetUser(UpdateMultiple(u)) == ResetUser(v)
    ensures UpdateName(UpdateMultiple(u)) == UserRecord("Alice Johnson", "bob@example.com", 30)
  {
  }

  /** The form object; its keys are the `name` attributes of the inputs. */
  type Form = map<string, string>

  /** The form's starting value. */
  const InitialForm: Form := map["name" := "", "email" := "", "message" := ""]

  /** `handleChange`: `{...prev, [target.name]: target.value}`. */
  function HandleChange(prev: Form, field: string, value: string): (r: Form)
    ensures field in r && r[field] == value
    ensures r.Keys == prev.Keys + {field}
    ensures forall k :: k in prev && k != field ==> r[k] == prev[k]
  {
    prev[field := value]
  }

  /** Typing into the same field twice keeps only the second value, and
      edits to different fields commute. */
  lemma HandleChangeLastWins(prev: Form, f: string, g: string, a: string, b: string)
    ensures HandleChange(HandleChange(prev, f, a), f, b) == HandleChange(prev, f, b)
    ensures f != g ==> HandleChange(HandleChange(prev, f, a), g, b) == HandleChange(HandleChange(prev, g, b), f, a)
  {
  }

  /** Edits to the three inputs never add or remove a key of the form. */
  lemma HandleChangeKeepsShape(prev: Form, field: string, value: string)
    requires field in prev
    ensures HandleChange(prev, field, value).Keys == prev.Keys
  {
  }
}
