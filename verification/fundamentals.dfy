/** The HTML/CSS fundamentals page: the demo form's submit check, the
    transition button's message cycle, and `showNotification`, which keeps at
    most one notification on the page and picks its background by type. */
module Fundamentals {
  import opened Wrappers

  /** One notification element: its text and its type. */
  datatype Notification = Notification(message: string, kind: string)

  /** The type `showNotification` uses when the caller passes none. */
  const DefaultKind: string := "info"

  const SuccessColour: string := "#10b981"
  const WarningColour: string := "#f59e0b"
  const ErrorColour: string := "#ef4444"
  const InfoColour: string := "#3b82f6"

  /** `colors[type] || colors.info`: the four known types have their own
      colour, every other type gets the info colour. */
  function Background(kind: string): (c: string)
    ensures c in {SuccessColour, WarningColour, ErrorColour, InfoColour}
    ensures kind !in {"success", "warning", "error"} <==> c == InfoColour
    ensures kind == "success" ==> c == SuccessColour
    ensures kind == "warning" ==> c == WarningColour
    ensures kind == "error" ==> c == ErrorColour
  {
    match kind
    case "success" => SuccessColour
    case "warning" => WarningColour
    case "error" => ErrorColour
    case _ => InfoColour
  }

  /** Different known types never share a colour, so the background tells
      which known type a notification has. */
  lemma BackgroundDistinguishes(k1: string, k2: string)
    requires k1 in {"success", "warning", "error", "info"} && k2 in {"success", "warning", "error", "info"}
    requires Background(k1) == Background(k2)
    ensures k1 == k2
  {
  }

  /** `showNotification(message, type = 'info')`: removes the first
      notification already on the page, then appends the new one. `page` is
      the notifications in document order. */
  function ShowNotification(page: seq<Notification>, message: string, kind: Option<string>): (r: seq<Notification>)
    ensures |r| >= 1 && r[|r| - 1] == Notification(message, if kind.Some? then kind.value else DefaultKind)
    ensures page == [] ==> |r| == 1
    ensures page != [] ==> |r| == |page| && r[..|r| - 1] == page[1..]
  {
    var n := Notification(message, if kind.Some? then kind.value else DefaultKind);
    if page == [] then [n] else page[1..] + [n]
  }

  /** At most one notification at a time: from a page with none or one,
      any number of calls leave exactly the last one shown. */
  lemma {:induction false} SingleNotification(page: seq<Notification>, shows: seq<Notification>)
    requires |page| <= 1
    requires shows != []
    ensures ShowAll(page, shows) == [shows[|shows| - 1]]
    decreases |shows|
  {
    var first := ShowNotification(page, shows[0].message, Some(shows[0].kind));
    assert first == [shows[0]];
    if |shows| > 1 {
      SingleNotification(first, shows[1..]);
    }
  }

  /** Shows each notification in turn with its own type. */
  function ShowAll(page: seq<Notification>, shows: seq<Notification>): seq<Notification>
    decreases |shows|
  {
    if shows == [] then page
    else ShowAll(ShowNotification(page, shows[0].message, Some(shows[0].kind)), shows[1..])
  }

  /** The three fields of the demo form. */
  datatype ContactForm = ContactForm(name: string, email: string, message: string)

  const SubmittedMessage: string := "Form submitted successfully! \U{2705}"
  const MissingFieldsMessage: string := "Please fill in all fields! \U{26A0}\U{FE0F}"

  /** The form's fields and the page's notifications. */
  datatype FormPage = FormPage(form: ContactForm, notes: seq<Notification>)

  /** Submitting the form: when all three fields are non-empty it shows the
      success notification and resets the form to `defaults` (the values the
      markup declares); otherwise it shows a warning and keeps the form. */
  function Submit(p: FormPage, defaults: ContactForm): (r: FormPage)
    ensures var complete := p.form.name != "" && p.form.email != "" && p.form.message != "";
      && |r.notes| >= 1
      && (complete ==> r.form == defaults && r.notes[|r.notes| - 1] == Notification(SubmittedMessage, "success"))
      && (!complete ==> r.form == p.form && r.notes[|r.notes| - 1] == Notification(MissingFieldsMessage, "warning"))
  {
    if p.form.name != "" && p.form.email != "" && p.form.message != "" then
      FormPage(defaults, ShowNotification(p.notes, SubmittedMessage, Some("success")))
    else
      FormPage(p.form, ShowNotification(p.notes, MissingFieldsMessage, Some("warning")))
  }

  /** The notification a submit shows is green exactly when the form was
      complete, and amber otherwise. */
  lemma SubmitColour(p: FormPage, defaults: ContactForm)
    ensures var r := Submit(p, defaults);
      var complete := p.form.name != "" && p.form.email != "" && p.form.message != "";
      Background(r.notes[|r.notes| - 1].kind) == SuccessColour <==> complete
  {
  }

  /** The transition button's four messages. */
  const Messages: seq<string> := [
    "Great! You clicked me! \U{1F389}",
    "CSS Transitions are smooth! \U{2728}",
    "Keep learning! \U{1F4DA}",
    "You're doing amazing! \U{1F31F}"
  ]

  /** One click with the counter at `clickCount`: the message it shows, and
      the counter after it. */
  datatype Clicked = Clicked(shown: string, clickCount: nat)

  function Click(clickCount: nat): (r: Clicked)
    ensures r.clickCount == clickCount + 1
    ensures r.shown in Messages
  {
    Clicked(Messages[clickCount % |Messages|], clickCount + 1)
  }

  /** The messages the first `n` clicks show, the counter starting at 0. */
  function ClickMessages(n: nat): (r: seq<string>)
    ensures |r| == n
  {
    Shown(0, n)
  }

  /** The messages `n` clicks show from counter `c`: the click at position
      `k` shows message `(c + k) mod 4`. */
  function Shown(c: nat, n: nat): (r: seq<string>)
    ensures |r| == n
    ensures forall k :: 0 <= k < n ==> r[k] == Messages[(c + k) % 4]
    decreases n
  {
    if n == 0 then [] else [Click(c).shown] + Shown(Click(c).clickCount, n - 1)
  }

  /** The `k`-th click (from 0) shows `messages[k mod 4]`, so the sequence
      of messages repeats with period 4. */
  lemma ClickCycle(n: nat, k: nat)
    requires k < n
    ensures ClickMessages(n)[k] == Messages[k % 4]
    ensures k + 4 < n ==> ClickMessages(n)[k + 4] == ClickMessages(n)[k]
  {
    var r := Shown(0, n);
    if k + 4 < n {
      assert r[k + 4] == Messages[(k + 4) % 4];
    }
  }
}
