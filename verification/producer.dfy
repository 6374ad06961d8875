/** The input loop of the RabbitMQ demo's producer (`main` in
    `producer.py`): each line the user types either ends the loop, is sent
    verbatim, or, when blank, is replaced by a numbered greeting. Publishing
    to the broker is left as the list of messages sent. */
module Producer {
  import opened Text

  /** The characters Python's `str.strip()` removes (`str.isspace`). */
  predicate IsPyWhitespace(c: char) {
    || c == '\t' || c == '\n' || c == '\U{000B}' || c == '\U{000C}' || c == '\r'
    || ('\U{001C}' <= c <= '\U{001F}')
    || c == ' ' || c == '\U{0085}' || c == '\U{00A0}' || c == '\U{1680}'
    || ('\U{2000}' <= c <= '\U{200A}')
    || c == '\U{2028}' || c == '\U{2029}' || c == '\U{202F}' || c == '\U{205F}'
    || c == '\U{3000}'
  }

  /** Empty or made of whitespace only. */
  predicate IsBlank(input: string) {
    forall k :: 0 <= k < |input| ==> IsPyWhitespace(input[k])
  }

  /** `user_input.lower() == 'quit'`. Only ASCII folding is modelled; no
      other character lower-cases to a single ASCII letter of `quit`. */
  predicate IsQuit(input: string) {
    Lower(input) == "quit"
  }

  /** The quit test accepts exactly the four letters in any mix of cases,
      with nothing around them. */
  lemma QuitSpellings(input: string)
    ensures IsQuit(input) <==>
      |input| == 4 && input[0] in "qQ" && input[1] in "uU" && input[2] in "iI" && input[3] in "tT"
  {
    if |input| == 4 {
      var l := Lower(input);
      assert l[0] == LowerChar(input[0]) && l[1] == LowerChar(input[1]);
      assert l[2] == LowerChar(input[2]) && l[3] == LowerChar(input[3]);
      if IsQuit(input) {
        assert l[0] == 'q' && l[1] == 'u' && l[2] == 'i' && l[3] == 't';
      }
    }
  }

  /** The greeting sent for the `n`-th blank line. */
  function DefaultMessage(n: nat): (r: string)
    ensures |r| == |DefaultHead| + |NatToDecimal(n)| + |DefaultTail|
  {
    DefaultHead + NatToDecimal(n) + DefaultTail
  }

  const DefaultHead: string := "Hello World! \U{8FD9}\U{662F}\U{7B2C} "
  const DefaultTail: string := " \U{6761}\U{6D88}\U{606F}"

  /** Different counter values give different greetings. */
  lemma DefaultMessageInjective(m: nat, n: nat)
    requires DefaultMessage(m) == DefaultMessage(n)
    ensures m == n
  {
    var dm := NatToDecimal(m);
    var dn := NatToDecimal(n);
    assert |dm| == |dn|;
    assert dm == DefaultMessage(m)[|DefaultHead|..|DefaultHead| + |dm|];
    assert dn == DefaultMessage(n)[|DefaultHead|..|DefaultHead| + |dn|];
    DecimalInjective(m, n);
  }

  /** What one line of input does. */
  datatype Step = Quit | Send(message: string, messageCount: nat)

  /** The loop body with the counter at `messageCount`: quit, or send a
      message and continue with the (possibly advanced) counter. */
  function ProducerStep(messageCount: nat, input: string): (r: Step)
    ensures r.Quit? <==> IsQuit(input)
    ensures r.Send? && IsBlank(input) ==> r == Send(DefaultMessage(messageCount), messageCount + 1)
    ensures r.Send? && !IsBlank(input) ==> r == Send(input, messageCount)
  {
    if IsQuit(input) then Quit
    else if TrimBy(input, IsPyWhitespace) == [] then Send(DefaultMessage(messageCount), messageCount + 1)
    else Send(input, messageCount)
  }

  /** The counter's starting value. */
  const FirstCount: nat := 1

  /** The messages sent, in order, for the lines typed after the counter
      reached `messageCount`; the loop stops at the first quit line. */
  function Session(messageCount: nat, inputs: seq<string>): seq<string>
    decreases |inputs|
  {
    if inputs == [] || IsQuit(inputs[0]) then []
    else [MessageFor(messageCount, inputs[0])] + Session(NextCount(messageCount, inputs[0]), inputs[1..])
  }

  /** The message a non-quit line sends with the counter at `messageCount`. */
  function MessageFor(messageCount: nat, input: string): string {
    if IsBlank(input) then DefaultMessage(messageCount) else input
  }

  /** The counter after a non-quit line. */
  function NextCount(messageCount: nat, input: string): nat {
    if IsBlank(input) then messageCount + 1 else messageCount
  }

  /** `Session` runs the loop body line by line: each non-quit line sends
      what `ProducerStep` sends and continues with its counter. */
  lemma SessionSteps(messageCount: nat, inputs: seq<string>)
    requires inputs != []
    ensures ProducerStep(messageCount, inputs[0]).Quit? ==> Session(messageCount, inputs) == []
    ensures ProducerStep(messageCount, inputs[0]).Send? ==>
      var s := ProducerStep(messageCount, inputs[0]);
      Session(messageCount, inputs) == [s.message] + Session(s.messageCount, inputs[1..])
  {
  }

  /** Lines with surrounding spaces are not quit commands: ` quit` is sent
      as it is, while `QUIT` ends the loop. */
  lemma QuitIsExact(messageCount: nat)
    ensures ProducerStep(messageCount, " quit") == Send(" quit", messageCount)
    ensures ProducerStep(messageCount, "QUIT") == Quit
  {
    QuitSpellings(" quit");
    QuitSpellings("QUIT");
    assert !IsPyWhitespace(" quit"[1]);
  }

  /** Nothing typed after a quit line is sent. */
  lemma {:induction false} QuitEndsSession(messageCount: nat, before: seq<string>, q: string, after: seq<string>)
    requires IsQuit(q)
    requires forall k :: 0 <= k < |before| ==> !IsQuit(before[k])
    ensures Session(messageCount, before + [q] + after) == Session(messageCount, before)
    decreases |before|
  {
    if before == [] {
      assert (before + [q] + after)[0] == q;
    } else {
      var s := ProducerStep(messageCount, before[0]);
      assert (before + [q] + after)[0] == before[0];
      assert (before + [q] + after)[1..] == before[1..] + [q] + after;
      QuitEndsSession(s.messageCount, before[1..], q, after);
    }
  }

  /** The number of blank lines among `inputs`. */
  function Blanks(inputs: seq<string>): nat
    decreases |inputs|
  {
    if inputs == [] then 0 else (if IsBlank(inputs[0]) then 1 else 0) + Blanks(inputs[1..])
  }

  /** Until a quit line, every line sends exactly one message: a non-blank
      line itself, a blank line the greeting numbered by how many blank lines
      came before it, counting from the counter's value. */
  lemma {:induction false} SessionNumbering(messageCount: nat, inputs: seq<string>, k: nat)
    requires forall j :: 0 <= j < |inputs| ==> !IsQuit(inputs[j])
    requires k < |inputs|
    ensures |Session(messageCount, inputs)| == |inputs|
    ensures Session(messageCount, inputs)[k] == MessageFor(messageCount + Blanks(inputs[..k]), inputs[k])
    decreases |inputs|
  {
    SessionLength(messageCount, inputs);
    var next := NextCount(messageCount, inputs[0]);
    if k == 0 {
      assert inputs[..0] == [];
    } else {
      SessionNumbering(next, inputs[1..], k - 1);
      assert inputs[..k] == [inputs[0]] + inputs[1..][..k - 1];
      BlanksCons(inputs[0], inputs[1..][..k - 1]);
      assert next + Blanks(inputs[1..][..k - 1]) == messageCount + Blanks(inputs[..k]);
    }
  }

  lemma BlanksCons(x: string, xs: seq<string>)
    ensures Blanks([x] + xs) == (if IsBlank(x) then 1 else 0) + Blanks(xs)
  {
    assert ([x] + xs)[1..] == xs;
  }

  /** Without a quit line, one message per line. */
  lemma {:induction false} SessionLength(messageCount: nat, inputs: seq<string>)
    requires forall j :: 0 <= j < |inputs| ==> !IsQuit(inputs[j])
    ensures |Session(messageCount, inputs)| == |inputs|
    decreases |inputs|
  {
    if inputs != [] {
      SessionLength(NextCount(messageCount, inputs[0]), inputs[1..]);
    }
  }

  /** From a fresh start, the greetings are numbered 1, 2, 3, ... in the
      order the blank lines were typed, whatever custom messages come in
      between; so no two greetings of one session are the same. */
  lemma GreetingsConsecutive(inputs: seq<string>, i: nat, j: nat)
    requires forall k :: 0 <= k < |inputs| ==> !IsQuit(inputs[k])
    requires i < j < |inputs| && IsBlank(inputs[i]) && IsBlank(inputs[j])
    ensures |Session(FirstCount, inputs)| == |inputs|
    ensures Session(FirstCount, inputs)[i] == DefaultMessage(1 + Blanks(inputs[..i]))
    ensures Session(FirstCount, inputs)[i] != Session(FirstCount, inputs)[j]
  {
    SessionNumbering(FirstCount, inputs, i);
    SessionNumbering(FirstCount, inputs, j);
    BlanksGrow(inputs, i, j);
    if Session(FirstCount, inputs)[i] == Session(FirstCount, inputs)[j] {
      DefaultMessageInjective(1 + Blanks(inputs[..i]), 1 + Blanks(inputs[..j]));
    }
  }

  /** A blank line at `i` counts towards every later prefix. */
  lemma BlanksGrow(inputs: seq<string>, i: nat, j: nat)
    requires i < j <= |inputs| && IsBlank(inputs[i])
    ensures Blanks(inputs[..j]) > Blanks(inputs[..i])
  {
    BlanksAppend(inputs[..i], inputs[i..j]);
    assert inputs[..j] == inputs[..i] + inputs[i..j];
    assert inputs[i..j] == [inputs[i]] + inputs[i + 1..j];
    BlanksCons(inputs[i], inputs[i + 1..j]);
  }

  lemma {:induction false} BlanksAppend(xs: seq<string>, ys: seq<string>)
    ensures Blanks(xs + ys) == Blanks(xs) + Blanks(ys)
    decreases |xs|
  {
    if xs == [] {
      assert xs + ys == ys;
    } else {
      assert (xs + ys)[1..] == xs[1..] + ys;
      BlanksAppend(xs[1..], ys);
    }
  }
}
