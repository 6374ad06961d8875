/** The ES6 page's code playground (`DemoApp.runPlaygroundCode` and
    `logToPlayground`). Compiling the snippet with `new Function('console',
    code)` and calling it with the mock console are one foreign step, given
    here as an oracle `run` that tells how the trimmed source behaves: it fails
    to compile, or it makes a sequence of console calls and then returns or
    throws. `JSON.stringify` is a second oracle, `json`. */
module SnippetPlayground {
  import opened Wrappers
  import opened Text
  import opened Js
  import opened CaptureConsole

  /** How a snippet behaves when compiled and called once. */
  datatype Behaviour =
    | CompileError(message: JsValue)
    | Ran(calls: seq<Call>, end: Completion)

  /** The lines a run can emit, before they are painted. */
  datatype Emitted =
    | Prompt
    | Running
    | Output(text: string)
    | ReturnValue(json: string)
    | Success
    | Failure(message: JsValue)

  const PromptText: string := "// Please enter some JavaScript code to run"
  const RunningText: string := "// Running your code...\n"
  const SuccessText: string := "\n// Code executed successfully! \U{2705}"

  /** The exact text of each emitted line. */
  function LineText(e: Emitted): string {
    match e
    case Prompt => PromptText
    case Running => RunningText
    case Output(text) => text
    case ReturnValue(json) => "\n// Return value: " + json
    case Success => SuccessText
    case Failure(m) => "// Error: " + ToText(m) + " \U{274C}"
  }

  /** The lines one press of Run emits, in order. */
  function RunLines(source: string, run: string -> Behaviour, json: JsValue -> Completion): seq<Emitted> {
    var code := Trim(source);
    if code == "" then [Prompt] else [Running] + OutcomeLines(run(code), json)
  }

  /** The buffered console output, replayed as lines. */
  function Outputs(calls: seq<Call>): (r: seq<Emitted>)
    ensures |r| == |calls|
    ensures forall k :: 0 <= k < |calls| ==> r[k] == Output(Format(calls[k]))
  {
    var texts := Buffered(calls);
    seq(|texts|, k requires 0 <= k < |texts| => Output(texts[k]))
  }

  /** The lines after the running line. The `try` block covers compiling,
      calling, replaying the buffer and stringifying the result, so a throw
      from any of them lands in the same `catch`. */
  function OutcomeLines(b: Behaviour, json: JsValue -> Completion): seq<Emitted> {
    match b
    case CompileError(m) => [Failure(m)]
    case Ran(_, Throw(m)) => [Failure(m)]
    case Ran(calls, Return(v)) =>
      if v == Undefined then Outputs(calls) + [Success]
      else match json(v)
        case Throw(m) => Outputs(calls) + [Failure(m)]
        case Return(text) => Outputs(calls) + [ReturnValue(ToText(text)), Success]
  }

  /** Blank source (empty after trimming) yields the prompt line alone, and
      the snippet is never compiled or run: the result is the same whatever
      the oracles would have done. */
  lemma BlankSourceNeverRuns(source: string, run1: string -> Behaviour, run2: string -> Behaviour,
                             json1: JsValue -> Completion, json2: JsValue -> Completion)
    requires forall k :: 0 <= k < |source| ==> IsJsWhitespace(source[k])
    ensures RunLines(source, run1, json1) == [Prompt]
    ensures RunLines(source, run1, json1) == RunLines(source, run2, json2)
  {
  }

  /** A successful run: the running line, every buffered output in call
      order, a return-value line exactly when the result is not `undefined`,
      and the success line last. */
  lemma SuccessfulRunLines(source: string, run: string -> Behaviour, json: JsValue -> Completion,
                           calls: seq<Call>, v: JsValue)
    requires Trim(source) != ""
    requires run(Trim(source)) == Ran(calls, Return(v))
    requires v != Undefined ==> json(v).Return?
    ensures var lines := RunLines(source, run, json);
      && |lines| == |calls| + (if v == Undefined then 2 else 3)
      && lines[0] == Running
      && (forall k :: 0 <= k < |calls| ==> lines[1 + k] == Output(Format(calls[k])))
      && (v != Undefined ==> lines[|calls| + 1] == ReturnValue(ToText(json(v).value)))
      && lines[|lines| - 1] == Success
  {
    var lines := RunLines(source, run, json);
    var o := OutcomeLines(Ran(calls, Return(v)), json);
    assert lines == [Running] + o;
    ReturnedOutcome(calls, v, json);
    forall k | 0 <= k < |o|
      ensures lines[1 + k] == o[k]
    {
    }
  }

  /** The outcome of a snippet that returned and whose result, if any,
      could be stringified. */
  lemma ReturnedOutcome(calls: seq<Call>, v: JsValue, json: JsValue -> Completion)
    requires v != Undefined ==> json(v).Return?
    ensures var o := OutcomeLines(Ran(calls, Return(v)), json);
      && |o| == |calls| + (if v == Undefined then 1 else 2)
      && (forall k :: 0 <= k < |calls| ==> o[k] == Output(Format(calls[k])))
      && (v != Undefined ==> o[|calls|] == ReturnValue(ToText(json(v).value)))
      && o[|o| - 1] == Success
  {
    var outs := Outputs(calls);
    var tail := if v == Undefined then [Success] else [ReturnValue(ToText(json(v).value)), Success];
    var o := OutcomeLines(Ran(calls, Return(v)), json);
    assert o == outs + tail;
    forall k | 0 <= k < |calls|
      ensures o[k] == Output(Format(calls[k]))
    {
      assert o[k] == outs[k];
    }
    assert o[|calls|] == tail[0];
  }

  /** A snippet that throws shows the running line and one error line; the
      console output it buffered before throwing is never shown, so any two
      traces ending in the same throw look the same. */
  lemma ThrowHidesBufferedOutput(source: string, run1: string -> Behaviour, run2: string -> Behaviour,
                                 json1: JsValue -> Completion, json2: JsValue -> Completion,
                                 calls1: seq<Call>, calls2: seq<Call>, m: JsValue)
    requires Trim(source) != ""
    requires run1(Trim(source)) == Ran(calls1, Throw(m))
    requires run2(Trim(source)) == Ran(calls2, Throw(m))
    ensures RunLines(source, run1, json1) == [Running, Failure(m)]
    ensures RunLines(source, run1, json1) == RunLines(source, run2, json2)
  {
  }

  /** Compile errors and run-time throws share one `catch`: with the same
      message they produce the same lines, so the page cannot tell them apart. */
  lemma CompileAndRunFailuresAlike(source: string, run1: string -> Behaviour, run2: string -> Behaviour,
                                   json1: JsValue -> Completion, json2: JsValue -> Completion,
                                   calls: seq<Call>, m: JsValue)
    requires Trim(source) != ""
    requires run1(Trim(source)) == CompileError(m)
    requires run2(Trim(source)) == Ran(calls, Throw(m))
    ensures RunLines(source, run1, json1) == RunLines(source, run2, json2)
  {
  }

  /** When the snippet returns but `JSON.stringify` throws on its result
      (a cyclic object, say), the buffered output has already been shown:
      the lines are the running line, the outputs, and the error line. */
  lemma StringifyFailureAfterOutputs(source: string, run: string -> Behaviour, json: JsValue -> Completion,
                                     calls: seq<Call>, v: JsValue, m: JsValue)
    requires Trim(source) != ""
    requires run(Trim(source)) == Ran(calls, Return(v))
    requires v != Undefined && json(v) == Throw(m)
    ensures RunLines(source, run, json) == [Running] + Outputs(calls) + [Failure(m)]
  {
  }

  /** After the running line, a run shows only outputs and at most one
      return-value line, then ends on the success line or one error line;
      it is the success line exactly when the snippet compiled, returned
      normally and its result, if not `undefined`, could be stringified. */
  lemma OutcomeEndsOnce(b: Behaviour, json: JsValue -> Completion)
    ensures var o := OutcomeLines(b, json);
      && |o| >= 1
      && (o[|o| - 1].Success? || o[|o| - 1].Failure?)
      && (o[|o| - 1].Success? <==> b.Ran? && b.end.Return? && (b.end.value != Undefined ==> json(b.end.value).Return?))
      && (forall k :: 0 <= k < |o| - 1 ==> o[k].Output? || o[k].ReturnValue?)
  {
    match b
    case CompileError(m) =>
    case Ran(calls, Throw(m)) =>
    case Ran(calls, Return(v)) =>
      var outs := Outputs(calls);
      var o := OutcomeLines(b, json);
      var tail := if v == Undefined then [Success]
        else if json(v).Throw? then [Failure(json(v).message)]
        else [ReturnValue(ToText(json(v).value)), Success];
      assert o == outs + tail;
      forall k | 0 <= k < |o| - 1
        ensures o[k].Output? || o[k].ReturnValue?
      {
        if k < |outs| {
          assert o[k] == outs[k];
        } else {
          assert o[k] == tail[k - |outs|];
        }
      }
  }

  /** Every press of Run ends in exactly one way: the prompt alone (blank
      source), or the running line followed by the outcome, with the success
      or error line last and nowhere else. */
  lemma RunEndsOnce(source: string, run: string -> Behaviour, json: JsValue -> Completion)
    ensures var lines := RunLines(source, run, json);
      && |lines| >= 1
      && (lines[|lines| - 1] == Prompt <==> Trim(source) == "")
      && (lines[|lines| - 1].Prompt? || lines[|lines| - 1].Success? || lines[|lines| - 1].Failure?)
      && (forall k :: 0 <= k < |lines| - 1 ==> !lines[k].Success? && !lines[k].Failure?)
  {
    var code := Trim(source);
    if code != "" {
      var o := OutcomeLines(run(code), json);
      OutcomeEndsOnce(run(code), json);
      var lines := RunLines(source, run, json);
      assert lines == [Running] + o;
      forall k | 0 <= k < |lines| - 1
        ensures !lines[k].Success? && !lines[k].Failure?
      {
        if k > 0 {
          assert lines[k] == o[k - 1];
        }
      }
    }
  }

  /** The colours `logToPlayground` paints text in. */
  datatype Colour = Red | Amber | Grey | Green

  /** The CSS colour of each. */
  function ColourCode(c: Colour): string {
    match c
    case Red => "#ff4444"
    case Amber => "#ffaa00"
    case Grey => "#666"
    case Green => "#00ff00"
  }

  /** Case-sensitive substring tests, first match wins. */
  function LineColour(text: string): Colour {
    if Contains(text, "ERROR") then Red
    else if Contains(text, "WARNING") then Amber
    else if Contains(text, "//") then Grey
    else Green
  }

  /** A line with `//` at index `i` and no upper-case `E` or `W` is grey. */
  lemma GreyWhenUnlabelled(line: string, i: nat)
    requires forall k :: 0 <= k < |line| ==> line[k] != 'E' && line[k] != 'W'
    requires i + 2 <= |line| && line[i] == '/' && line[i + 1] == '/'
    ensures LineColour(line) == Grey
  {
    assert line[i..i + 2] == "//";
    assert OccursAt(line, "//", i);
    MissingCharNotContained(line, "ERROR", 0);
    MissingCharNotContained(line, "WARNING", 0);
  }

  /** The prompt line is grey. */
  lemma PromptGrey()
    ensures LineColour(LineText(Prompt)) == Grey
  {
    GreyWhenUnlabelled(PromptText, 0);
  }

  /** The running line is grey. */
  lemma RunningGrey()
    ensures LineColour(LineText(Running)) == Grey
  {
    GreyWhenUnlabelled(RunningText, 0);
  }

  /** The success line is grey. */
  lemma SuccessGrey()
    ensures LineColour(LineText(Success)) == Grey
  {
    GreyWhenUnlabelled(SuccessText, 1);
  }

  /** The `// Error: ... ❌` line is coloured by its message alone: red when
      the message contains `ERROR`, amber when it contains `WARNING` but not
      `ERROR`, and otherwise grey (the page's own `Error:` does not match the
      upper-case test). */
  lemma FailureColour(m: JsValue)
    ensures LineColour(LineText(Failure(m))) == Red <==> Contains(ToText(m), "ERROR")
    ensures LineColour(LineText(Failure(m))) == Amber <==>
      !Contains(ToText(m), "ERROR") && Contains(ToText(m), "WARNING")
    ensures LineColour(LineText(Failure(m))) == Grey <==>
      !Contains(ToText(m), "ERROR") && !Contains(ToText(m), "WARNING")
  {
    var head := "// Error:";
    var tail := "\U{274C}";
    var line := LineText(Failure(m));
    assert line == head + " " + (ToText(m) + " " + tail);
    ContainsAcrossSpace(head, ToText(m) + " " + tail, "ERROR");
    ContainsAcrossSpace(ToText(m), tail, "ERROR");
    ContainsAcrossSpace(head, ToText(m) + " " + tail, "WARNING");
    ContainsAcrossSpace(ToText(m), tail, "WARNING");
    MissingCharNotContained(head, "ERROR", 1);
    MissingCharNotContained(head, "WARNING", 0);
    MissingCharNotContained(tail, "ERROR", 0);
    MissingCharNotContained(tail, "WARNING", 0);
    assert line[0..2] == "//";
    assert OccursAt(line, "//", 0);
  }

  /** The return-value line contains `ERROR` or `WARNING` exactly when the
      stringified value does: its head has neither an upper-case `E` nor `W`. */
  lemma ReturnValueMentions(json: string, sub: string)
    requires sub == "ERROR" || sub == "WARNING"
    ensures Contains(LineText(ReturnValue(json)), sub) <==> Contains(json, sub)
  {
    var head := "\n// Return value:";
    assert LineText(ReturnValue(json)) == head + " " + json;
    ContainsAcrossSpace(head, json, sub);
    MissingCharNotContained(head, sub, 0);
  }

  /** The return-value line is red when the stringified value contains
      `ERROR`, amber when it contains `WARNING` but not `ERROR`, and grey
      otherwise. */
  lemma ReturnValueColour(json: string)
    ensures LineColour(LineText(ReturnValue(json))) == Red <==> Contains(json, "ERROR")
    ensures LineColour(LineText(ReturnValue(json))) == Amber <==>
      !Contains(json, "ERROR") && Contains(json, "WARNING")
    ensures LineColour(LineText(ReturnValue(json))) == Grey <==>
      !Contains(json, "ERROR") && !Contains(json, "WARNING")
  {
    var line := LineText(ReturnValue(json));
    ReturnValueMentions(json, "ERROR");
    ReturnValueMentions(json, "WARNING");
    assert line[1..3] == "//";
    assert OccursAt(line, "//", 1);
  }

  /** Output of `console.error` is always red: its label itself contains
      `ERROR`. */
  lemma ErrorOutputRed(args: seq<JsValue>)
    ensures LineColour(Format(Call(Error, args))) == Red
  {
    var t := JoinArgs(args);
    ContainsPrefix("ERROR", ": " + t);
    assert Format(Call(Error, args)) == "ERROR" + (": " + t);
  }

  /** Output of `console.warn` is amber exactly when its arguments do not
      mention `ERROR` (the red test comes first). */
  lemma WarnOutputColour(args: seq<JsValue>)
    ensures LineColour(Format(Call(Warn, args))) == Amber <==> !Contains(JoinArgs(args), "ERROR")
  {
    var t := JoinArgs(args);
    var w := "WARNING:";
    var line := Format(Call(Warn, args));
    assert line == w + " " + t;
    ContainsAcrossSpace(w, t, "ERROR");
    MissingCharNotContained(w, "ERROR", 0);
    assert line == "WARNING" + (": " + t);
    ContainsPrefix("WARNING", ": " + t);
  }

  /** One painted line of the playground panel. */
  datatype PanelLine = PanelLine(text: string, colour: Colour)

  /** `logToPlayground`: append one painted line; nothing when the panel
      element was missing at start-up. */
  function LogToPlayground(panel: Option<seq<PanelLine>>, message: string): (r: Option<seq<PanelLine>>)
    ensures panel.None? ==> r.None?
    ensures panel.Some? ==> r.Some? && |r.value| == |panel.value| + 1
    ensures panel.Some? ==> r.value[..|panel.value|] == panel.value
    ensures panel.Some? ==> r.value[|panel.value|] == PanelLine(message, LineColour(message))
  {
    match panel
    case None => None
    case Some(lines) => Some(lines + [PanelLine(message, LineColour(message))])
  }

  /** Paints each emitted line in turn. */
  function LogAllToPlayground(panel: Option<seq<PanelLine>>, lines: seq<Emitted>): (r: Option<seq<PanelLine>>)
    ensures panel.None? ==> r.None?
    ensures panel.Some? ==> r.Some? && |r.value| == |panel.value| + |lines|
    ensures panel.Some? ==> r.value[..|panel.value|] == panel.value
    ensures panel.Some? ==> forall k :: 0 <= k < |lines| ==>
      r.value[|panel.value| + k] == PanelLine(LineText(lines[k]), LineColour(LineText(lines[k])))
    decreases |lines|
  {
    if lines == [] then panel
    else LogAllToPlayground(LogToPlayground(panel, LineText(lines[0])), lines[1..])
  }

  /** `runPlaygroundCode`: does nothing without the editor or the output
      element; otherwise paints the run's lines after what the panel held.
      `editor` is the editor's current value, `panel` the output panel as
      cached when the page started. */
  function RunPlaygroundCode(editor: Option<string>, outputFound: bool, panel: Option<seq<PanelLine>>,
                             run: string -> Behaviour, json: JsValue -> Completion): (r: Option<seq<PanelLine>>)
    ensures editor.None? || !outputFound ==> r == panel
    ensures panel.None? ==> r.None?
    ensures editor.Some? && outputFound && panel.Some? ==>
      var lines := RunLines(editor.value, run, json);
      && r.Some? && |r.value| == |panel.value| + |lines|
      && r.value[..|panel.value|] == panel.value
      && forall k :: 0 <= k < |lines| ==> r.value[|panel.value| + k].text == LineText(lines[k])
  {
    if editor.None? || !outputFound then panel
    else LogAllToPlayground(panel, RunLines(editor.value, run, json))
  }
}
