/** The mock `console` handed to playground snippets on the ES6 page: four
    entry points, each turning its arguments into one line of text and pushing
    it onto a buffer that is created fresh for every run. */
module CaptureConsole {
  import opened Js

  /** The four methods the mock console provides. A snippet that calls any
      other method (`console.table`, ...) throws a TypeError, which belongs to
      the snippet's own behaviour, not to this module. */
  datatype Method = Log | Error | Warn | Info

  /** One call the snippet made on the mock console. */
  datatype Call = Call(entry: Method, args: seq<JsValue>)

  /** The label each method puts in front of its joined arguments. */
  function Prefix(m: Method): string {
    match m
    case Log => ""
    case Error => "ERROR: "
    case Warn => "WARNING: "
    case Info => "INFO: "
  }

  /** The buffered text of one call: the method's label, then the arguments
      joined with single spaces. */
  function Format(c: Call): (r: string)
    ensures |r| >= |Prefix(c.entry)| && r[..|Prefix(c.entry)|] == Prefix(c.entry)
    ensures r[|Prefix(c.entry)|..] == JoinArgs(c.args)
  {
    Prefix(c.entry) + JoinArgs(c.args)
  }

  /** Pushes one formatted call onto the run's buffer. */
  function Record(buffer: seq<string>, c: Call): (r: seq<string>)
    ensures |r| == |buffer| + 1 && r[..|buffer|] == buffer && r[|buffer|] == Format(c)
    ensures forall k :: 0 <= k < |buffer| ==> r[k] == buffer[k]
  {
    buffer + [Format(c)]
  }

  /** The buffer a run leaves behind: starting empty, every call recorded in
      the order it was made. */
  function Buffered(calls: seq<Call>): (r: seq<string>)
    ensures |r| == |calls|
    ensures forall k :: 0 <= k < |calls| ==> r[k] == Format(calls[k])
    decreases |calls|
  {
    if calls == [] then []
    else
      var earlier := calls[..|calls| - 1];
      var prev := Buffered(earlier);
      assert forall k :: 0 <= k < |earlier| ==> earlier[k] == calls[k];
      Record(prev, calls[|calls| - 1])
  }

  /** The buffer of a run is the buffer of its earlier calls followed by the
      buffer of its later calls: nothing is reordered or dropped. */
  lemma BufferedAppend(xs: seq<Call>, ys: seq<Call>)
    ensures Buffered(xs + ys) == Buffered(xs) + Buffered(ys)
  {
    var whole := Buffered(xs + ys);
    var parts := Buffered(xs) + Buffered(ys);
    forall k | 0 <= k < |whole|
      ensures whole[k] == parts[k]
    {
      if k < |xs| {
        assert (xs + ys)[k] == xs[k];
      } else {
        assert (xs + ys)[k] == ys[k - |xs|];
      }
    }
  }

  /** The labels of `error`, `warn` and `info` differ from one another, so
      the text of a labelled call determines which method made it and what
      its arguments joined to. */
  lemma LabelledFormatDetermines(c1: Call, c2: Call)
    requires c1.entry != Log && c2.entry != Log
    requires Format(c1) == Format(c2)
    ensures c1.entry == c2.entry
    ensures JoinArgs(c1.args) == JoinArgs(c2.args)
  {
    var f := Format(c1);
    assert f[0] == Prefix(c1.entry)[0] && f[0] == Prefix(c2.entry)[0];
  }

  /** `log` adds no label, so a `log` call can produce exactly the text of an
      `error` call: `console.log('ERROR:', x)` buffers what `console.error(x)`
      buffers. */
  lemma LogCanImitateError(v: JsValue)
    ensures Format(Call(Log, [Str("ERROR:"), v])) == Format(Call(Error, [v]))
  {
    JoinArgsPair(Str("ERROR:"), v);
  }
}
