/** The ES6 demo page's log panel (`DemoApp.logToConsole`, `clearConsole`,
    `toggleConsole`): an append-only list of lines capped at 100, reset to two
    header lines on clear, shown or hidden by a flag. A missing panel element
    is modelled as `None`, on which every operation is a no-op. */
module ConsoleSink {
  import opened Wrappers

  /** The most lines the panel keeps after an append. */
  const MaxLines: nat := 100

  /** One panel line: its kind (the CSS class after `console-line`, empty for
      the header lines) and its text. */
  datatype Line = Line(kind: string, text: string)

  /** The kind `logToConsole` uses when the caller passes none. */
  const DefaultKind: string := "info"

  /** The two lines `clearConsole` leaves behind. */
  const HeaderLines: seq<Line> := [
    Line("", "// JavaScript ES6+ Demo Console"),
    Line("", "// Console cleared! Ready for new demos.")
  ]

  /** The line `logToConsole(message, kind)` creates. */
  function LogLine(message: string, kind: Option<string>): (l: Line)
    ensures |l.text| == |message| + 2 && l.text[..2] == "> " && l.text[2..] == message
    ensures kind.None? ==> l.kind == DefaultKind
    ensures kind.Some? ==> l.kind == kind.value
  {
    Line(if kind.Some? then kind.value else DefaultKind, "> " + message)
  }

  /** The last `n` elements of `xs` (all of them when there are fewer). */
  function Newest<T>(xs: seq<T>, n: nat): seq<T> {
    if |xs| <= n then xs else xs[|xs| - n..]
  }

  /** `logToConsole`: append one line, then drop the oldest line once if the
      panel now holds more than `MaxLines`. */
  function LogToConsole(panel: Option<seq<Line>>, message: string, kind: Option<string>): (r: Option<seq<Line>>)
    ensures panel.None? <==> r.None?
    ensures panel.Some? ==> |r.value| > 0 && r.value[|r.value| - 1] == LogLine(message, kind)
    ensures panel.Some? && |panel.value| < MaxLines ==> r.value == panel.value + [LogLine(message, kind)]
    ensures panel.Some? && |panel.value| >= MaxLines ==> r.value == panel.value[1..] + [LogLine(message, kind)]
    ensures panel.Some? && |panel.value| <= MaxLines ==>
      r == Some(Newest(panel.value + [LogLine(message, kind)], MaxLines)) && |r.value| <= MaxLines
  {
    match panel
    case None => None
    case Some(lines) =>
      var appended := lines + [LogLine(message, kind)];
      assert |appended| > MaxLines ==> appended[1..] == lines[1..] + [LogLine(message, kind)];
      Some(if |appended| > MaxLines then appended[1..] else appended)
  }

  /** One `logToConsole` call: its message and the kind it passes, if any. */
  datatype Entry = Entry(message: string, kind: Option<string>)

  /** Logs each entry in turn. */
  function LogAll(panel: Option<seq<Line>>, entries: seq<Entry>): Option<seq<Line>>
    decreases |entries|
  {
    if entries == [] then panel
    else LogAll(LogToConsole(panel, entries[0].message, entries[0].kind), entries[1..])
  }

  /** The lines a batch of entries produces, in order. */
  function LogLines(entries: seq<Entry>): (r: seq<Line>)
    ensures |r| == |entries|
    ensures forall k :: 0 <= k < |r| ==> r[k] == LogLine(entries[k].message, entries[k].kind)
  {
    seq(|entries|, k requires 0 <= k < |entries| => LogLine(entries[k].message, entries[k].kind))
  }

  /** Bounded log: starting from at most `MaxLines` lines, any number of
      appends, with or without a kind, leaves exactly the newest `MaxLines`
      lines of everything logged, in their original order. */
  lemma {:induction false} LogAllKeepsNewest(lines: seq<Line>, entries: seq<Entry>)
    requires |lines| <= MaxLines
    ensures LogAll(Some(lines), entries) == Some(Newest(lines + LogLines(entries), MaxLines))
    decreases |entries|
  {
    if entries == [] {
      assert lines + LogLines(entries) == lines;
    } else {
      var l := LogLine(entries[0].message, entries[0].kind);
      var next := Newest(lines + [l], MaxLines);
      assert LogToConsole(Some(lines), entries[0].message, entries[0].kind) == Some(next);
      LogAllKeepsNewest(next, entries[1..]);
      LogLinesCons(lines, entries);
      NewestOfNewest(lines + [l], LogLines(entries[1..]), MaxLines);
    }
  }

  lemma LogLinesCons(lines: seq<Line>, entries: seq<Entry>)
    requires entries != []
    ensures lines + LogLines(entries) == (lines + [LogLine(entries[0].message, entries[0].kind)]) + LogLines(entries[1..])
  {
    var all := LogLines(entries);
    var split := [LogLine(entries[0].message, entries[0].kind)] + LogLines(entries[1..]);
    forall k | 0 <= k < |all|
      ensures all[k] == split[k]
    {
      if k > 0 {
        assert entries[1..][k - 1] == entries[k];
      }
    }
    assert all == split;
  }

  /** Trimming to the newest `n` before appending more does not change the
      newest `n` afterwards. */
  lemma NewestOfNewest<T>(xs: seq<T>, ys: seq<T>, n: nat)
    ensures Newest(Newest(xs, n) + ys, n) == Newest(xs + ys, n)
  {
    if |xs| > n {
      var t := xs[|xs| - n..];
      assert (xs + ys)[|xs + ys| - |t + ys|..] == t + ys;
    }
  }

  /** The overflow scenario: logging more than `MaxLines` entries onto an
      empty panel keeps exactly `MaxLines` lines, the last ones logged. */
  lemma OverflowDropsOldest(entries: seq<Entry>)
    requires |entries| > MaxLines
    ensures LogAll(Some([]), entries) == Some(LogLines(entries[|entries| - MaxLines..]))
  {
    LogAllKeepsNewest([], entries);
    EmptyPrefix(LogLines(entries));
    NewestLogLines(entries);
  }

  /** The newest `MaxLines` lines of an overlong batch are the lines of its
      last `MaxLines` entries. */
  lemma NewestLogLines(entries: seq<Entry>)
    requires |entries| > MaxLines
    ensures Newest(LogLines(entries), MaxLines) == LogLines(entries[|entries| - MaxLines..])
  {
    var a := |entries| - MaxLines;
    assert Newest(LogLines(entries), MaxLines) == LogLines(entries)[a..];
    LogLinesSuffix(entries, a);
  }

  lemma EmptyPrefix<T>(xs: seq<T>)
    ensures [] + xs == xs
  {
  }

  /** The lines of a suffix of the entries are the suffix of their lines. */
  lemma LogLinesSuffix(entries: seq<Entry>, a: nat)
    requires a <= |entries|
    ensures LogLines(entries)[a..] == LogLines(entries[a..])
  {
    var all := LogLines(entries);
    var tail := LogLines(entries[a..]);
    forall k | 0 <= k < |tail|
      ensures all[a..][k] == tail[k]
    {
      assert entries[a..][k] == entries[a + k];
    }
  }

  /** `clearConsole`: replace the panel content by the two header lines. */
  function ClearConsole(panel: Option<seq<Line>>): (r: Option<seq<Line>>)
    ensures panel.None? ==> r.None?
    ensures panel.Some? ==> r == Some(HeaderLines)
  {
    if panel.Some? then Some(HeaderLines) else None
  }

  /** Clearing twice is clearing once, and what was logged before a clear
      makes no difference to the panel after it. */
  lemma ClearIdempotent(panel: Option<seq<Line>>, entries: seq<Entry>)
    ensures ClearConsole(ClearConsole(panel)) == ClearConsole(panel)
    ensures ClearConsole(LogAll(panel, entries)) == ClearConsole(panel)
  {
    LogAllKeepsPresence(panel, entries);
  }

  /** Logging never creates or removes the panel element. */
  lemma {:induction false} LogAllKeepsPresence(panel: Option<seq<Line>>, entries: seq<Entry>)
    ensures LogAll(panel, entries).Some? <==> panel.Some?
    ensures panel.None? ==> LogAll(panel, entries) == None
    decreases |entries|
  {
    if entries != [] {
      LogAllKeepsPresence(LogToConsole(panel, entries[0].message, entries[0].kind), entries[1..]);
    }
  }

  /** The display flag together with the console section element's `display`
      style (`None` when the section is absent from the page). */
  datatype Visibility = Visibility(isVisible: bool, section: Option<string>)

  /** `toggleConsole`: flips the flag and restyles the section, only when the
      section exists. */
  function ToggleConsole(v: Visibility): (r: Visibility)
    ensures v.section.None? ==> r == v
    ensures v.section.Some? ==> r.isVisible == !v.isVisible
    ensures v.section.Some? ==> r.section == Some(if r.isVisible then "block" else "none")
  {
    match v.section
    case None => v
    case Some(_) =>
      var shown := !v.isVisible;
      Visibility(shown, Some(if shown then "block" else "none"))
  }

  /** Toggling twice restores the flag, and the section's style agrees with
      the flag afterwards. */
  lemma ToggleTwice(v: Visibility)
    ensures ToggleConsole(ToggleConsole(v)).isVisible == v.isVisible
    ensures v.section.Some? ==>
      ToggleConsole(ToggleConsole(v)).section == Some(if v.isVisible then "block" else "none")
    ensures v.section.None? ==> ToggleConsole(ToggleConsole(v)) == v
  {
  }
}
