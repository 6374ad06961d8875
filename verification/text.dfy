/** Plain string utilities shared by every page model: substring search (the
    `includes` test), whitespace trimming parameterised by a whitespace table,
    decimal rendering of integers, separator joining and ASCII lower-casing. */
module Text {

  /** `s.includes(sub)`: some window of `s` equals `sub`. */
  predicate Contains(s: string, sub: string) {
    exists i | 0 <= i <= |s| - |sub| :: OccursAt(s, sub, i)
  }

  /** `sub` occurs in `s` starting at index `i`. */
  predicate OccursAt(s: string, sub: string, i: int) {
    0 <= i <= |s| - |sub| && s[i..i + |sub|] == sub
  }

  /** A string that begins with `sub` contains it. */
  lemma ContainsPrefix(sub: string, rest: string)
    ensures Contains(sub + rest, sub)
  {
    assert OccursAt(sub + rest, sub, 0);
  }

  /** If some character of `sub` never occurs in `s`, `s` cannot contain `sub`. */
  lemma MissingCharNotContained(s: string, sub: string, k: nat)
    requires k < |sub|
    requires forall j :: 0 <= j < |s| ==> s[j] != sub[k]
    ensures !Contains(s, sub)
  {
    forall i | 0 <= i <= |s| - |sub|
      ensures !OccursAt(s, sub, i)
    {
      assert s[i..i + |sub|][k] == s[i + k];
    }
  }

  /** A space-free pattern never straddles a space: it occurs in `p + " " + q`
      exactly when it occurs in `p` or in `q`. */
  lemma ContainsAcrossSpace(p: string, q: string, sub: string)
    requires ' ' !in sub
    ensures Contains(p + " " + q, sub) <==> Contains(p, sub) || Contains(q, sub)
  {
    if Contains(p + " " + q, sub) {
      var i :| OccursAt(p + " " + q, sub, i);
      OccurrenceSides(p, q, sub, i);
    }
    if Contains(p, sub) {
      var i :| OccursAt(p, sub, i);
      OccursLeft(p, q, sub, i);
    }
    if Contains(q, sub) {
      var i :| OccursAt(q, sub, i);
      OccursRight(p, q, sub, i);
    }
  }

  /** An occurrence of a space-free pattern in `p + " " + q` lies wholly in
      `p` or wholly in `q`. */
  lemma OccurrenceSides(p: string, q: string, sub: string, i: int)
    requires ' ' !in sub && OccursAt(p + " " + q, sub, i)
    ensures Contains(p, sub) || Contains(q, sub)
  {
    var s := p + " " + q;
    assert s[|p|] == ' ';
    assert s[i..i + |sub|] == sub;
    assert forall k :: 0 <= k < |sub| ==> s[i + k] == sub[k];
    if i + |sub| <= |p| {
      assert p[i..i + |sub|] == s[i..i + |sub|];
      assert OccursAt(p, sub, i);
    } else if i > |p| {
      var j := i - |p| - 1;
      forall k | 0 <= k < |sub|
        ensures q[j..j + |sub|][k] == sub[k]
      {
        assert q[j + k] == s[i + k];
      }
      assert q[j..j + |sub|] == sub;
      assert OccursAt(q, sub, j);
    }
  }

  /** An occurrence in `p` stays at the same index in `p + " " + q`. */
  lemma OccursLeft(p: string, q: string, sub: string, i: int)
    requires OccursAt(p, sub, i)
    ensures Contains(p + " " + q, sub)
  {
    var s := p + " " + q;
    assert s[i..i + |sub|] == p[i..i + |sub|];
    assert OccursAt(s, sub, i);
  }

  /** An occurrence in `q` moves right by `|p| + 1` in `p + " " + q`. */
  lemma OccursRight(p: string, q: string, sub: string, i: int)
    requires OccursAt(q, sub, i)
    ensures Contains(p + " " + q, sub)
  {
    var s := p + " " + q;
    var j := i + |p| + 1;
    forall k | 0 <= k < |sub|
      ensures s[j..j + |sub|][k] == sub[k]
    {
      assert q[i..i + |sub|][k] == q[i + k];
      assert s[j + k] == q[i + k];
    }
    assert s[j..j + |sub|] == sub;
    assert OccursAt(s, sub, j);
  }

  /** Every character of `s` satisfies `ws`. */
  predicate AllIn(s: string, ws: char -> bool) {
    forall k :: 0 <= k < |s| ==> ws(s[k])
  }

  /** Drops the longest prefix made of `ws` characters. */
  function TrimStartBy(s: string, ws: char -> bool): (r: string)
    ensures |r| <= |s| && r == s[|s| - |r|..]
    ensures forall k :: 0 <= k < |s| - |r| ==> ws(s[k])
    ensures r == [] || !ws(r[0])
  {
    if s == [] || !ws(s[0]) then s else TrimStartBy(s[1..], ws)
  }

  /** Drops the longest suffix made of `ws` characters. */
  function TrimEndBy(s: string, ws: char -> bool): (r: string)
    ensures |r| <= |s| && r == s[..|r|]
    ensures forall k :: |r| <= k < |s| ==> ws(s[k])
    ensures r == [] || !ws(r[|r| - 1])
  {
    if s == [] || !ws(s[|s| - 1]) then s else TrimEndBy(s[..|s| - 1], ws)
  }

  /** Strips whitespace (as decided by the table `ws`) from both ends; this
      is JavaScript's `trim` and Python's `strip` for their own tables. */
  function TrimBy(s: string, ws: char -> bool): (r: string)
    ensures |r| <= |s|
    ensures r == [] <==> AllIn(s, ws)
  {
    TrimFacts(s, ws);
    TrimEndBy(TrimStartBy(s, ws), ws)
  }

  /** What is left after stripping starts and ends on non-whitespace. */
  lemma TrimmedEndsNotBlank(s: string, ws: char -> bool, r: string)
    requires r == TrimBy(s, ws) && r != []
    ensures !ws(r[0]) && !ws(r[|r| - 1])
  {
    TrimFacts(s, ws);
  }

  /** The properties `TrimBy` promises, about its two halves. */
  lemma TrimFacts(s: string, ws: char -> bool)
    ensures var r := TrimEndBy(TrimStartBy(s, ws), ws);
      && |r| <= |s|
      && (r == [] <==> AllIn(s, ws))
      && (r != [] ==> !ws(r[0]) && !ws(r[|r| - 1]))
  {
    var t := TrimStartBy(s, ws);
    var r := TrimEndBy(t, ws);
    if r == [] {
      TrimmedAway(s, t, ws);
    } else {
      TrimmedEnds(s, t, r, ws);
    }
  }

  /** When both halves of `TrimBy` remove everything, every character was
      whitespace. */
  lemma TrimmedAway(s: string, t: string, ws: char -> bool)
    requires t == TrimStartBy(s, ws) && TrimEndBy(t, ws) == []
    ensures AllIn(s, ws)
  {
    if t != [] {
      // `t` would start on a non-whitespace character, which `TrimEndBy` keeps.
      assert false;
    }
  }

  /** When something is left, it starts and ends on non-whitespace, and
      that first character is a non-whitespace character of the input. */
  lemma TrimmedEnds(s: string, t: string, r: string, ws: char -> bool)
    requires t == TrimStartBy(s, ws) && r == TrimEndBy(t, ws) && r != []
    ensures !AllIn(s, ws)
    ensures !ws(r[0]) && !ws(r[|r| - 1])
  {
    assert r == t[..|r|];
    assert r[0] == t[0];
    assert s[|s| - |t|] == t[0];
  }

  /** A decimal digit character. */
  predicate IsDigit(c: char) {
    '0' <= c <= '9'
  }

  function DigitChar(d: nat): (c: char)
    requires d < 10
    ensures IsDigit(c)
  {
    "0123456789"[d]
  }

  function DigitValue(c: char): nat
    requires IsDigit(c)
  {
    (c - '0') as nat
  }

  /** The shortest base-10 spelling of `n` (Python `str`, JavaScript `String`
      on a small non-negative integer). */
  function NatToDecimal(n: nat): (r: string)
    ensures |r| >= 1
    ensures forall k :: 0 <= k < |r| ==> IsDigit(r[k])
    ensures |r| > 1 ==> r[0] != '0'
    decreases n
  {
    if n < 10 then [DigitChar(n)] else NatToDecimal(n / 10) + [DigitChar(n % 10)]
  }

  /** The number a string of digits spells in base 10. */
  function DecimalValue(s: string): nat
    requires forall k :: 0 <= k < |s| ==> IsDigit(s[k])
  {
    if s == [] then 0 else 10 * DecimalValue(s[..|s| - 1]) + DigitValue(s[|s| - 1])
  }

  /** Reading back a rendered number gives the number. */
  lemma {:induction false} DecimalRoundTrip(n: nat)
    ensures DecimalValue(NatToDecimal(n)) == n
    decreases n
  {
    var r := NatToDecimal(n);
    if n >= 10 {
      DecimalRoundTrip(n / 10);
      assert r[..|r| - 1] == NatToDecimal(n / 10);
    }
  }

  /** Distinct numbers have distinct spellings. */
  lemma DecimalInjective(m: nat, n: nat)
    requires NatToDecimal(m) == NatToDecimal(n)
    ensures m == n
  {
    DecimalRoundTrip(m);
    DecimalRoundTrip(n);
  }

  /** Integer rendering with a leading minus sign for negatives. */
  function IntToDecimal(i: int): (r: string)
    ensures |r| >= 1
    ensures r[0] == '-' <==> i < 0
  {
    if i < 0 then "-" + NatToDecimal(-i) else NatToDecimal(i)
  }

  /** `parts.join(sep)`. */
  function Join(parts: seq<string>, sep: string): (r: string)
    ensures |parts| == 0 ==> r == ""
    ensures |parts| == 1 ==> r == parts[0]
    decreases |parts|
  {
    if |parts| == 0 then ""
    else if |parts| == 1 then parts[0]
    else parts[0] + sep + Join(parts[1..], sep)
  }

  /** Joining one more part adds the separator and that part at the end. */
  lemma {:induction false} JoinSnoc(parts: seq<string>, p: string, sep: string)
    requires |parts| >= 1
    ensures Join(parts + [p], sep) == Join(parts, sep) + sep + p
    decreases |parts|
  {
    var whole := parts + [p];
    if |parts| == 1 {
      assert whole[1..] == [p];
    } else {
      assert whole[1..] == parts[1..] + [p];
      JoinSnoc(parts[1..], p, sep);
      assert Join(whole, sep) == parts[0] + sep + (Join(parts[1..], sep) + sep + p);
    }
  }

  /** ASCII lower-casing, the only part of Python's `str.lower` that can
      produce the letters of an ASCII keyword. */
  function LowerChar(c: char): char
  {
    if 'A' <= c <= 'Z' then (c as int + 32) as char else c
  }

  function Lower(s: string): (r: string)
    ensures |r| == |s|
    ensures forall k :: 0 <= k < |s| ==> r[k] == LowerChar(s[k])
  {
    seq(|s|, k requires 0 <= k < |s| => LowerChar(s[k]))
  }
}
