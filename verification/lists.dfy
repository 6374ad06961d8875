/** Order-preserving filtering, the shape of every `filter` in the reducers. */
module Lists {

  /** `xs.filter(keep)`. */
  function Keep<T>(xs: seq<T>, keep: T -> bool): (r: seq<T>)
    ensures |r| <= |xs|
    ensures forall k :: 0 <= k < |r| ==> keep(r[k])
    ensures forall k :: 0 <= k < |r| ==> r[k] in xs
    ensures forall k :: 0 <= k < |xs| && keep(xs[k]) ==> xs[k] in r
  {
    if xs == [] then []
    else if keep(xs[0]) then [xs[0]] + Keep(xs[1..], keep)
    else Keep(xs[1..], keep)
  }

  /** Filtering a concatenation filters each part in place, so the kept
      elements stay in their original relative order. */
  lemma {:induction false} KeepAppend<T>(xs: seq<T>, ys: seq<T>, keep: T -> bool)
    ensures Keep(xs + ys, keep) == Keep(xs, keep) + Keep(ys, keep)
  {
    if xs != [] {
      var rest := xs[1..] + ys;
      assert (xs + ys)[0] == xs[0] && (xs + ys)[1..] == rest;
      KeepAppend(xs[1..], ys, keep);
      if keep(xs[0]) {
        assert Keep(xs + ys, keep) == [xs[0]] + Keep(rest, keep);
        assert Keep(xs, keep) == [xs[0]] + Keep(xs[1..], keep);
      } else {
        assert Keep(xs + ys, keep) == Keep(rest, keep);
      }
    } else {
      assert xs + ys == ys;
    }
  }

  /** When every element passes, the filter returns its input. */
  lemma {:induction false} KeepAll<T>(xs: seq<T>, keep: T -> bool)
    requires forall k :: 0 <= k < |xs| ==> keep(xs[k])
    ensures Keep(xs, keep) == xs
  {
    if xs != [] {
      KeepAll(xs[1..], keep);
    }
  }

  /** Filtering twice with the same test is filtering once. */
  lemma KeepIdempotent<T>(xs: seq<T>, keep: T -> bool)
    ensures Keep(Keep(xs, keep), keep) == Keep(xs, keep)
  {
    KeepAll(Keep(xs, keep), keep);
  }
}
