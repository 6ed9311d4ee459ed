/**
 Order-preserving filtering of a sequence, the shape shared by both search
 functions (`lines().filter(..).collect()`), and its characterisation as the
 one ordered selection of exactly the elements a predicate keeps.
 */
module Filters {

  /** The elements of `xs` that `keep` accepts, in their original order. */
  function Filter<T>(xs: seq<T>, keep: T -> bool): (r: seq<T>)
    ensures |r| <= |xs|
    ensures forall k :: 0 <= k < |r| ==> keep(r[k])
    decreases |xs|
  {
    if |xs| == 0 then []
    else if keep(xs[0]) then [xs[0]] + Filter(xs[1..], keep)
    else Filter(xs[1..], keep)
  }

  /** What `Filter` keeps of a single element. */
  function Kept<T>(x: T, keep: T -> bool): seq<T>
  {
    if keep(x) then [x] else []
  }

  /** `Filter` decides on the first element, then filters the rest. */
  lemma FilterCons<T>(x: T, xs: seq<T>, keep: T -> bool)
    ensures Filter([x] + xs, keep) == Kept(x, keep) + Filter(xs, keep)
  {
    assert ([x] + xs)[1..] == xs;
  }

  // ---------------------------------------------------------------------------
  // Reference definition: an ordered selection of positions
  // ---------------------------------------------------------------------------

  ghost predicate StrictlyIncreasing(idx: seq<nat>)
  {
    forall k, l :: 0 <= k < l < |idx| ==> idx[k] < idx[l]
  }

  /** `r` is `xs` read at the positions `idx`. */
  ghost predicate ReadsAt<T>(idx: seq<nat>, r: seq<T>, xs: seq<T>)
  {
    && |idx| == |r|
    && forall k :: 0 <= k < |idx| ==> idx[k] < |xs| && r[k] == xs[idx[k]]
  }

  /** The positions listed in `idx` are exactly those whose element `keep` accepts. */
  ghost predicate ListsAccepted<T>(idx: seq<nat>, xs: seq<T>, keep: T -> bool)
  {
    forall j :: 0 <= j < |xs| ==> (keep(xs[j]) <==> j in idx)
  }

  /**
   `r` is `xs` read at the strictly increasing positions `idx`, and those
   positions are exactly the ones whose element `keep` accepts.
   */
  ghost predicate Selects<T>(idx: seq<nat>, r: seq<T>, xs: seq<T>, keep: T -> bool)
  {
    StrictlyIncreasing(idx) && ReadsAt(idx, r, xs) && ListsAccepted(idx, xs, keep)
  }

  /** Every position moved one place right. */
  function Shift(idx: seq<nat>): seq<nat>
  {
    seq(|idx|, k requires 0 <= k < |idx| => idx[k] + 1)
  }

  /** Every position moved one place left; none may be 0. */
  function Unshift(idx: seq<nat>): seq<nat>
    requires forall k :: 0 <= k < |idx| ==> idx[k] >= 1
  {
    seq(|idx|, k requires 0 <= k < |idx| => idx[k] - 1)
  }

  /** Position 0 when the head is accepted, followed by the tail's positions moved one place right. */
  ghost function ConsPositions(accepted: bool, idx: seq<nat>): seq<nat>
  {
    (if accepted then [0] else []) + Shift(idx)
  }

  /** The positions of `xs` that `keep` accepts, in increasing order. */
  ghost function Positions<T>(xs: seq<T>, keep: T -> bool): seq<nat>
    decreases |xs|
  {
    if |xs| == 0 then [] else ConsPositions(keep(xs[0]), Positions(xs[1..], keep))
  }

  lemma IncreasingCons(accepted: bool, idx: seq<nat>)
    requires StrictlyIncreasing(idx)
    ensures StrictlyIncreasing(ConsPositions(accepted, idx))
  {
  }

  lemma ReadsAtCons<T>(accepted: bool, idx: seq<nat>, r: seq<T>, xs: seq<T>)
    requires |xs| > 0 && ReadsAt(idx, r, xs[1..])
    ensures ReadsAt(ConsPositions(accepted, idx), (if accepted then [xs[0]] else []) + r, xs)
  {
  }

  lemma ListsAcceptedCons<T>(idx: seq<nat>, xs: seq<T>, keep: T -> bool)
    requires |xs| > 0 && ListsAccepted(idx, xs[1..], keep)
    ensures ListsAccepted(ConsPositions(keep(xs[0]), idx), xs, keep)
  {
    var idx' := ConsPositions(keep(xs[0]), idx);
    var n := if keep(xs[0]) then 1 else 0;
    forall j | 0 <= j < |xs|
      ensures keep(xs[j]) <==> j in idx'
    {
      if j > 0 {
        assert xs[j] == xs[1..][j - 1];
        if j - 1 in idx {
          var k :| 0 <= k < |idx| && idx[k] == j - 1;
          assert idx'[n + k] == j;
        }
        if j in idx' {
          var k :| 0 <= k < |idx'| && idx'[k] == j;
          assert idx[k - n] == j - 1;
        }
      }
    }
  }

  /** `Filter` picks its result at the positions `Positions` lists. */
  lemma {:induction false} FilterSelects<T>(xs: seq<T>, keep: T -> bool)
    ensures Selects(Positions(xs, keep), Filter(xs, keep), xs, keep)
    decreases |xs|
  {
    if |xs| > 0 {
      var idx := Positions(xs[1..], keep);
      FilterSelects(xs[1..], keep);
      IncreasingCons(keep(xs[0]), idx);
      ReadsAtCons(keep(xs[0]), idx, Filter(xs[1..], keep), xs);
      ListsAcceptedCons(idx, xs, keep);
    }
  }

  ghost predicate InRange(idx: seq<nat>, n: nat)
  {
    forall k :: 0 <= k < |idx| ==> idx[k] < n
  }

  /** `idx` lists, in increasing order, exactly the positions of `xs` that `keep` accepts. */
  ghost predicate Enumerates<T>(idx: seq<nat>, xs: seq<T>, keep: T -> bool)
  {
    StrictlyIncreasing(idx) && InRange(idx, |xs|) && ListsAccepted(idx, xs, keep)
  }

  lemma NothingInRangeOfEmpty(idx: seq<nat>, n: nat)
    requires InRange(idx, n)
    ensures n == 0 ==> |idx| == 0
  {
    if |idx| > 0 {
      assert idx[0] < n;
    }
  }

  /** In an enumeration for a non-empty `xs`, position 0 comes first exactly when `xs[0]` is accepted. */
  lemma EnumeratesHead<T>(idx: seq<nat>, xs: seq<T>, keep: T -> bool)
    requires |xs| > 0 && Enumerates(idx, xs, keep)
    ensures keep(xs[0]) ==> |idx| > 0 && idx[0] == 0
    ensures var n := if keep(xs[0]) then 1 else 0;
      n <= |idx| && forall k :: n <= k < |idx| ==> idx[k] >= 1
  {
    if keep(xs[0]) {
      assert 0 in idx;
      var k0 :| 0 <= k0 < |idx| && idx[k0] == 0;
      if k0 > 0 {
        assert idx[0] < idx[k0];
      }
    } else {
      forall k | 0 <= k < |idx|
        ensures idx[k] >= 1
      {
        assert idx[k] in idx;
      }
    }
  }

  /** Position `j + 1` is listed in `idx` exactly when `j` is listed after removing the first `n` and moving the rest left. */
  lemma UnshiftFrom(idx: seq<nat>, n: nat, j: nat)
    requires n <= |idx|
    requires forall k :: n <= k < |idx| ==> idx[k] >= 1
    requires forall k :: 0 <= k < n ==> idx[k] == 0
    requires j + 1 in idx
    ensures j in Unshift(idx[n..])
  {
    var tail := idx[n..];
    var k :| 0 <= k < |idx| && idx[k] == j + 1;
    assert tail[k - n] == j + 1;
    assert Unshift(tail)[k - n] == j;
  }

  lemma UnshiftTo(idx: seq<nat>, n: nat, j: nat)
    requires n <= |idx|
    requires forall k :: n <= k < |idx| ==> idx[k] >= 1
    requires j in Unshift(idx[n..])
    ensures j + 1 in idx
  {
    var tail := idx[n..];
    var k :| 0 <= k < |tail| && Unshift(tail)[k] == j;
    assert tail[k] == j + 1;
    assert idx[k + n] == j + 1;
  }

  lemma UnshiftMembership(idx: seq<nat>, n: nat, j: nat)
    requires n <= |idx|
    requires forall k :: n <= k < |idx| ==> idx[k] >= 1
    requires forall k :: 0 <= k < n ==> idx[k] == 0
    ensures j + 1 in idx <==> j in Unshift(idx[n..])
  {
    if j + 1 in idx {
      UnshiftFrom(idx, n, j);
    }
    if j in Unshift(idx[n..]) {
      UnshiftTo(idx, n, j);
    }
  }

  lemma ListsAcceptedUncons<T>(idx: seq<nat>, xs: seq<T>, keep: T -> bool, n: nat)
    requires |xs| > 0 && n <= |idx| && ListsAccepted(idx, xs, keep)
    requires forall k :: n <= k < |idx| ==> idx[k] >= 1
    requires forall k :: 0 <= k < n ==> idx[k] == 0
    ensures ListsAccepted(Unshift(idx[n..]), xs[1..], keep)
  {
    forall j | 0 <= j < |xs| - 1
      ensures keep(xs[1..][j]) <==> j in Unshift(idx[n..])
    {
      assert xs[1..][j] == xs[j + 1];
      UnshiftMembership(idx, n, j);
    }
  }

  lemma IncreasingUncons(idx: seq<nat>, n: nat, bound: nat)
    requires n <= |idx| && StrictlyIncreasing(idx) && InRange(idx, bound + 1)
    requires forall k :: n <= k < |idx| ==> idx[k] >= 1
    ensures StrictlyIncreasing(Unshift(idx[n..]))
    ensures InRange(Unshift(idx[n..]), bound)
  {
  }

  /** An enumeration for a non-empty `xs` is a decision on `xs[0]` followed by an enumeration for `xs[1..]`. */
  lemma EnumeratesTail<T>(idx: seq<nat>, xs: seq<T>, keep: T -> bool) returns (idx': seq<nat>)
    requires |xs| > 0 && Enumerates(idx, xs, keep)
    ensures idx == ConsPositions(keep(xs[0]), idx')
    ensures Enumerates(idx', xs[1..], keep)
  {
    EnumeratesHead(idx, xs, keep);
    var n := if keep(xs[0]) then 1 else 0;
    idx' := Unshift(idx[n..]);
    assert ListsAccepted(idx', xs[1..], keep) by {
      ListsAcceptedUncons(idx, xs, keep, n);
    }
    assert StrictlyIncreasing(idx') && InRange(idx', |xs| - 1) by {
      IncreasingUncons(idx, n, |xs| - 1);
    }
    assert Shift(idx') == idx[n..];
    if keep(xs[0]) {
      assert idx == [0] + idx[1..];
    }
  }

  /** There is only one enumeration of the accepted positions: the one `Positions` computes. */
  lemma {:induction false} EnumeratesUnique<T>(idx: seq<nat>, xs: seq<T>, keep: T -> bool)
    requires Enumerates(idx, xs, keep)
    ensures idx == Positions(xs, keep)
    decreases |xs|
  {
    if |xs| == 0 {
      NothingInRangeOfEmpty(idx, |xs|);
    } else {
      var idx' := EnumeratesTail(idx, xs, keep);
      EnumeratesUnique(idx', xs[1..], keep);
    }
  }

  /** Any ordered selection of exactly the accepted elements is the one `Filter` returns. */
  lemma SelectsUnique<T>(idx: seq<nat>, r: seq<T>, xs: seq<T>, keep: T -> bool)
    requires Selects(idx, r, xs, keep)
    ensures idx == Positions(xs, keep)
    ensures r == Filter(xs, keep)
  {
    assert Enumerates(idx, xs, keep);
    EnumeratesUnique(idx, xs, keep);
    FilterSelects(xs, keep);
  }

  /** `Filter(xs, keep)` is exactly the ordered selection of the elements `keep` accepts. */
  lemma FilterIsTheSelection<T>(xs: seq<T>, keep: T -> bool, r: seq<T>)
    ensures r == Filter(xs, keep) <==> exists idx :: Selects(idx, r, xs, keep)
  {
    FilterSelects(xs, keep);
    if idx :| Selects(idx, r, xs, keep) {
      SelectsUnique(idx, r, xs, keep);
    }
  }

  // ---------------------------------------------------------------------------
  // Consequences
  // ---------------------------------------------------------------------------

  /** An element is in the result iff it is in the input and accepted. */
  lemma {:induction false} FilterMembership<T>(xs: seq<T>, keep: T -> bool)
    ensures forall x :: x in Filter(xs, keep) <==> x in xs && keep(x)
    decreases |xs|
  {
    if |xs| > 0 {
      FilterMembership(xs[1..], keep);
      assert xs == [xs[0]] + xs[1..];
    }
  }

  /** A sequence whose every element is accepted passes through unchanged. */
  lemma {:induction false} FilterKeepsAll<T>(xs: seq<T>, keep: T -> bool)
    requires forall k :: 0 <= k < |xs| ==> keep(xs[k])
    ensures Filter(xs, keep) == xs
    decreases |xs|
  {
    if |xs| > 0 {
      FilterKeepsAll(xs[1..], keep);
    }
  }

  /** Filtering twice with the same predicate is filtering once. */
  lemma {:induction false} FilterIdempotent<T>(xs: seq<T>, keep: T -> bool)
    ensures Filter(Filter(xs, keep), keep) == Filter(xs, keep)
  {
    FilterKeepsAll(Filter(xs, keep), keep);
  }

  /** Filtering by a wider predicate first, then a narrower one, is filtering by the narrower one. */
  lemma {:induction false} FilterNarrow<T>(xs: seq<T>, wide: T -> bool, narrow: T -> bool)
    requires forall x :: narrow(x) ==> wide(x)
    ensures Filter(Filter(xs, wide), narrow) == Filter(xs, narrow)
    decreases |xs|
  {
    if |xs| > 0 {
      FilterNarrow(xs[1..], wide, narrow);
    }
  }

  /** Two predicates that decide alike on every element give the same result. */
  lemma {:induction false} FilterSameDecisions<T>(xs: seq<T>, keep: T -> bool, keep': T -> bool)
    requires forall k :: 0 <= k < |xs| ==> keep(xs[k]) == keep'(xs[k])
    ensures Filter(xs, keep) == Filter(xs, keep')
    decreases |xs|
  {
    if |xs| > 0 {
      FilterSameDecisions(xs[1..], keep, keep');
    }
  }
}
