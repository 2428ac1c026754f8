/**
 Why a traversal may stop early. Everything here is about the set of documents seen so far: a document left
 unseen is harmless when at least `k` seen documents dominate it, a fact that seeing more documents never
 undoes. The error ratio `e` is the slack a caller grants on top of exactness, and zero grants none.
 */
module Stopping {
  import opened Arithmetic
  import opened Ranking

  ghost function Dominators(scores: seq<real>, seen: set<nat>, e: real, d: nat): set<nat>
    requires InRange(scores, seen) && d < |scores|
  {
    set s | s in seen && scores[s] > 0.0 && scores[d] < scores[s] * (1.0 + e)
  }

  /** `k` seen documents beat `d` by more than the ratio forgives. */
  ghost predicate Losing(scores: seq<real>, k: nat, seen: set<nat>, e: real, d: nat)
    requires InRange(scores, seen) && d < |scores|
  {
    |Dominators(scores, seen, e, d)| >= k
  }

  /** Nothing more needs to be done for `d`. */
  ghost predicate Discharged(scores: seq<real>, k: nat, seen: set<nat>, e: real, d: nat)
    requires InRange(scores, seen) && d < |scores|
  {
    d in seen || Losing(scores, k, seen, e, d)
  }

  /** Every document is discharged or scores zero. */
  ghost predicate Complete(scores: seq<real>, k: nat, seen: set<nat>, e: real)
    requires InRange(scores, seen)
  {
    forall d: nat :: d < |scores| ==> Discharged(scores, k, seen, e, d) || scores[d] == 0.0
  }

  ghost function Positives(scores: seq<real>): set<nat> {
    set d | d in All(|scores|) && scores[d] > 0.0
  }

  /** At least `k` documents score above zero. */
  ghost predicate Enough(scores: seq<real>, k: nat) {
    |Positives(scores)| >= k
  }

  /** Dominators are positive, so nothing loses unless there are enough positive scores. */
  lemma LosersMeanEnough(scores: seq<real>, k: nat, seen: set<nat>, e: real, d: nat)
    requires InRange(scores, seen) && d < |scores| && Losing(scores, k, seen, e, d)
    ensures Enough(scores, k)
  {
    SubsetSize(Dominators(scores, seen, e, d), Positives(scores));
  }

  lemma SubsetSize(a: set<nat>, b: set<nat>)
    requires a <= b
    ensures |a| <= |b|
  {
    assert b == a + (b - a);
  }

  /** Offering more documents never revives one that was discharged. */
  lemma DischargedStays(scores: seq<real>, k: nat, seen: set<nat>, more: set<nat>, e: real, d: nat)
    requires InRange(scores, more) && seen <= more && d < |scores|
    requires Discharged(scores, k, seen, e, d)
    ensures Discharged(scores, k, more, e, d)
  {
    SubsetSize(Dominators(scores, seen, e, d), Dominators(scores, more, e, d));
  }

  /** `full` adds to `seen` the lowest unseen ids until `k` documents, or all, are there. */
  ghost predicate Padded(n: nat, k: nat, seen: set<nat>, full: set<nat>) {
    && seen <= full && (forall d :: d in full ==> d < n)
    && (|seen| >= k ==> full == seen)
    && (|seen| < k ==> |full| == if k <= n then k else n)
    && (forall p, d: nat :: p in full && p !in seen && d < p ==> d in full)
  }

  /** No document left out scores more than `1 + e` times the last one returned. */
  ghost predicate RatioBounded(scores: seq<real>, r: seq<nat>, e: real) {
    forall d: nat :: d < |scores| && d !in r ==>
      |r| > 0 && r[|r| - 1] < |scores| && scores[d] <= (1.0 + e) * scores[r[|r| - 1]]
  }

  lemma PadIsAll(scores: seq<real>, k: nat, seen: set<nat>, full: set<nat>, r: seq<nat>)
    requires InRange(scores, seen) && Padded(|scores|, k, seen, full) && |seen| < k
    requires IsBestOf(scores, full, k, r)
    ensures SetOf(r) == full
  {
    RankedSetSize(scores, r);
    SubsetSize(full, All(|scores|));
    SubsetOfSameSize(SetOf(r), full);
  }

  lemma ScaleMonotone(x: real, y: real, e: real)
    requires x <= y && e >= 0.0
    ensures x * (1.0 + e) <= y * (1.0 + e)
  {
  }

  /** Each returned document scores at least as much as one of the dominators of `d`. */
  lemma ReturnedBeatsLosing(scores: seq<real>, k: nat, seen: set<nat>, e: real, r: seq<nat>, d: nat, c: nat)
    requires InRange(scores, seen) && IsBestOf(scores, seen, k, r) && |seen| >= k
    requires d < |scores| && Losing(scores, k, seen, e, d) && c in r && e >= 0.0
    ensures scores[c] > 0.0 && scores[d] < scores[c] * (1.0 + e)
  {
    var doms := Dominators(scores, seen, e, d);
    RankedSetSize(scores, r);
    if doms <= SetOf(r) {
      SubsetOfSameSize(doms, SetOf(r));
      assert c in doms;
    } else {
      var s :| s in doms && s !in SetOf(r);
      assert Outranks(scores, c, s);
      ScaleMonotone(scores[s], scores[c], e);
    }
  }

  lemma NoLosersBelowK(scores: seq<real>, k: nat, seen: set<nat>, e: real, d: nat)
    requires InRange(scores, seen) && d < |scores| && |seen| < k
    ensures !Losing(scores, k, seen, e, d)
  {
    SubsetSize(Dominators(scores, seen, e, d), seen);
  }

  lemma RatioForgives(x: real, y: real, e: real)
    requires 0.0 <= x <= y && e >= 0.0
    ensures x <= (1.0 + e) * y
  {
    assert e * y >= 0.0;
  }

  lemma LeftOutIsWithinRatio(
      scores: seq<real>, k: nat, seen: set<nat>, full: set<nat>, e: real, r: seq<nat>, d: nat, last: nat)
    requires NonNegative(scores) && InRange(scores, seen) && k > 0 && e >= 0.0
    requires Padded(|scores|, k, seen, full) && IsBestOf(scores, full, k, r)
    requires d < |scores| && d !in r && last in r && (Discharged(scores, k, seen, e, d) || scores[d] == 0.0)
    ensures scores[d] <= (1.0 + e) * scores[last]
  {
    if |seen| < k {
      NoLosersBelowK(scores, k, seen, e, d);
      PadIsAll(scores, k, seen, full, r);
      RatioForgives(scores[d], scores[last], e);
    } else if d in seen {
      assert Outranks(scores, last, d);
      RatioForgives(scores[d], scores[last], e);
    } else if Losing(scores, k, seen, e, d) {
      ReturnedBeatsLosing(scores, k, seen, e, r, d, last);
    } else {
      RatioForgives(scores[d], scores[last], e);
    }
  }

  /** Theorem: a complete traversal leaves out no document above `1 + e` times the k-th returned score. */
  lemma CompleteIsRatioBounded(scores: seq<real>, k: nat, seen: set<nat>, full: set<nat>, e: real, r: seq<nat>)
    requires NonNegative(scores) && InRange(scores, seen) && k > 0 && e >= 0.0
    requires Complete(scores, k, seen, e) && Padded(|scores|, k, seen, full)
    requires IsBestOf(scores, full, k, r)
    ensures RatioBounded(scores, r, e)
  {
    PadSize(scores, k, seen, full);
    forall d: nat | d < |scores| && d !in r
      ensures |r| > 0 && scores[d] <= (1.0 + e) * scores[r[|r| - 1]]
    {
      assert r[|r| - 1] in r;
      LeftOutIsWithinRatio(scores, k, seen, full, e, r, d, r[|r| - 1]);
    }
  }

  lemma PadSize(scores: seq<real>, k: nat, seen: set<nat>, full: set<nat>)
    requires Padded(|scores|, k, seen, full)
    ensures (if k <= |full| then k else |full|) == (if k <= |scores| then k else |scores|)
  {
    SubsetSize(full, All(|scores|));
  }

  /** If `k` documents of a pool are positive, all that is returned from it is. */
  lemma ReturnedArePositive(scores: seq<real>, k: nat, pool: set<nat>, r: seq<nat>, c: nat)
    requires NonNegative(scores) && InRange(scores, pool) && IsBestOf(scores, pool, k, r) && c in r
    requires Enough(scores, k) && Positives(scores) <= pool
    ensures scores[c] > 0.0
  {
    if scores[c] == 0.0 {
      forall p | p in Positives(scores) ensures p in SetOf(r) - {c} {
        assert p !in r ==> Outranks(scores, c, p);
      }
      RankedSetSize(scores, r);
      SubsetSize(Positives(scores), SetOf(r) - {c});
    }
  }

  /** A complete traversal that returns a document scoring zero saw every document that scores above zero. */
  lemma ZeroReturnedMeansAllSeen(
      scores: seq<real>, k: nat, seen: set<nat>, full: set<nat>, r: seq<nat>, c: nat)
    requires NonNegative(scores) && InRange(scores, seen) && k > 0
    requires Complete(scores, k, seen, 0.0) && Padded(|scores|, k, seen, full) && IsBestOf(scores, full, k, r)
    requires c in r && scores[c] == 0.0
    ensures Positives(scores) <= seen
  {
    forall p | p in Positives(scores) ensures p in seen {
      if p !in seen {
        assert Losing(scores, k, seen, 0.0, p);
        if |seen| < k { NoLosersBelowK(scores, k, seen, 0.0, p); }
        ReturnedBeatsLosing(scores, k, seen, 0.0, r, p, c);
        assert false;
      }
    }
  }

  /** Theorem: with no error allowed and `k` positive scores, the answer is the reference list, zeros seen or not. */
  lemma CompleteIsExact(scores: seq<real>, k: nat, seen: set<nat>, full: set<nat>, r: seq<nat>)
    requires NonNegative(scores) && InRange(scores, seen) && k > 0 && Enough(scores, k)
    requires Complete(scores, k, seen, 0.0) && Padded(|scores|, k, seen, full)
    requires IsBestOf(scores, full, k, r)
    ensures r == TopK(scores, k)
  {
    PadSize(scores, k, seen, full);
    forall c | c in r ensures scores[c] > 0.0 {
      if scores[c] == 0.0 {
        ZeroReturnedMeansAllSeen(scores, k, seen, full, r, c);
        ReturnedArePositive(scores, k, full, r, c);
      }
    }
    forall d: nat, c: nat | d < |scores| && d !in full && c in r ensures Outranks(scores, c, d) {
      if scores[d] > 0.0 {
        if |seen| < k { NoLosersBelowK(scores, k, seen, 0.0, d); }
        ReturnedBeatsLosing(scores, k, seen, 0.0, r, d, c);
      }
    }
    BestOfPoolIsExact(scores, k, full, r);
  }

  /** The best of a pool large enough is the reference list when it outranks everything outside the pool. */
  lemma BestOfPoolIsExact(scores: seq<real>, k: nat, pool: set<nat>, r: seq<nat>)
    requires InRange(scores, pool) && IsBestOf(scores, pool, k, r)
    requires (if k <= |pool| then k else |pool|) == (if k <= |scores| then k else |scores|)
    requires forall d: nat, c: nat :: d < |scores| && d !in pool && c in r ==> Outranks(scores, c, d)
    ensures r == TopK(scores, k)
  {
    var all := All(|scores|);
    forall d, c | d in all && d !in r && c in r ensures Outranks(scores, c, d) {
    }
    TopKIsBest(scores, k);
    BestOfUnique(scores, all, k, r, TopK(scores, k));
  }

  // ----- nonnegative scores only: the returned scores are still the best ones -----

  /** If `a[..i+1]` all lie in `b`, one of them lies at or after position `i`. */
  lemma LateElement(scores: seq<real>, a: seq<nat>, b: seq<nat>, i: nat) returns (x: nat, q: nat)
    requires Ranked(scores, a) && Ranked(scores, b) && i < |a| && i < |b|
    requires forall x :: 0 <= x <= i ==> a[x] in b
    ensures x <= i <= q < |b| && b[q] == a[x]
  {
    var front, short := a[..i + 1], b[..i];
    RankedSetSize(scores, front);
    RankedSetSize(scores, short);
    if SetOf(front) <= SetOf(short) {
      SubsetSize(SetOf(front), SetOf(short));
      assert false;
    }
    var d :| d in SetOf(front) && d !in SetOf(short);
    x :| 0 <= x <= i && a[x] == d;
    q :| 0 <= q < |b| && b[q] == d;
    assert forall y :: 0 <= y < i ==> short[y] in SetOf(short);
  }

  lemma PrefixFits(scores: seq<real>, a: seq<nat>, b: seq<nat>, i: nat)
    requires Ranked(scores, a) && Ranked(scores, b) && i < |a| && i < |b|
    requires forall x :: 0 <= x <= i ==> a[x] in b
    ensures scores[a[i]] <= scores[b[i]]
  {
    var x, q := LateElement(scores, a, b, i);
    assert x < i ==> Outranks(scores, a[x], a[i]);
    assert i < q ==> Outranks(scores, b[i], b[q]);
  }

  /**
   Theorem: on nonnegative scores alone, where a seen document may score zero, an exact traversal returns
   position by position the scores of the reference list.
   */
  lemma CompleteHasBestScores(scores: seq<real>, k: nat, full: set<nat>, r: seq<nat>, i: nat)
    requires InRange(scores, full) && IsBestOf(scores, full, k, r) && k > 0
    requires |r| == |TopK(scores, k)| && i < |r|
    requires RatioBounded(scores, r, 0.0)
    ensures scores[r[i]] == scores[TopK(scores, k)[i]]
  {
    var t := TopK(scores, k);
    TopKIsBest(scores, k);
    BestIsRatioBounded(scores, k, t);
    BestScoresFit(scores, t, r, i);
    BestScoresFit(scores, r, t, i);
  }

  lemma BestScoresFit(scores: seq<real>, a: seq<nat>, b: seq<nat>, i: nat)
    requires Ranked(scores, a) && Ranked(scores, b) && |a| == |b| && i < |a|
    requires RatioBounded(scores, b, 0.0)
    ensures scores[a[i]] <= scores[b[i]]
  {
    if scores[a[i]] > scores[b[i]] {
      forall x | 0 <= x <= i ensures a[x] in b {
        assert x < i ==> Outranks(scores, a[x], a[i]);
        assert i < |b| - 1 ==> Outranks(scores, b[i], b[|b| - 1]);
      }
      PrefixFits(scores, a, b, i);
    }
  }

  lemma BestIsRatioBounded(scores: seq<real>, k: nat, r: seq<nat>)
    requires IsBestOf(scores, All(|scores|), k, r) && k > 0
    ensures RatioBounded(scores, r, 0.0)
  {
    var all := All(|scores|);
    forall d: nat | d < |scores| && d !in r
      ensures |r| > 0 && scores[d] <= scores[r[|r| - 1]]
    {
      assert d in all;
      assert |all| > 0;
      var last := r[|r| - 1];
      assert last in r;
      assert Outranks(scores, last, d);
    }
  }
}
