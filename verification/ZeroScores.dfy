/**
 What zero scores do to exactness. Padding takes the lowest unseen ids, so a seen document that scores zero can
 stand where the reference list has a lower id. The list that padding and ranking make of a set of candidates is
 `UnionAnswer`; every traversal with no error allowed returns it, and `VisibleGap` says exactly when it is not the
 reference list.
 */
module ZeroScores {
  import opened Arithmetic
  import opened Ranking
  import opened Stopping

  // ----- padding is determined by what was seen -----

  /** The ids below `d` that are not in `seen`. */
  ghost function FreeBelow(seen: set<nat>, d: nat): set<nat> {
    set x | x in All(d) && x !in seen
  }

  /** `seen` with the lowest free ids added until it has `k` members, or all `n`. */
  ghost function PaddedSet(n: nat, k: nat, seen: set<nat>): set<nat> {
    seen + set d | d in All(n) && d !in seen && |seen| + |FreeBelow(seen, d)| < k
  }

  lemma TakenIsLow(n: nat, k: nat, seen: set<nat>, full: set<nat>, d: nat)
    requires Padded(n, k, seen, full) && d < n && d !in seen && d in full
    ensures |seen| + |FreeBelow(seen, d)| < k
  {
    SubsetSize(seen + FreeBelow(seen, d) + {d}, full);
    assert |seen + FreeBelow(seen, d) + {d}| == |seen| + |FreeBelow(seen, d)| + 1;
  }

  lemma LeftIsHigh(n: nat, k: nat, seen: set<nat>, full: set<nat>, d: nat)
    requires Padded(n, k, seen, full) && d < n && d !in full
    ensures |seen| + |FreeBelow(seen, d)| >= k
  {
    if |seen| < k {
      forall p | p in full ensures p in seen + FreeBelow(seen, d) {
      }
      SubsetSize(full, seen + FreeBelow(seen, d));
      assert |seen + FreeBelow(seen, d)| == |seen| + |FreeBelow(seen, d)|;
      SubsetSize(full, All(n) - {d});
    }
  }

  /** Whatever way it was reached, padding a set gives this one. */
  lemma PaddedIs(n: nat, k: nat, seen: set<nat>, full: set<nat>)
    requires Padded(n, k, seen, full)
    ensures full == PaddedSet(n, k, seen)
  {
    forall d: nat | d < n ensures d in full <==> d in PaddedSet(n, k, seen) {
      if d !in seen {
        if d in full { TakenIsLow(n, k, seen, full, d); } else { LeftIsHigh(n, k, seen, full, d); }
      }
    }
  }

  /** Taking the lowest free id again and again pads. */
  lemma PaddingExists(n: nat, k: nat, seen: set<nat>) returns (full: set<nat>)
    requires forall d :: d in seen ==> d < n
    ensures Padded(n, k, seen, full)
    decreases n - |seen|
  {
    SubsetSize(seen, All(n));
    if |seen| >= k || seen == All(n) {
      full := seen;
    } else {
      var low := LowestFree(n, seen);
      SubsetSize(seen + {low}, All(n));
      full := PaddingExists(n, k, seen + {low});
    }
  }

  lemma LowestFree(n: nat, seen: set<nat>) returns (low: nat)
    requires (forall d :: d in seen ==> d < n) && seen != All(n)
    ensures low < n && low !in seen && forall d: nat :: d < low ==> d in seen
  {
    var free: nat :| free < n && free !in seen;
    low := 0;
    while low in seen
      invariant low <= free && forall d: nat :: d < low ==> d in seen
      decreases free - low
    {
      low := low + 1;
    }
  }

  lemma PaddedSetIsPadded(n: nat, k: nat, seen: set<nat>)
    requires forall d :: d in seen ==> d < n
    ensures Padded(n, k, seen, PaddedSet(n, k, seen))
  {
    var full := PaddingExists(n, k, seen);
    PaddedIs(n, k, seen, full);
  }

  // ----- the answer over a set of candidates -----

  function Enumerate(pool: set<nat>, n: nat): (r: seq<nat>)
    ensures (forall i, j :: 0 <= i < j < |r| ==> r[i] != r[j])
    ensures forall d: nat :: d in r <==> d < n && d in pool
    ensures forall i :: 0 <= i < |r| ==> r[i] < n
  {
    if n == 0 then []
    else if n - 1 in pool then Enumerate(pool, n - 1) + [n - 1]
    else Enumerate(pool, n - 1)
  }

  function BestOfPool(scores: seq<real>, pool: set<nat>, k: nat): (r: seq<nat>)
    requires InRange(scores, pool)
    ensures IsBestOf(scores, pool, k, r)
  {
    var all := RankOrder(scores, Enumerate(pool, |scores|));
    PrefixIsBest(scores, pool, all, k);
    if k <= |all| then all[..k] else all
  }

  /** Score exactly the candidates, pad, and rank. */
  ghost function UnionAnswer(scores: seq<real>, k: nat, candidates: set<nat>): (r: seq<nat>)
    requires InRange(scores, candidates)
  {
    BestOfPool(scores, PaddedSet(|scores|, k, candidates), k)
  }

  /**
   Theorem: with no error allowed, a traversal that saw nothing but candidates and discharged all of them returns
   the list of the union, however early it stopped.
   */
  lemma SameAsUnion(scores: seq<real>, k: nat, candidates: set<nat>, seen: set<nat>, full: set<nat>, r: seq<nat>)
    requires NonNegative(scores) && InRange(scores, candidates) && k > 0 && seen <= candidates
    requires forall d: nat :: d < |scores| && d !in candidates ==> scores[d] == 0.0
    requires forall d :: d in candidates ==> Discharged(scores, k, seen, 0.0, d)
    requires Padded(|scores|, k, seen, full) && IsBestOf(scores, full, k, r)
    ensures r == UnionAnswer(scores, k, candidates)
  {
    PaddedSetIsPadded(|scores|, k, candidates);
    var union := PaddedSet(|scores|, k, candidates);
    if Enough(scores, k) {
      assert Complete(scores, k, candidates, 0.0);
      CompleteIsExact(scores, k, seen, full, r);
      CompleteIsExact(scores, k, candidates, union, UnionAnswer(scores, k, candidates));
    } else {
      forall d | d in candidates ensures d in seen {
        if Losing(scores, k, seen, 0.0, d) { LosersMeanEnough(scores, k, seen, 0.0, d); }
      }
      assert seen == candidates;
      PaddedIs(|scores|, k, seen, full);
      BestOfUnique(scores, union, k, r, UnionAnswer(scores, k, candidates));
    }
  }

  // ----- exactly when the union is the reference -----

  ghost function ZerosBelow(scores: seq<real>, candidates: set<nat>, c: nat): set<nat>
    requires InRange(scores, candidates)
  {
    set x | x in candidates && scores[x] == 0.0 && x < c
  }

  /**
   A candidate `c` that scores zero is good enough to be returned, while the lower `d`, which scores zero too, is
   neither a candidate nor low enough for the padding to reach it.
   */
  ghost predicate GapAt(scores: seq<real>, k: nat, candidates: set<nat>, c: nat, d: nat)
    requires InRange(scores, candidates)
  {
    && c in candidates && d !in candidates && d < c && scores[c] == 0.0 && scores[d] == 0.0
    && |Positives(scores)| + |ZerosBelow(scores, candidates, c)| < k <= |candidates| + |FreeBelow(candidates, d)|
  }

  ghost predicate VisibleGap(scores: seq<real>, k: nat, candidates: set<nat>)
    requires InRange(scores, candidates)
  {
    exists c, d :: GapAt(scores, k, candidates, c, d)
  }

  /** What outranks a returned document of the pool is returned with it. */
  lemma BettersAreReturned(scores: seq<real>, k: nat, pool: set<nat>, r: seq<nat>, better: set<nat>, c: nat)
    requires InRange(scores, pool) && IsBestOf(scores, pool, k, r) && c in r
    requires better <= pool && c !in better && forall b :: b in better ==> Outranks(scores, b, c)
    ensures |better| < k
  {
    forall b | b in better ensures b in r {
      assert b !in r ==> Outranks(scores, c, b);
    }
    RankedSetSize(scores, r);
    SubsetSize(better + {c}, SetOf(r));
  }

  /** A document of the pool with fewer than `k` betters is returned. */
  lemma FewBettersIsReturned(scores: seq<real>, k: nat, pool: set<nat>, r: seq<nat>, better: set<nat>, c: nat)
    requires InRange(scores, pool) && IsBestOf(scores, pool, k, r) && c in pool && |better| < k
    requires forall b :: b in pool && b != c && Outranks(scores, b, c) ==> b in better
    ensures c in r
  {
    if c !in r {
      RankedSetSize(scores, r);
      SubsetSize(SetOf(r), better);
      SubsetSize(SetOf(r) + {c}, pool);
    }
  }

  ghost function Betters(scores: seq<real>, candidates: set<nat>, c: nat): set<nat>
    requires InRange(scores, candidates)
  {
    Positives(scores) + ZerosBelow(scores, candidates, c)
  }

  lemma BettersSize(scores: seq<real>, candidates: set<nat>, c: nat)
    requires InRange(scores, candidates)
    ensures |Betters(scores, candidates, c)| == |Positives(scores)| + |ZerosBelow(scores, candidates, c)|
  {
    assert Positives(scores) !! ZerosBelow(scores, candidates, c);
  }

  lemma SetOfWholePool(scores: seq<real>, pool: set<nat>, k: nat, r: seq<nat>)
    requires InRange(scores, pool) && IsBestOf(scores, pool, k, r) && |pool| <= k
    ensures forall d :: d in pool ==> d in r
  {
    RankedSetSize(scores, r);
    SubsetOfSameSize(SetOf(r), pool);
  }

  /**
   In a pool that is the candidates alone, only a positive score or a lower zero beats a candidate that scores
   zero.
   */
  lemma GapIsReturned(scores: seq<real>, k: nat, candidates: set<nat>, r: seq<nat>, c: nat)
    requires NonNegative(scores) && InRange(scores, candidates) && IsBestOf(scores, candidates, k, r)
    requires c in candidates && scores[c] == 0.0
    requires |Positives(scores)| + |ZerosBelow(scores, candidates, c)| < k
    ensures c in r
  {
    BettersSize(scores, candidates, c);
    FewBettersIsReturned(scores, k, candidates, r, Betters(scores, candidates, c), c);
  }

  lemma GapIsPadded(n: nat, k: nat, candidates: set<nat>, pool: set<nat>, d: nat)
    requires Padded(n, k, candidates, pool) && d < n && d !in candidates
    requires k <= |candidates| + |FreeBelow(candidates, d)|
    ensures d !in pool && (|candidates| >= k ==> pool == candidates) && (|candidates| < k ==> |pool| <= k)
  {
    if d in pool { TakenIsLow(n, k, candidates, pool, d); }
  }

  /** At a gap the union returns `c` and leaves `d` out, which the reference list never does. */
  lemma GapIsVisible(scores: seq<real>, k: nat, candidates: set<nat>, pool: set<nat>, r: seq<nat>, c: nat, d: nat)
    requires NonNegative(scores) && InRange(scores, candidates)
    requires Padded(|scores|, k, candidates, pool) && IsBestOf(scores, pool, k, r)
    requires GapAt(scores, k, candidates, c, d)
    ensures c in r && d !in r && r != TopK(scores, k)
  {
    GapIsPadded(|scores|, k, candidates, pool, d);
    if |candidates| >= k {
      GapIsReturned(scores, k, candidates, r, c);
    } else {
      SetOfWholePool(scores, pool, k, r);
    }
    NotTheReference(scores, k, r, c, d);
  }

  lemma NotTheReference(scores: seq<real>, k: nat, r: seq<nat>, c: nat, d: nat)
    requires c in r && d !in r && d < c < |scores| && scores[c] == scores[d]
    ensures r != TopK(scores, k)
  {
    TopKIsBest(scores, k);
    assert d in All(|scores|);
    assert !Outranks(scores, c, d);
  }

  /** Without a gap what is returned outranks what was left out of the pool. */
  lemma ReturnedOutranksLeftOut(
      scores: seq<real>, k: nat, candidates: set<nat>, pool: set<nat>, r: seq<nat>, c: nat, d: nat)
    requires NonNegative(scores) && InRange(scores, candidates) && !GapAt(scores, k, candidates, c, d)
    requires forall x: nat :: x < |scores| && x !in candidates ==> scores[x] == 0.0
    requires Padded(|scores|, k, candidates, pool) && IsBestOf(scores, pool, k, r)
    requires c in r && d < |scores| && d !in pool
    ensures Outranks(scores, c, d)
  {
    LeftIsHigh(|scores|, k, candidates, pool, d);
    if scores[c] == 0.0 {
      ReturnedHasFewBetters(scores, k, candidates, pool, r, c);
    }
  }

  lemma ReturnedHasFewBetters(scores: seq<real>, k: nat, candidates: set<nat>, pool: set<nat>, r: seq<nat>, c: nat)
    requires NonNegative(scores) && InRange(scores, candidates) && candidates <= pool
    requires forall x: nat :: x < |scores| && x !in candidates ==> scores[x] == 0.0
    requires InRange(scores, pool) && IsBestOf(scores, pool, k, r) && c in r && scores[c] == 0.0
    ensures |Positives(scores)| + |ZerosBelow(scores, candidates, c)| < k
  {
    BettersSize(scores, candidates, c);
    BettersAreReturned(scores, k, pool, r, Betters(scores, candidates, c), c);
  }

  /** Theorem: for each answer size, the union is the reference list if and only if there is no visible gap. */
  lemma ExactWithoutGap(scores: seq<real>, k: nat, candidates: set<nat>)
    requires NonNegative(scores) && InRange(scores, candidates)
    requires forall d: nat :: d < |scores| && d !in candidates ==> scores[d] == 0.0
    ensures UnionAnswer(scores, k, candidates) == TopK(scores, k) <==> !VisibleGap(scores, k, candidates)
  {
    var pool, r := PaddedSet(|scores|, k, candidates), UnionAnswer(scores, k, candidates);
    PaddedSetIsPadded(|scores|, k, candidates);
    if VisibleGap(scores, k, candidates) {
      var c, d :| GapAt(scores, k, candidates, c, d);
      GapIsVisible(scores, k, candidates, pool, r, c, d);
    } else {
      PadSize(scores, k, candidates, pool);
      forall d: nat, c: nat | d < |scores| && d !in pool && c in r ensures Outranks(scores, c, d) {
        ReturnedOutranksLeftOut(scores, k, candidates, pool, r, c, d);
      }
      BestOfPoolIsExact(scores, k, pool, r);
    }
  }

  /**
   There is no gap when `k` documents score above zero, none when every candidate does, and none when no lower
   document that scores zero is missing from the candidates.
   */
  lemma HasNoGap(scores: seq<real>, k: nat, candidates: set<nat>)
    requires InRange(scores, candidates)
    ensures Enough(scores, k) ==> !VisibleGap(scores, k, candidates)
    ensures (forall d :: d in candidates ==> scores[d] > 0.0) ==> !VisibleGap(scores, k, candidates)
    ensures
      (forall c, d: nat :: c in candidates && d < c && scores[c] == 0.0 && scores[d] == 0.0 ==> d in candidates) ==>
      !VisibleGap(scores, k, candidates)
  {
  }
}
