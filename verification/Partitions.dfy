/**
 Top-k by `argpartition`. It promises only that nothing left out scores more than anything chosen, so ties across the
 cut may fall either way; the chosen offsets are then put in ranking order.
 */
module Partitions {
  import opened Arithmetic
  import opened Heapq
  import opened Ranking
  import opened Stopping

  /** What `argpartition` promises of its first `count` offsets. */
  ghost predicate IsPartition(scores: seq<real>, count: nat, part: seq<nat>) {
    && Distinct(part) && |part| == count
    && (forall i :: 0 <= i < |part| ==> part[i] < |scores|)
    && forall d: nat, i :: d < |scores| && d !in part && 0 <= i < |part| ==> scores[d] <= scores[part[i]]
  }

  /** The chosen offsets in ranking order. */
  function TopkOffsets(scores: seq<real>, k: nat, part: seq<nat>): (r: seq<nat>)
    requires IsPartition(scores, Min(k, |scores|), part)
    ensures Ranked(scores, r) && |r| == Min(k, |scores|)
    ensures forall d: nat :: d in r <==> d in part
    ensures forall d: nat, c: nat :: d < |scores| && d !in r && c in r ==> scores[d] <= scores[c]
  {
    var r := RankOrder(scores, part);
    assert forall c: nat :: c in r ==> exists i :: 0 <= i < |part| && part[i] == c;
    r
  }

  lemma OffsetsBounded(scores: seq<real>, k: nat, part: seq<nat>)
    requires IsPartition(scores, Min(k, |scores|), part) && k > 0
    ensures RatioBounded(scores, TopkOffsets(scores, k, part), 0.0)
  {
    var r := TopkOffsets(scores, k, part);
    forall d: nat | d < |scores| && d !in r ensures |r| > 0 && scores[d] <= scores[r[|r| - 1]] {
      assert r[|r| - 1] in r;
    }
  }

  /** Theorem: however ties fall, the offsets carry the reference scores, position by position. */
  lemma OffsetsHaveBestScores(scores: seq<real>, k: nat, part: seq<nat>, i: nat)
    requires IsPartition(scores, Min(k, |scores|), part) && k > 0 && i < |TopkOffsets(scores, k, part)|
    ensures |TopK(scores, k)| == |TopkOffsets(scores, k, part)|
    ensures scores[TopkOffsets(scores, k, part)[i]] == scores[TopK(scores, k)[i]]
  {
    var r, t := TopkOffsets(scores, k, part), TopK(scores, k);
    TopKIsBest(scores, k);
    OffsetsBounded(scores, k, part);
    BestIsRatioBounded(scores, k, t);
    BestScoresFit(scores, t, r, i);
    BestScoresFit(scores, r, t, i);
  }

  // ----- when the choice is forced -----

  /** Every document of the reference list scores strictly more than every document left out of it. */
  ghost predicate ClearCut(scores: seq<real>, k: nat) {
    forall c: nat, d: nat :: c in TopK(scores, k) && d < |scores| && d !in TopK(scores, k) ==>
      c < |scores| && scores[c] > scores[d]
  }

  /** Whatever `argpartition` chooses, the offsets are the reference list. */
  ghost predicate ChoiceIsForced(scores: seq<real>, k: nat) {
    forall part :: IsPartition(scores, Min(k, |scores|), part) ==> TopkOffsets(scores, k, part) == TopK(scores, k)
  }

  /** With a clear cut a list that no document left out beats holds the reference documents only. */
  lemma ClearCutChoice(scores: seq<real>, k: nat, r: seq<nat>, t: seq<nat>)
    requires Ranked(scores, r) && Ranked(scores, t) && |r| == |t|
    requires forall d: nat, c: nat :: d < |scores| && d !in r && c in r ==> scores[d] <= scores[c]
    requires forall c: nat, d: nat :: c in t && d < |scores| && d !in t ==> c < |scores| && scores[c] > scores[d]
    ensures r == t
  {
    RankedSetSize(scores, r);
    RankedSetSize(scores, t);
    if SetOf(t) <= SetOf(r) {
      SubsetOfSameSize(SetOf(t), SetOf(r));
    } else {
      var lost :| lost in SetOf(t) && lost !in SetOf(r);
      forall c | c in SetOf(r) ensures c in SetOf(t) {
        assert scores[lost] <= scores[c];
      }
      SubsetOfSameSize(SetOf(r), SetOf(t));
    }
    RankedUnique(scores, r, t);
  }

  /** The reference list with its last document replaced by one that ties with it. */
  function Swapped(t: seq<nat>, d: nat): seq<nat>
    requires t != []
  {
    t[..|t| - 1] + [d]
  }

  lemma SwappedMembers(scores: seq<real>, t: seq<nat>, d: nat)
    requires Ranked(scores, t) && t != [] && d !in t
    ensures Distinct(Swapped(t, d)) && t[|t| - 1] !in Swapped(t, d)
    ensures forall x: nat :: x in t && x !in Swapped(t, d) ==> x == t[|t| - 1]
  {
    var part, n := Swapped(t, d), |t| - 1;
    forall i, j | 0 <= i < j < |t| ensures t[i] != t[j] {
      assert Outranks(scores, t[i], t[j]);
    }
    forall i, j | 0 <= i < j < |part| ensures part[i] != part[j] {
      assert part[i] == t[i] && t[i] in t;
    }
    forall x: nat | x in t && x != t[n] ensures x in part {
      var m :| 0 <= m < |t| && t[m] == x;
      assert part[m] == x;
    }
  }

  /** No document left out of the reference list beats its last, and its last is its worst. */
  lemma LastIsTheLine(scores: seq<real>, k: nat, t: seq<nat>)
    requires IsBestOf(scores, All(|scores|), k, t) && t != []
    ensures forall x: nat :: x < |scores| && x !in t ==> scores[x] <= scores[t[|t| - 1]]
    ensures forall c: nat :: c in t ==> c < |scores| && scores[t[|t| - 1]] <= scores[c]
  {
    var n := |t| - 1;
    assert t[n] in t;
    forall x: nat | x < |scores| && x !in t ensures scores[x] <= scores[t[n]] {
      assert x in All(|scores|);
      assert Outranks(scores, t[n], x);
    }
    forall c: nat | c in t ensures scores[t[n]] <= scores[c] {
      var i :| 0 <= i < |t| && t[i] == c;
      assert i < n ==> Outranks(scores, t[i], t[n]);
    }
  }

  lemma SwappedIsPartition(scores: seq<real>, k: nat, t: seq<nat>, d: nat)
    requires IsBestOf(scores, All(|scores|), k, t) && t != [] && d < |scores| && d !in t
    requires scores[d] == scores[t[|t| - 1]]
    ensures IsPartition(scores, Min(k, |scores|), Swapped(t, d)) && t[|t| - 1] !in Swapped(t, d)
  {
    var part, n := Swapped(t, d), |t| - 1;
    SwappedMembers(scores, t, d);
    LastIsTheLine(scores, k, t);
    forall i | 0 <= i < |part| ensures part[i] < |scores| && scores[t[n]] <= scores[part[i]] {
      if i < n { assert t[i] in t; }
    }
    forall x: nat | x < |scores| && x !in part ensures scores[x] <= scores[t[n]] {
    }
  }

  lemma TieIsAtTheLast(scores: seq<real>, k: nat, t: seq<nat>, c: nat, d: nat)
    requires IsBestOf(scores, All(|scores|), k, t) && c in t && d < |scores| && d !in t && scores[c] <= scores[d]
    ensures t != [] && scores[d] == scores[t[|t| - 1]]
  {
    LastIsTheLine(scores, k, t);
  }

  /** Theorem: the offsets are the reference list whatever is chosen if and only if the cut is clear. */
  lemma ForcedByClearCut(scores: seq<real>, k: nat)
    ensures ChoiceIsForced(scores, k) <==> ClearCut(scores, k)
  {
    var t := TopK(scores, k);
    TopKIsBest(scores, k);
    if ClearCut(scores, k) {
      forall part | IsPartition(scores, Min(k, |scores|), part) ensures TopkOffsets(scores, k, part) == t {
        ClearCutChoice(scores, k, TopkOffsets(scores, k, part), t);
      }
    } else {
      var c: nat, d: nat :| c in t && d < |scores| && d !in t && !(c < |scores| && scores[c] > scores[d]);
      TieIsAtTheLast(scores, k, t, c, d);
      SwappedIsPartition(scores, k, t, d);
      var part := Swapped(t, d);
      assert t[|t| - 1] in t && t[|t| - 1] !in part;
      assert TopkOffsets(scores, k, part) != t;
    }
  }

  /** The failing input: of two equal scores the partition may choose the second. */
  lemma TiedScoresCounterexample()
    ensures IsPartition([1.0, 1.0], 1, [1]) && IsPartition([1.0, 1.0], 1, [0])
    ensures TopkOffsets([1.0, 1.0], 1, [1]) == [1] && TopK([1.0, 1.0], 1) == [0]
  {
    var scores := [1.0, 1.0];
    var r, t := TopkOffsets(scores, 1, [1]), TopK(scores, 1);
    assert r[0] in r;
    TopKIsBest(scores, 1);
    assert t[0] in t;
    assert 0 in All(2);
    assert !Outranks(scores, 1, 0);
  }
}
