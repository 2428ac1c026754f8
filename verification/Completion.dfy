/**
 Finding the top documents by candidates: cut a cheap score at some depth, score the candidates exactly, and keep the
 best of them. Nothing promises that this is exact; what is proved here is when it must be.
 */
module Completion {
  import opened Arithmetic
  import opened Heapq
  import opened Ranking
  import opened Stopping
  import opened Partitions

  /** `xs[ids]`. */
  function Gather<T>(xs: seq<T>, ids: seq<nat>): (r: seq<T>)
    requires forall i :: 0 <= i < |ids| ==> ids[i] < |xs|
    ensures |r| == |ids| && forall i :: 0 <= i < |ids| ==> r[i] == xs[ids[i]]
  {
    seq(|ids|, i requires 0 <= i < |ids| => xs[ids[i]])
  }

  /** Some choice of `count` offsets that `argpartition` may make; callers learn no more than that. */
  method Argpartition(scores: seq<real>, count: nat) returns (part: seq<nat>)
    requires count <= |scores|
    ensures IsPartition(scores, count, part)
  {
    part := TopK(scores, count);
    TopKIsBest(scores, count);
    RankedIsDistinct(scores, part);
    forall d: nat, i | d < |scores| && d !in part && 0 <= i < |part| ensures scores[d] <= scores[part[i]] {
      LastIsTheLine(scores, count, part);
      assert part[i] in part;
    }
  }

  lemma RankedIsDistinct(scores: seq<real>, r: seq<nat>)
    requires Ranked(scores, r)
    ensures Distinct(r)
  {
    forall i, j | 0 <= i < j < |r| ensures r[i] != r[j] {
      assert Outranks(scores, r[i], r[j]);
    }
  }

  method TopkOf(scores: seq<real>, k: nat) returns (r: seq<nat>)
    ensures IsCut(scores, k, r) && Ranked(scores, r)
  {
    var part := Argpartition(scores, Min(k, |scores|));
    r := TopkOffsets(scores, k, part);
    RankedIsDistinct(scores, r);
    forall i, j | 0 <= i < j < |r| ensures scores[r[i]] >= scores[r[j]] {
      assert Outranks(scores, r[i], r[j]);
    }
  }

  // ----- what a cut promises -----

  /** `r` holds `min(k, n)` documents by descending score, and none left out scores more than one of them. */
  ghost predicate IsCut(scores: seq<real>, k: nat, r: seq<nat>) {
    && Distinct(r) && |r| == Min(k, |scores|) && (forall i :: 0 <= i < |r| ==> r[i] < |scores|)
    && (forall i, j :: 0 <= i < j < |r| ==> scores[r[i]] >= scores[r[j]])
    && (forall d: nat, c: nat :: d < |scores| && d !in r && c in r ==> c < |scores| && scores[d] <= scores[c])
  }

  /** The same among the candidates alone. */
  ghost predicate IsCompletion(scores: seq<real>, candidates: seq<nat>, k: nat, r: seq<nat>) {
    && Distinct(r) && |r| == Min(k, |candidates|) && (forall i :: 0 <= i < |r| ==> r[i] < |scores|)
    && (forall d: nat :: d in r ==> d in candidates)
    && (forall i, j :: 0 <= i < j < |r| ==> scores[r[i]] >= scores[r[j]])
    && (forall d: nat, c: nat :: d in candidates && d !in r && c in r ==>
          d < |scores| && c < |scores| && scores[d] <= scores[c])
  }

  /** Of two lists of the same documents, the descending one scores at least as much at every position. */
  lemma DescendingFits(scores: seq<real>, a: seq<nat>, b: seq<nat>, i: nat)
    requires Distinct(a) && Distinct(b) && |a| == |b| && i < |a|
    requires forall d: nat :: d in a <==> d in b
    requires (forall x :: 0 <= x < |a| ==> a[x] < |scores|) && forall x :: 0 <= x < |b| ==> b[x] < |scores|
    requires forall x, y :: 0 <= x < y < |a| ==> scores[a[x]] >= scores[a[y]]
    requires forall x, y :: 0 <= x < y < |b| ==> scores[b[x]] >= scores[b[y]]
    ensures scores[a[i]] >= scores[b[i]]
  {
    if scores[a[i]] < scores[b[i]] {
      var front, ahead := b[..i + 1], a[..i];
      forall d | d in SetOf(front) ensures d in SetOf(ahead) {
        var x :| 0 <= x <= i && front[x] == d;
        assert b[x] in b;
        var y :| 0 <= y < |a| && a[y] == d;
        assert y < i;
        assert ahead[y] == d;
      }
      DistinctSize(front);
      DistinctSize(ahead);
      SubsetSize(SetOf(front), SetOf(ahead));
    }
  }

  /** Every cut scores as the reference list does, position by position. */
  lemma CutHasBestScores(scores: seq<real>, k: nat, r: seq<nat>)
    requires IsCut(scores, k, r) && k > 0
    ensures SameScores(scores, r, TopK(scores, k))
  {
    var t := TopkOffsets(scores, k, r);
    TopKIsBest(scores, k);
    RankedIsDistinct(scores, t);
    forall i, j | 0 <= i < j < |t| ensures scores[t[i]] >= scores[t[j]] {
      assert Outranks(scores, t[i], t[j]);
    }
    forall i | 0 <= i < |r| ensures scores[r[i]] == scores[TopK(scores, k)[i]] {
      OffsetsHaveBestScores(scores, k, r, i);
      DescendingFits(scores, r, t, i);
      DescendingFits(scores, t, r, i);
    }
  }

  // ----- completing candidates -----

  lemma GatherDistinct(xs: seq<nat>, ids: seq<nat>)
    requires Distinct(xs) && Distinct(ids) && forall i :: 0 <= i < |ids| ==> ids[i] < |xs|
    ensures Distinct(Gather(xs, ids))
  {
    var s := Gather(xs, ids);
    forall i, j | 0 <= i < j < |s| ensures s[i] != s[j] {
      assert ids[i] != ids[j];
    }
  }

  lemma Gathers(xs: seq<nat>, ids: seq<nat>, i: nat)
    requires (forall j :: 0 <= j < |ids| ==> ids[j] < |xs|) && i < |xs|
    ensures i in ids ==> xs[i] in Gather(xs, ids)
  {
    if i in ids {
      var j :| 0 <= j < |ids| && ids[j] == i;
      assert Gather(xs, ids)[j] == xs[i];
    }
  }

  /** Scores the candidates exactly and keeps the best `k`. */
  method CompleteCandidates(scores: seq<real>, candidates: seq<nat>, k: nat) returns (r: seq<nat>)
    requires Distinct(candidates) && forall i :: 0 <= i < |candidates| ==> candidates[i] < |scores|
    ensures IsCompletion(scores, candidates, k, r)
  {
    var local := TopkOf(Gather(scores, candidates), k);
    r := Gather(candidates, local);
    LocalIsCompletion(scores, candidates, k, local);
  }

  lemma LocalIsCompletion(scores: seq<real>, candidates: seq<nat>, k: nat, local: seq<nat>)
    requires Distinct(candidates) && forall i :: 0 <= i < |candidates| ==> candidates[i] < |scores|
    requires IsCut(Gather(scores, candidates), k, local)
    ensures IsCompletion(scores, candidates, k, Gather(candidates, local))
  {
    var r := Gather(candidates, local);
    GatherDistinct(candidates, local);
    forall d: nat, c: nat | d in candidates && d !in r && c in r ensures d < |scores| && scores[d] <= scores[c] {
      var i :| 0 <= i < |candidates| && candidates[i] == d;
      var j :| 0 <= j < |r| && r[j] == c;
      Gathers(candidates, local, i);
      assert local[j] in local;
    }
  }

  /** When no document outside the candidates beats one of the completed list, that list has the reference scores. */
  lemma CompletionIsCut(scores: seq<real>, candidates: seq<nat>, k: nat, r: seq<nat>)
    requires IsCompletion(scores, candidates, k, r) && |r| == Min(k, |scores|) && k > 0
    requires forall d: nat, c: nat :: d < |scores| && d !in candidates && c in r ==>
      c < |scores| && scores[d] <= scores[c]
    ensures IsCut(scores, k, r) && SameScores(scores, r, TopK(scores, k))
  {
    forall d: nat, c: nat | d < |scores| && d !in r && c in r ensures c < |scores| && scores[d] <= scores[c] {
      if d in candidates {
        assert scores[d] <= scores[c];
      }
    }
    CutHasBestScores(scores, k, r);
  }

  // ----- approximate scores that keep large gaps -----

  /** Documents whose exact scores differ by more than the gap keep their order in the approximate scores. */
  ghost predicate KeepsGaps(exact: seq<real>, approximate: seq<real>, gap: real) {
    && |approximate| == |exact|
    && forall d, c :: 0 <= d < |exact| && 0 <= c < |exact| && exact[d] - exact[c] > gap ==>
         approximate[d] > approximate[c]
  }

  /** The `m`-th best score, at least `m` documents being there. */
  function NthScore(scores: seq<real>, m: nat): real
    requires 0 < m <= |scores|
  {
    var t := TopK(scores, m);
    scores[t[m - 1]]
  }

  /** No list of as many documents scores above the last of the reference throughout. */
  lemma NotAllAbove(scores: seq<real>, m: nat, r: seq<nat>)
    requires 0 < m <= |scores| && Distinct(r) && |r| == m && forall i :: 0 <= i < |r| ==> r[i] < |scores|
    ensures exists c: nat :: c in r && c < |scores| && scores[c] <= NthScore(scores, m)
  {
    var t := TopK(scores, m);
    TopKIsBest(scores, m);
    LastIsTheLine(scores, m, t);
    if forall c: nat :: c in r ==> scores[c] > NthScore(scores, m) {
      var last := t[m - 1];
      forall c | c in SetOf(r) ensures c in SetOf(t) - {last} {
      }
      DistinctSize(r);
      RankedSetSize(scores, t);
      assert last in SetOf(t);
      SubsetSize(SetOf(r), SetOf(t) - {last});
    }
  }

  /** Theorem: a document ahead of the `m`-th best by more than the gap is among the first `m` approximate ones. */
  lemma FarAheadIsKept(exact: seq<real>, approximate: seq<real>, gap: real, m: nat, r: seq<nat>, d: nat)
    requires KeepsGaps(exact, approximate, gap) && IsCut(approximate, m, r)
    requires 0 < m <= |exact| && d < |exact| && exact[d] > NthScore(exact, m) + gap
    ensures d in r
  {
    NotAllAbove(exact, m, r);
    var c: nat :| c in r && c < |exact| && exact[c] <= NthScore(exact, m);
    assert approximate[d] > approximate[c];
  }

  /** The depth `m` reaches everything, or the `k`-th best is ahead of the `m`-th by more than the gap. */
  ghost predicate Clears(exact: seq<real>, k: nat, m: nat, gap: real) {
    m >= |exact| || (0 < k <= m && NthScore(exact, k) > NthScore(exact, m) + gap)
  }

  lemma WholeCut(scores: seq<real>, m: nat, r: seq<nat>, d: nat)
    requires IsCut(scores, m, r) && m >= |scores| && d < |scores|
    ensures d in r
  {
    DistinctSize(r);
    SubsetOfSameSize(SetOf(r), All(|scores|));
    assert d in All(|scores|);
  }

  /** A document of a cut scores at least the last of the reference. */
  lemma CutReaches(scores: seq<real>, k: nat, top: seq<nat>, c: nat)
    requires 0 < k <= |scores| && IsCut(scores, k, top) && c in top
    ensures c < |scores| && scores[c] >= NthScore(scores, k)
  {
    var i :| 0 <= i < |top| && top[i] == c;
    CutHasBestScores(scores, k, top);
    assert scores[top[k - 1]] == NthScore(scores, k);
  }

  /** Theorem: where the depth clears the gap, every top document is a candidate, whichever of tied ones is taken. */
  lemma TopIsKept(
      exact: seq<real>, approximate: seq<real>, gap: real, k: nat, m: nat, candidates: seq<nat>, top: seq<nat>, c: nat)
    requires KeepsGaps(exact, approximate, gap) && IsCut(approximate, m, candidates) && IsCut(exact, k, top)
    requires Clears(exact, k, m, gap) && c in top
    ensures c in candidates
  {
    if m >= |exact| {
      WholeCut(approximate, m, candidates, c);
    } else {
      CutReaches(exact, k, top, c);
      FarAheadIsKept(exact, approximate, gap, m, candidates, c);
    }
  }

  /** When the candidates hold a whole cut, none outside them beats the completed list. */
  lemma OutsideIsBelow(
      scores: seq<real>, k: nat, candidates: seq<nat>, top: seq<nat>, r: seq<nat>, d: nat, c: nat)
    requires IsCut(scores, k, top) && IsCompletion(scores, candidates, k, r) && |r| == |top|
    requires (forall t: nat :: t in top ==> t in candidates) && d < |scores| && d !in candidates && c in r
    ensures c < |scores| && scores[d] <= scores[c]
  {
    assert d !in top;
    if c !in top {
      DistinctSize(top);
      DistinctSize(r);
      assert c in SetOf(r) && c !in SetOf(top);
      if SetOf(top) <= SetOf(r) {
        SubsetOfSameSize(SetOf(top), SetOf(r));
        assert false;
      }
      var t :| t in SetOf(top) && t !in SetOf(r);
      assert scores[d] <= scores[t] <= scores[c];
    }
  }

  /** How many of the candidates are top documents. */
  function Covered(top: seq<nat>, candidates: seq<nat>, n: nat): (c: nat)
    requires n <= |top|
    ensures c <= n
  {
    if n == 0 then 0 else Covered(top, candidates, n - 1) + if top[n - 1] in candidates then 1 else 0
  }

  lemma {:induction false} CoveredAll(top: seq<nat>, candidates: seq<nat>, n: nat)
    requires n <= |top|
    ensures Covered(top, candidates, n) == n <==> forall i :: 0 <= i < n ==> top[i] in candidates
  {
    if n > 0 { CoveredAll(top, candidates, n - 1); }
  }

  /** What one query reports: how many exact top documents are candidates, and the completed list. */
  ghost predicate Reports(
      exact: seq<real>, approximate: seq<real>, k: nat, m: nat, top: seq<nat>, candidates: seq<nat>, covered: nat,
      completed: seq<nat>)
  {
    && |approximate| == |exact|
    && IsCut(exact, k, top) && IsCut(approximate, m, candidates)
    && IsCompletion(exact, candidates, k, completed)
    && covered == Covered(top, candidates, |top|)
  }

  /** Theorem: where the depth clears a gap the approximate scores keep, the completion loses nothing. */
  lemma ClearedIsExact(
      exact: seq<real>, approximate: seq<real>, gap: real, k: nat, m: nat, top: seq<nat>, candidates: seq<nat>,
      covered: nat, completed: seq<nat>)
    requires Reports(exact, approximate, k, m, top, candidates, covered, completed) && k > 0
    requires KeepsGaps(exact, approximate, gap) && Clears(exact, k, m, gap)
    ensures covered == |top| && SameScores(exact, completed, TopK(exact, k))
  {
    forall c: nat | c in top ensures c in candidates {
      TopIsKept(exact, approximate, gap, k, m, candidates, top, c);
    }
    CoveredAll(top, candidates, |top|);
    forall d: nat, c: nat | d < |exact| && d !in candidates && c in completed
      ensures c < |exact| && exact[d] <= exact[c]
    {
      OutsideIsBelow(exact, k, candidates, top, completed, d, c);
    }
    CompletionIsCut(exact, candidates, k, completed);
  }

  /** One query at one depth: candidates by approximate score, the exact top documents among them, and completion. */
  method EvaluateQuery(approximate: seq<real>, exact: seq<real>, k: nat, multiplier: nat)
    returns (covered: nat, completed: seq<nat>, top: seq<nat>, candidates: seq<nat>)
    requires |approximate| == |exact| && k > 0 && multiplier > 0
    ensures Reports(exact, approximate, k, Depth(k, multiplier, |exact|), top, candidates, covered, completed)
  {
    top := TopkOf(exact, k);
    candidates := TopkOf(approximate, Depth(k, multiplier, |exact|));
    completed := CompleteCandidates(exact, candidates, k);
    covered := 0;
    for i := 0 to |top|
      invariant covered == Covered(top, candidates, i)
    {
      if top[i] in candidates { covered := covered + 1; }
    }
  }

  function Depth(k: nat, multiplier: nat, n: nat): nat {
    Min(k * multiplier, n)
  }
}
