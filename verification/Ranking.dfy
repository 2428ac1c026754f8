/**
 What a top-k answer is. Documents are ranked by score, highest first, and equal scores by document id, lowest
 first. `IsBestOf` says which list is the answer over a pool of documents without saying how to compute it;
 `TopK` is the sort the scripts use as their reference.
 */
module Ranking {
  import opened Heapq

  ghost predicate InRange(scores: seq<real>, s: set<nat>) {
    forall d :: d in s ==> d < |scores|
  }

  /** The two lists score the same position by position. */
  ghost predicate SameScores(scores: seq<real>, a: seq<nat>, b: seq<nat>) {
    |a| == |b| && forall i :: 0 <= i < |a| ==> a[i] < |scores| && b[i] < |scores| && scores[a[i]] == scores[b[i]]
  }

  /** The documents `0 .. n-1`. */
  function All(n: nat): (r: set<nat>)
    ensures |r| == n && forall d: nat :: d in r <==> d < n
  {
    if n == 0 then {} else All(n - 1) + {n - 1}
  }

  predicate Outranks(scores: seq<real>, a: nat, b: nat)
    requires a < |scores| && b < |scores|
  {
    scores[a] > scores[b] || (scores[a] == scores[b] && a < b)
  }

  ghost predicate Ranked(scores: seq<real>, r: seq<nat>) {
    && (forall i :: 0 <= i < |r| ==> r[i] < |scores|)
    && (forall i, j :: 0 <= i < j < |r| ==> Outranks(scores, r[i], r[j]))
  }

  /** `r` lists the best `min(k, |pool|)` documents of `pool`, in ranking order. */
  ghost predicate IsBestOf(scores: seq<real>, pool: set<nat>, k: nat, r: seq<nat>)
    requires InRange(scores, pool)
  {
    && Ranked(scores, r)
    && (forall d :: d in r ==> d in pool)
    && |r| == (if k <= |pool| then k else |pool|)
    && (forall d, c :: d in pool && d !in r && c in r ==> Outranks(scores, c, d))
  }

  // ----- a ranking order is an ascending order of items -----

  function RankItem(scores: seq<real>, d: nat): Item
    requires d < |scores|
  {
    Item(-scores[d], d)
  }

  function RankItems(scores: seq<real>, docs: seq<nat>): (items: seq<Item>)
    requires forall i :: 0 <= i < |docs| ==> docs[i] < |scores|
    ensures |items| == |docs|
    ensures forall i :: 0 <= i < |docs| ==> items[i] == RankItem(scores, docs[i])
  {
    if docs == [] then [] else [RankItem(scores, docs[0])] + RankItems(scores, docs[1..])
  }

  function Ids(items: seq<Item>): (docs: seq<nat>)
    requires forall i :: 0 <= i < |items| ==> items[i].id >= 0
    ensures |docs| == |items|
    ensures forall i :: 0 <= i < |items| ==> docs[i] == items[i].id
  {
    if items == [] then [] else [items[0].id] + Ids(items[1..])
  }

  lemma SortedItemsRank(scores: seq<real>, docs: seq<nat>, items: seq<Item>)
    requires forall i :: 0 <= i < |docs| ==> docs[i] < |scores|
    requires Ascending(items)
    requires forall x :: x in items <==> x in RankItems(scores, docs)
    ensures forall i :: 0 <= i < |items| ==> items[i].id >= 0
    ensures Ranked(scores, Ids(items))
    ensures forall d :: d in Ids(items) <==> d in docs
  {
    var raw := RankItems(scores, docs);
    forall i | 0 <= i < |items|
      ensures 0 <= items[i].id < |scores| && items[i] == RankItem(scores, items[i].id) && items[i].id in docs
    {
      assert items[i] in raw;
      var j :| 0 <= j < |raw| && raw[j] == items[i];
      assert docs[j] == items[i].id;
    }
    forall d | d in docs ensures d in Ids(items) {
      var i :| 0 <= i < |docs| && docs[i] == d;
      assert raw[i] in items;
      var j :| 0 <= j < |items| && items[j] == raw[i];
      assert Ids(items)[j] == d;
    }
  }

  /** `np.lexsort((documents, -scores[documents]))` applied to `documents`. */
  function RankOrder(scores: seq<real>, docs: seq<nat>): (r: seq<nat>)
    requires Distinct(docs)
    requires forall i :: 0 <= i < |docs| ==> docs[i] < |scores|
    ensures Ranked(scores, r) && |r| == |docs|
    ensures forall d :: d in r <==> d in docs
  {
    var items := Sorted(RankItems(scores, docs));
    SortedItemsRank(scores, docs, items);
    Ids(items)
  }

  function Iota(n: nat): (r: seq<nat>)
    ensures |r| == n && forall i :: 0 <= i < n ==> r[i] == i
  {
    seq(n, i => i)
  }

  /** The reference answer: sort every document and keep the first `min(k, n)`. */
  function TopK(scores: seq<real>, k: nat): seq<nat> {
    var r := RankOrder(scores, Iota(|scores|));
    if k <= |r| then r[..k] else r
  }

  /** The first `k` of a pool ranked completely are its answer. */
  lemma PrefixIsBest(scores: seq<real>, pool: set<nat>, all: seq<nat>, k: nat)
    requires InRange(scores, pool) && Ranked(scores, all)
    requires forall d :: d in all <==> d in pool
    ensures IsBestOf(scores, pool, k, if k <= |all| then all[..k] else all)
  {
    RankedSetSize(scores, all);
    assert SetOf(all) == pool;
    var r := if k <= |all| then all[..k] else all;
    forall d: nat, c: nat | d in pool && d !in r && c in r
      ensures Outranks(scores, c, d)
    {
      var j := IndexIn(r, c);
      var i := IndexIn(all, d);
      assert i >= |r| by { assert forall x :: 0 <= x < |r| ==> r[x] in r && r[x] == all[x]; }
      assert all[j] == c;
    }
  }

  lemma TopKIsBest(scores: seq<real>, k: nat)
    ensures IsBestOf(scores, All(|scores|), k, TopK(scores, k))
  {
    forall d | 0 <= d < |scores| ensures d in Iota(|scores|) {
      assert Iota(|scores|)[d] == d;
    }
    PrefixIsBest(scores, All(|scores|), RankOrder(scores, Iota(|scores|)), k);
  }

  lemma IndexIn(s: seq<nat>, d: nat) returns (i: nat)
    requires d in s
    ensures i < |s| && s[i] == d
  {
    i :| 0 <= i < |s| && s[i] == d;
  }

  // ----- there is only one answer -----

  ghost function SetOf(r: seq<nat>): set<nat> {
    set d | d in r
  }

  lemma {:induction false} RankedSetSize(scores: seq<real>, r: seq<nat>)
    requires Ranked(scores, r)
    ensures |SetOf(r)| == |r|
  {
    if r != [] {
      RankedSetSize(scores, r[1..]);
      assert SetOf(r) == SetOf(r[1..]) + {r[0]};
      assert r[0] !in r[1..];
    }
  }

  lemma {:induction false} DistinctSize(r: seq<nat>)
    requires Distinct(r)
    ensures |SetOf(r)| == |r|
  {
    if r != [] {
      DistinctSize(r[1..]);
      assert SetOf(r) == SetOf(r[1..]) + {r[0]};
    }
  }

  lemma SubsetOfSameSize(a: set<nat>, b: set<nat>)
    requires a <= b && |a| >= |b|
    ensures a == b
  {
    assert b == a + (b - a);
    assert |b| == |a| + |b - a|;
  }

  lemma {:induction false} RankedUnique(scores: seq<real>, a: seq<nat>, b: seq<nat>)
    requires Ranked(scores, a) && Ranked(scores, b) && SetOf(a) == SetOf(b)
    ensures a == b
  {
    var x, y := RankItems(scores, a), RankItems(scores, b);
    forall t ensures t in x <==> t in y {
      if t in x {
        var i :| 0 <= i < |x| && x[i] == t;
        assert a[i] in SetOf(a);
        var j :| 0 <= j < |b| && b[j] == a[i];
        assert y[j] == t;
      }
      if t in y {
        var i :| 0 <= i < |y| && y[i] == t;
        assert b[i] in SetOf(b);
        var j :| 0 <= j < |a| && a[j] == b[i];
        assert x[j] == t;
      }
    }
    AscendingUnique(x, y);
    assert |a| == |b|;
    forall i | 0 <= i < |a| ensures a[i] == b[i] {
      assert x[i] == y[i];
    }
  }

  /** Two answers over the same pool are the same list. */
  lemma BestOfUnique(scores: seq<real>, pool: set<nat>, k: nat, a: seq<nat>, b: seq<nat>)
    requires InRange(scores, pool)
    requires IsBestOf(scores, pool, k, a) && IsBestOf(scores, pool, k, b)
    ensures a == b
  {
    RankedSetSize(scores, a);
    RankedSetSize(scores, b);
    forall x, y | x in SetOf(a) - SetOf(b) && y in SetOf(b)
      ensures y in SetOf(a)
    {
      assert x in a && y in b && x in pool && y in pool;
      assert Outranks(scores, y, x);
      assert y !in a ==> Outranks(scores, x, y);
    }
    if SetOf(a) <= SetOf(b) {
      SubsetOfSameSize(SetOf(a), SetOf(b));
    } else {
      SubsetOfSameSize(SetOf(b), SetOf(a));
    }
    RankedUnique(scores, a, b);
  }
}
