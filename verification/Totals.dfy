/** Totals of a natural measure over a sequence, as a whole and group by group. */
module Totals {
  import opened Heapq
  import opened Tables

  function Total<T>(xs: seq<T>, size: T -> nat): nat {
    if xs == [] then 0 else Total(xs[..|xs| - 1], size) + size(xs[|xs| - 1])
  }

  lemma TotalSnoc<T>(xs: seq<T>, n: nat, size: T -> nat)
    requires n < |xs|
    ensures Total(xs[..n + 1], size) == Total(xs[..n], size) + size(xs[n])
  {
    assert xs[..n + 1][..n] == xs[..n];
  }

  lemma {:induction false} TotalPrefix<T>(xs: seq<T>, n: nat, size: T -> nat)
    requires n <= |xs|
    ensures Total(xs[..n], size) <= Total(xs, size)
    decreases |xs|
  {
    if n < |xs| {
      TotalPrefix(xs[..|xs| - 1], n, size);
      assert xs[..|xs| - 1][..n] == xs[..n];
    } else {
      assert xs[..n] == xs;
    }
  }

  lemma {:induction false} TotalConcat<T>(xs: seq<T>, ys: seq<T>, size: T -> nat)
    ensures Total(xs + ys, size) == Total(xs, size) + Total(ys, size)
  {
    if ys == [] {
      assert xs + ys == xs;
    } else {
      var n := |ys| - 1;
      TotalConcat(xs, ys[..n], size);
      assert (xs + ys)[..|xs + ys| - 1] == xs + ys[..n];
    }
  }

  lemma TotalOne<T>(x: T, size: T -> nat)
    ensures Total([x], size) == size(x)
  {
    assert [x][..0] == [];
  }

  lemma {:induction false} TotalInsertBy<T>(xs: seq<T>, x: T, key: T -> real, size: T -> nat)
    ensures Total(InsertBy(xs, x, key), size) == Total(xs, size) + size(x)
  {
    TotalOne(x, size);
    if xs == [] || key(x) < key(xs[0]) {
      TotalConcat([x], xs, size);
    } else {
      TotalInsertBy(xs[1..], x, key, size);
      TotalConcat([xs[0]], InsertBy(xs[1..], x, key), size);
      TotalConcat([xs[0]], xs[1..], size);
      assert xs == [xs[0]] + xs[1..];
    }
  }

  /** Sorting changes no total. */
  lemma {:induction false} TotalSortBy<T>(xs: seq<T>, key: T -> real, size: T -> nat)
    ensures Total(SortBy(xs, key), size) == Total(xs, size)
  {
    if xs != [] {
      TotalSortBy(xs[..|xs| - 1], key, size);
      TotalInsertBy(SortBy(xs[..|xs| - 1], key), xs[|xs| - 1], key, size);
    }
  }

  // ----- totals by group -----

  /** What `x` adds to the total of group `g`. */
  function ShareOf<T>(x: T, group: T -> nat, size: T -> nat, g: nat): nat {
    if group(x) == g then size(x) else 0
  }

  function GroupTotal<T>(xs: seq<T>, group: T -> nat, size: T -> nat, g: nat): nat {
    if xs == [] then 0 else GroupTotal(xs[..|xs| - 1], group, size, g) + ShareOf(xs[|xs| - 1], group, size, g)
  }

  lemma {:induction false} GroupTotalConcat<T>(xs: seq<T>, ys: seq<T>, group: T -> nat, size: T -> nat, g: nat)
    ensures GroupTotal(xs + ys, group, size, g) == GroupTotal(xs, group, size, g) + GroupTotal(ys, group, size, g)
  {
    if ys == [] {
      assert xs + ys == xs;
    } else {
      var n := |ys| - 1;
      GroupTotalConcat(xs, ys[..n], group, size, g);
      assert (xs + ys)[..|xs + ys| - 1] == xs + ys[..n];
    }
  }

  lemma GroupTotalOne<T>(x: T, group: T -> nat, size: T -> nat, g: nat)
    ensures GroupTotal([x], group, size, g) == ShareOf(x, group, size, g)
  {
    assert [x][..0] == [];
  }

  /** The totals of several groups together. */
  function GroupTotals<T>(xs: seq<T>, group: T -> nat, size: T -> nat, gs: seq<nat>): nat {
    if gs == [] then 0
    else GroupTotals(xs, group, size, gs[..|gs| - 1]) + GroupTotal(xs, group, size, gs[|gs| - 1])
  }

  function SharesOf<T>(x: T, group: T -> nat, size: T -> nat, gs: seq<nat>): nat {
    if gs == [] then 0 else SharesOf(x, group, size, gs[..|gs| - 1]) + ShareOf(x, group, size, gs[|gs| - 1])
  }

  lemma {:induction false} GroupTotalsSplit<T>(xs: seq<T>, group: T -> nat, size: T -> nat, gs: seq<nat>)
    ensures xs == [] ==> GroupTotals(xs, group, size, gs) == 0
    ensures xs != [] ==>
      GroupTotals(xs, group, size, gs) ==
      GroupTotals(xs[..|xs| - 1], group, size, gs) + SharesOf(xs[|xs| - 1], group, size, gs)
  {
    if gs != [] { GroupTotalsSplit(xs, group, size, gs[..|gs| - 1]); }
  }

  lemma {:induction false} SharesAtMost<T>(x: T, group: T -> nat, size: T -> nat, gs: seq<nat>)
    requires Distinct(gs)
    ensures SharesOf(x, group, size, gs) <= size(x)
    ensures group(x) !in gs ==> SharesOf(x, group, size, gs) == 0
  {
    if gs != [] {
      var n := |gs| - 1;
      SharesAtMost(x, group, size, gs[..n]);
      LastSplit(gs);
      assert gs[n] !in gs[..n];
    }
  }

  /** Distinct groups never total more than the whole. */
  lemma {:induction false} GroupsWithinTotal<T>(xs: seq<T>, group: T -> nat, size: T -> nat, gs: seq<nat>)
    requires Distinct(gs)
    ensures GroupTotals(xs, group, size, gs) <= Total(xs, size)
  {
    GroupTotalsSplit(xs, group, size, gs);
    if xs != [] {
      GroupsWithinTotal(xs[..|xs| - 1], group, size, gs);
      SharesAtMost(xs[|xs| - 1], group, size, gs);
    }
  }

  // ----- tables of groups -----

  function KeysOf<V>(d: seq<Entry<nat, V>>): (r: seq<nat>)
    ensures |r| == |d| && forall i :: 0 <= i < |d| ==> r[i] == d[i].key
  {
    seq(|d|, i requires 0 <= i < |d| => d[i].key)
  }

  lemma {:induction false} TableIsGroups<T, V>(
      d: seq<Entry<nat, V>>, measure: Entry<nat, V> -> nat, xs: seq<T>, group: T -> nat, size: T -> nat)
    requires forall i :: 0 <= i < |d| ==> measure(d[i]) == GroupTotal(xs, group, size, d[i].key)
    ensures Total(d, measure) == GroupTotals(xs, group, size, KeysOf(d))
  {
    if d != [] {
      var n := |d| - 1;
      TableIsGroups(d[..n], measure, xs, group, size);
      assert KeysOf(d)[..n] == KeysOf(d[..n]);
    }
  }

  /** A dictionary that files every element under its group holds no more than there was. */
  lemma TableWithinTotal<T, V(!new)>(
      d: seq<Entry<nat, V>>, measure: Entry<nat, V> -> nat, xs: seq<T>, group: T -> nat, size: T -> nat)
    requires DistinctKeys(d)
    requires forall i :: 0 <= i < |d| ==> measure(d[i]) == GroupTotal(xs, group, size, d[i].key)
    ensures Total(d, measure) <= Total(xs, size)
  {
    TableIsGroups(d, measure, xs, group, size);
    GroupsWithinTotal(xs, group, size, KeysOf(d));
  }
}
