/** Insertion-ordered dictionaries and stable sorting by a numeric key. */
module Tables {

  datatype Entry<K, V> = Entry(key: K, value: V)

  ghost predicate DistinctKeys<K(!new), V(!new)>(d: seq<Entry<K, V>>) {
    forall i, j :: 0 <= i < j < |d| ==> d[i].key != d[j].key
  }

  /** `d.get(key, default)`. */
  function Get<K(==), V>(d: seq<Entry<K, V>>, key: K, default: V): V {
    if d == [] then default
    else if d[0].key == key then d[0].value
    else Get(d[1..], key, default)
  }

  /** `d[key] = value`: in place when the key is there, else at the end. */
  function Put<K(==), V>(d: seq<Entry<K, V>>, key: K, value: V): seq<Entry<K, V>> {
    if d == [] then [Entry(key, value)]
    else if d[0].key == key then [Entry(key, value)] + d[1..]
    else [d[0]] + Put(d[1..], key, value)
  }

  lemma {:induction false} PutKeys<K(!new), V(!new)>(d: seq<Entry<K, V>>, key: K, value: V)
    requires DistinctKeys(d)
    ensures DistinctKeys(Put(d, key, value))
    ensures forall i :: 0 <= i < |Put(d, key, value)| ==>
      Put(d, key, value)[i].key == key || exists j :: 0 <= j < |d| && d[j] == Put(d, key, value)[i]
  {
    if d != [] && d[0].key != key {
      PutKeys(d[1..], key, value);
      var rest := Put(d[1..], key, value);
      forall i | 0 <= i < |rest|
        ensures rest[i].key == key || exists j :: 1 <= j < |d| && d[j] == rest[i]
      {
        if rest[i].key != key {
          var j :| 0 <= j < |d[1..]| && d[1..][j] == rest[i];
          assert d[j + 1] == rest[i];
        }
      }
    }
  }

  lemma {:induction false} GetAfterPut<K(!new), V(!new)>(d: seq<Entry<K, V>>, key: K, value: V, other: K, default: V)
    ensures Get(Put(d, key, value), other, default) == if other == key then value else Get(d, other, default)
  {
    if d != [] && d[0].key != key {
      GetAfterPut(d[1..], key, value, other, default);
      assert Put(d, key, value)[1..] == Put(d[1..], key, value);
    }
  }

  lemma {:induction false} GetAt<K(!new), V(!new)>(d: seq<Entry<K, V>>, i: nat, default: V)
    requires DistinctKeys(d) && i < |d|
    ensures Get(d, d[i].key, default) == d[i].value
  {
    if i > 0 { GetAt(d[1..], i - 1, default); }
  }

  /** A key that does not read as the default is an entry. */
  lemma {:induction false} EntryOf<K(!new), V(!new)>(d: seq<Entry<K, V>>, key: K, default: V) returns (i: nat)
    requires Get(d, key, default) != default
    ensures i < |d| && d[i] == Entry(key, Get(d, key, default))
  {
    if d[0].key == key {
      i := 0;
    } else {
      i := EntryOf(d[1..], key, default);
      i := i + 1;
    }
  }

  function Values<K, V>(d: seq<Entry<K, V>>): (r: seq<V>)
    ensures |r| == |d| && forall i :: 0 <= i < |d| ==> r[i] == d[i].value
  {
    seq(|d|, i requires 0 <= i < |d| => d[i].value)
  }

  lemma LastSplit<T>(s: seq<T>)
    requires s != []
    ensures s == s[..|s| - 1] + [s[|s| - 1]]
  {
  }

  // ----- stable sorting -----

  ghost predicate SortedBy<T(!new)>(xs: seq<T>, key: T -> real) {
    forall i, j :: 0 <= i < j < |xs| ==> key(xs[i]) <= key(xs[j])
  }

  function InsertBy<T>(xs: seq<T>, x: T, key: T -> real): seq<T> {
    if xs == [] || key(x) < key(xs[0]) then [x] + xs else [xs[0]] + InsertBy(xs[1..], x, key)
  }

  /** `sorted(xs, key=key)`. */
  function SortBy<T>(xs: seq<T>, key: T -> real): seq<T> {
    if xs == [] then [] else InsertBy(SortBy(xs[..|xs| - 1], key), xs[|xs| - 1], key)
  }

  lemma {:induction false} InsertByPermutes<T(!new)>(xs: seq<T>, x: T, key: T -> real)
    ensures multiset(InsertBy(xs, x, key)) == multiset(xs) + multiset{x}
  {
    if xs == [] || key(x) < key(xs[0]) {
    } else {
      InsertByPermutes(xs[1..], x, key);
      assert xs == [xs[0]] + xs[1..];
    }
  }

  lemma {:induction false} InsertBySorts<T(!new)>(xs: seq<T>, x: T, key: T -> real)
    requires SortedBy(xs, key)
    ensures SortedBy(InsertBy(xs, x, key), key)
    ensures forall y :: y in InsertBy(xs, x, key) <==> y == x || y in xs
  {
    if xs == [] || key(x) < key(xs[0]) {
    } else {
      InsertBySorts(xs[1..], x, key);
      var rest := InsertBy(xs[1..], x, key);
      assert forall y :: y in xs <==> y == xs[0] || y in xs[1..];
      forall j | 0 <= j < |rest| ensures key(xs[0]) <= key(rest[j]) {
        assert rest[j] in rest;
        if rest[j] != x {
          var i :| 0 <= i < |xs[1..]| && xs[1..][i] == rest[j];
          assert xs[i + 1] == rest[j];
        }
      }
    }
  }

  /** Sorting permutes, and what it returns ascends by key. */
  lemma {:induction false} SortByFacts<T(!new)>(xs: seq<T>, key: T -> real)
    ensures SortedBy(SortBy(xs, key), key)
    ensures multiset(SortBy(xs, key)) == multiset(xs)
  {
    if xs != [] {
      var n := |xs| - 1;
      SortByFacts(xs[..n], key);
      InsertByPermutes(SortBy(xs[..n], key), xs[n], key);
      InsertBySorts(SortBy(xs[..n], key), xs[n], key);
      assert xs == xs[..n] + [xs[n]];
    }
  }

  lemma SortByMembers<T(!new)>(xs: seq<T>, key: T -> real)
    ensures forall x :: x in SortBy(xs, key) <==> x in xs
  {
    SortByFacts(xs, key);
    forall x ensures x in SortBy(xs, key) <==> x in xs {
      assert x in multiset(SortBy(xs, key)) <==> x in multiset(xs);
    }
  }

  // ----- counting -----

  function CountIf<T>(xs: seq<T>, p: T -> bool): (n: nat)
    ensures n <= |xs|
  {
    if xs == [] then 0 else CountIf(xs[..|xs| - 1], p) + if p(xs[|xs| - 1]) then 1 else 0
  }

  lemma {:induction false} CountIfConcat<T>(xs: seq<T>, ys: seq<T>, p: T -> bool)
    ensures CountIf(xs + ys, p) == CountIf(xs, p) + CountIf(ys, p)
  {
    if ys == [] {
      assert xs + ys == xs;
    } else {
      var n := |ys| - 1;
      CountIfConcat(xs, ys[..n], p);
      assert (xs + ys)[..|xs + ys| - 1] == xs + ys[..n];
    }
  }

  lemma {:induction false} CountIfInsertBy<T>(xs: seq<T>, x: T, key: T -> real, p: T -> bool)
    ensures CountIf(InsertBy(xs, x, key), p) == CountIf(xs, p) + CountIf([x], p)
    ensures |InsertBy(xs, x, key)| == |xs| + 1
  {
    if xs == [] || key(x) < key(xs[0]) {
      CountIfConcat([x], xs, p);
    } else {
      CountIfInsertBy(xs[1..], x, key, p);
      CountIfConcat([xs[0]], InsertBy(xs[1..], x, key), p);
      CountIfConcat([xs[0]], xs[1..], p);
      assert xs == [xs[0]] + xs[1..];
    }
  }

  /** Sorting changes no count. */
  lemma {:induction false} CountIfSortBy<T>(xs: seq<T>, key: T -> real, p: T -> bool)
    ensures CountIf(SortBy(xs, key), p) == CountIf(xs, p)
    ensures |SortBy(xs, key)| == |xs|
  {
    if xs != [] {
      var n := |xs| - 1;
      CountIfSortBy(xs[..n], key, p);
      CountIfInsertBy(SortBy(xs[..n], key), xs[n], key, p);
      CountIfConcat(xs[..n], [xs[n]], p);
      LastSplit(xs);
    }
  }

  lemma {:induction false} CountIfBounds<T>(xs: seq<T>, p: T -> bool, lo: nat, hi: nat)
    requires lo <= hi <= |xs|
    ensures (forall i :: lo <= i < hi ==> p(xs[i])) ==> CountIf(xs, p) >= hi - lo
    ensures (forall i :: 0 <= i < lo ==> !p(xs[i])) ==> CountIf(xs, p) <= |xs| - lo
    decreases |xs|
  {
    if xs != [] {
      var n := |xs| - 1;
      CountIfBounds(xs[..n], p, if lo <= n then lo else n, if hi <= n then hi else n);
    }
  }

  lemma {:induction false} CountIfPrefix<T>(xs: seq<T>, p: T -> bool, n: nat)
    requires n <= |xs| && forall i :: n <= i < |xs| ==> !p(xs[i])
    ensures CountIf(xs, p) <= n
    decreases |xs|
  {
    if n < |xs| { CountIfPrefix(xs[..|xs| - 1], p, n); }
  }

  ghost function Matching<T(!new)>(xs: seq<T>, p: T -> bool): set<T> {
    set x | x in xs && p(x)
  }

  /** On distinct elements a count is the size of a set, so a part never counts more than the whole. */
  lemma {:induction false} CountIfSet<T(!new)>(xs: seq<T>, p: T -> bool)
    ensures |Matching(xs, p)| <= CountIf(xs, p)
    ensures (forall i, j :: 0 <= i < j < |xs| ==> xs[i] != xs[j]) ==> |Matching(xs, p)| == CountIf(xs, p)
  {
    if xs == [] {
      assert Matching(xs, p) == {};
    } else {
      var n := |xs| - 1;
      CountIfSet(xs[..n], p);
      LastSplit(xs);
      if p(xs[n]) {
        assert Matching(xs, p) == Matching(xs[..n], p) + {xs[n]};
      } else {
        assert Matching(xs, p) == Matching(xs[..n], p);
      }
    }
  }
}
