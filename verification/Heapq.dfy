/**
 The priority queues of the retrieval scripts. All of them hold pairs of a number and an id, ordered the way
 Python orders tuples, and none of them ever holds the same pair twice. A queue is modelled by the strictly
 ascending sequence of its items, so its head is the least item.
 */
module Heapq {

  datatype Item = Item(key: real, id: int)

  predicate Less(a: Item, b: Item) {
    a.key < b.key || (a.key == b.key && a.id < b.id)
  }

  ghost predicate Ascending(h: seq<Item>) {
    forall i, j :: 0 <= i < j < |h| ==> Less(h[i], h[j])
  }

  ghost predicate Distinct<T(!new)>(s: seq<T>) {
    forall i, j :: 0 <= i < j < |s| ==> s[i] != s[j]
  }

  /** `heappush`. */
  function Push(h: seq<Item>, x: Item): (r: seq<Item>)
    requires Ascending(h) && x !in h
    ensures Ascending(r) && |r| == |h| + 1
    ensures forall y :: y in r <==> y == x || y in h
  {
    if h == [] || Less(x, h[0]) then
      [x] + h
    else
      assert forall y :: y in h <==> y == h[0] || y in h[1..];
      var t := Push(h[1..], x);
      assert forall i :: 0 <= i < |t| ==> t[i] in t;
      [h[0]] + t
  }

  /** `heapify`, and `lexsort` on a pair of keys that ends in distinct ids. */
  function Sorted(items: seq<Item>): (r: seq<Item>)
    requires Distinct(items)
    ensures Ascending(r) && |r| == |items|
    ensures forall y :: y in r <==> y in items
  {
    if items == [] then []
    else
      var n := |items| - 1;
      assert forall y :: y in items <==> y == items[n] || y in items[..n];
      Push(Sorted(items[..n]), items[n])
  }

  /** An ascending sequence is determined by the items it holds. */
  lemma {:induction false} AscendingUnique(a: seq<Item>, b: seq<Item>)
    requires Ascending(a) && Ascending(b)
    requires forall y :: y in a <==> y in b
    ensures a == b
  {
    assert b != [] ==> b[0] in b;
    if a != [] {
      assert a[0] in a && a[0] in b;
      assert b[0] in b && b[0] in a;
      assert a[0] == b[0];
      forall y ensures y in a[1..] <==> y in b[1..] {
        assert y in a <==> y == a[0] || y in a[1..];
        assert y in b <==> y == b[0] || y in b[1..];
        assert a[0] !in a[1..] && b[0] !in b[1..];
      }
      AscendingUnique(a[1..], b[1..]);
    }
  }
}
