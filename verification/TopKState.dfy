/**
 The accumulator every traversal drives: documents are offered one at a time, a bounded heap keeps the best
 `k` of those seen, and a traversal asks whether an upper bound can still matter. What it promises is stated
 over the set of documents seen, with no mention of the heap.
 */
module TopKState {
  import opened Arithmetic
  import opened Heapq
  import opened Ranking
  import opened Stopping

  const STOP_SLACK: real := 0.000001

  /** A heap item: a worse document is a smaller item. */
  function HeapItem(scores: seq<real>, d: nat): Item
    requires d < |scores|
  {
    Item(scores[d], -(d as int))
  }

  function DocumentOf(x: Item): nat {
    if x.id <= 0 then -x.id else 0
  }

  ghost predicate IsItemOf(scores: seq<real>, seen: set<nat>, x: Item) {
    DocumentOf(x) < |scores| && DocumentOf(x) in seen && x == HeapItem(scores, DocumentOf(x))
  }

  ghost predicate BelowAll(x: Item, heap: seq<Item>) {
    forall y :: y in heap ==> Less(x, y)
  }

  /** The heap holds the best `min(k, |seen|)` of the documents in `seen`. */
  ghost predicate HoldsBest(scores: seq<real>, k: nat, seen: set<nat>, heap: seq<Item>)
    requires InRange(scores, seen)
  {
    && Ascending(heap)
    && (forall x :: x in heap ==> IsItemOf(scores, seen, x))
    && |heap| == (if k <= |seen| then k else |seen|)
    && (forall d {:trigger HeapItem(scores, d)} :: d in seen ==>
          HeapItem(scores, d) in heap || BelowAll(HeapItem(scores, d), heap))
  }

  /** The body of `offer` on an unseen document. */
  function Offered(scores: seq<real>, k: nat, heap: seq<Item>, d: nat): seq<Item>
    requires k > 0 && d < |scores| && Ascending(heap) && HeapItem(scores, d) !in heap
  {
    var item := HeapItem(scores, d);
    if |heap| < k then Push(heap, item)
    else if Less(heap[0], item) then Push(heap[1..], item)
    else heap
  }

  lemma OfferedHoldsBest(scores: seq<real>, k: nat, seen: set<nat>, heap: seq<Item>, d: nat)
    requires k > 0 && d < |scores| && d !in seen && InRange(scores, seen)
    requires HoldsBest(scores, k, seen, heap)
    ensures HeapItem(scores, d) !in heap
    ensures HoldsBest(scores, k, seen + {d}, Offered(scores, k, heap, d))
  {
    var item := HeapItem(scores, d);
    assert item in heap ==> IsItemOf(scores, seen, item);
    SizeAfterAdding(seen, d);
    if |heap| < k {
      PushedHoldsBest(scores, k, seen, heap, d);
    } else if Less(heap[0], item) {
      OfferedReplaces(scores, k, seen, heap, d);
      ItemsStayItems(scores, seen, d, heap, Push(heap[1..], item));
    } else {
      NotAboveHead(heap, item);
      ItemsStayItems(scores, seen, d, heap, heap);
    }
  }

  lemma PushedHoldsBest(scores: seq<real>, k: nat, seen: set<nat>, heap: seq<Item>, d: nat)
    requires d < |scores| && d !in seen && InRange(scores, seen)
    requires HoldsBest(scores, k, seen, heap) && |heap| < k && HeapItem(scores, d) !in heap
    ensures HoldsBest(scores, k, seen + {d}, Push(heap, HeapItem(scores, d)))
  {
    var next := Push(heap, HeapItem(scores, d));
    SizeAfterAdding(seen, d);
    ItemsStayItems(scores, seen, d, heap, next);
    forall c | c in seen + {d} ensures HeapItem(scores, c) in next {
      if c != d { AllInHeap(scores, k, seen, heap, c); }
    }
  }

  /** Old items are items of the larger set, and so is the new one. */
  lemma ItemsStayItems(scores: seq<real>, seen: set<nat>, d: nat, heap: seq<Item>, next: seq<Item>)
    requires d < |scores| && InRange(scores, seen) && forall x :: x in heap ==> IsItemOf(scores, seen, x)
    requires forall x :: x in next ==> x == HeapItem(scores, d) || x in heap
    ensures forall x :: x in next ==> IsItemOf(scores, seen + {d}, x)
  {
  }

  /** An item outside the heap and not above its head is below all of it. */
  lemma NotAboveHead(heap: seq<Item>, item: Item)
    requires heap != [] && Ascending(heap) && item !in heap && !Less(heap[0], item)
    ensures forall y :: y in heap ==> Less(item, y)
  {
    assert heap[0] in heap;
    forall y | y in heap ensures Less(item, y) {
      var i :| 0 <= i < |heap| && heap[i] == y;
      assert i > 0 ==> Less(heap[0], heap[i]);
    }
  }

  lemma OfferedReplaces(scores: seq<real>, k: nat, seen: set<nat>, heap: seq<Item>, d: nat)
    requires k > 0 && d < |scores| && d !in seen && InRange(scores, seen)
    requires HoldsBest(scores, k, seen, heap) && |heap| == k
    requires HeapItem(scores, d) !in heap && Less(heap[0], HeapItem(scores, d))
    ensures forall x :: x in Push(heap[1..], HeapItem(scores, d)) <==> x == HeapItem(scores, d) || x in heap[1..]
    ensures forall c :: c in seen + {d} ==>
      var next := Push(heap[1..], HeapItem(scores, d));
      HeapItem(scores, c) in next || BelowAll(HeapItem(scores, c), next)
  {
    var item := HeapItem(scores, d);
    var next := Push(heap[1..], item);
    assert heap == [heap[0]] + heap[1..];
    assert heap[0] in heap;
    forall c | c in seen + {d} && HeapItem(scores, c) !in next ensures BelowAll(HeapItem(scores, c), next) {
      var x := HeapItem(scores, c);
      forall y | y in next ensures Less(x, y) {
        if x in heap {
          assert x == heap[0];
          if y != item {
            var i :| 0 <= i < |heap[1..]| && heap[1..][i] == y;
            assert Less(heap[0], heap[i + 1]);
          }
        } else {
          assert Less(x, heap[0]);
        }
      }
    }
  }

  /** While the heap is not full it holds every document seen. */
  lemma AllInHeap(scores: seq<real>, k: nat, seen: set<nat>, heap: seq<Item>, c: nat)
    requires InRange(scores, seen) && HoldsBest(scores, k, seen, heap) && |seen| <= k
    requires c in seen
    ensures HeapItem(scores, c) in heap
  {
    HeapDocumentsSize(scores, seen, heap);
    SubsetOfSameSize(HeapDocuments(scores, seen, heap), seen);
  }

  ghost function HeapDocuments(scores: seq<real>, seen: set<nat>, heap: seq<Item>): set<nat>
    requires InRange(scores, seen)
  {
    set d | d in seen && HeapItem(scores, d) in heap
  }

  lemma {:induction false} HeapDocumentsSize(scores: seq<real>, seen: set<nat>, heap: seq<Item>)
    requires InRange(scores, seen) && Ascending(heap)
    requires forall x :: x in heap ==> IsItemOf(scores, seen, x)
    ensures |HeapDocuments(scores, seen, heap)| == |heap|
  {
    if heap != [] {
      var x, rest := heap[0], heap[1..];
      assert heap == [x] + rest && x !in rest;
      assert IsItemOf(scores, seen, x);
      HeapDocumentsSize(scores, seen, rest);
      assert HeapDocuments(scores, seen, heap) == HeapDocuments(scores, seen, rest) + {DocumentOf(x)};
    }
  }

  /** The documents of the heap are the answer over the documents seen. */
  lemma HeapIsBestOf(scores: seq<real>, k: nat, seen: set<nat>, heap: seq<Item>, r: seq<nat>)
    requires InRange(scores, seen) && HoldsBest(scores, k, seen, heap)
    requires Ranked(scores, r) && |r| == |heap|
    requires forall d: nat :: d in r <==> d < |scores| && HeapItem(scores, d) in heap
    ensures IsBestOf(scores, seen, k, r)
  {
    forall d | d in r ensures d in seen {
      assert HeapItem(scores, d) in heap;
    }
    forall d, c | d in seen && d !in r && c in r ensures Outranks(scores, c, d) {
      assert Less(HeapItem(scores, d), HeapItem(scores, c));
    }
  }

  function HeapIds(heap: seq<Item>): (docs: seq<nat>)
    ensures |docs| == |heap| && forall i :: 0 <= i < |docs| ==> docs[i] == DocumentOf(heap[i])
  {
    if heap == [] then [] else [DocumentOf(heap[0])] + HeapIds(heap[1..])
  }

  lemma HeapIdsFacts(scores: seq<real>, seen: set<nat>, heap: seq<Item>)
    requires InRange(scores, seen) && Ascending(heap)
    requires forall x :: x in heap ==> IsItemOf(scores, seen, x)
    ensures Distinct(HeapIds(heap))
    ensures forall i :: 0 <= i < |heap| ==> HeapIds(heap)[i] < |scores|
    ensures forall d: nat :: d in HeapIds(heap) <==> d < |scores| && HeapItem(scores, d) in heap
  {
    var docs := HeapIds(heap);
    forall i | 0 <= i < |docs| ensures docs[i] < |scores| && heap[i] == HeapItem(scores, docs[i]) {
      assert heap[i] in heap;
      assert IsItemOf(scores, seen, heap[i]);
    }
    forall i, j | 0 <= i < j < |docs| ensures docs[i] != docs[j] {
      assert Less(heap[i], heap[j]);
    }
    forall d: nat | d in docs ensures d < |scores| && HeapItem(scores, d) in heap {
      var i := IndexIn(docs, d);
      assert heap[i] in heap;
    }
    forall d: nat | d < |scores| && HeapItem(scores, d) in heap ensures d in docs {
      var i :| 0 <= i < |heap| && heap[i] == HeapItem(scores, d);
      assert docs[i] == d;
    }
  }

  /** Sorting the ids in the heap yields the answer over the documents seen. */
  lemma HeapIdsAreBest(scores: seq<real>, k: nat, seen: set<nat>, heap: seq<Item>)
    requires InRange(scores, seen) && HoldsBest(scores, k, seen, heap)
    ensures Distinct(HeapIds(heap))
    ensures forall i :: 0 <= i < |heap| ==> HeapIds(heap)[i] < |scores|
    ensures IsBestOf(scores, seen, k, RankOrder(scores, HeapIds(heap)))
  {
    HeapIdsFacts(scores, seen, heap);
    HeapIsBestOf(scores, k, seen, heap, RankOrder(scores, HeapIds(heap)));
  }

  lemma SizeAfterAdding(s: set<nat>, d: nat)
    ensures |s + {d}| == if d in s then |s| else |s| + 1
  {
    assert d in s ==> s + {d} == s;
  }

  /** When the stop test passes for a bound, every document under the bound is losing, ties included. */
  lemma StopMeansLosing(scores: seq<real>, k: nat, seen: set<nat>, heap: seq<Item>, upper: real, e: real, d: nat)
    requires InRange(scores, seen) && HoldsBest(scores, k, seen, heap) && k > 0
    requires e >= 0.0 && |heap| == k && heap[0].key > 0.0
    requires upper < heap[0].key * (1.0 + e)
    requires d < |scores| && scores[d] <= upper
    ensures Losing(scores, k, seen, e, d)
  {
    var docs := HeapDocuments(scores, seen, heap);
    forall c | c in docs ensures c in Dominators(scores, seen, e, d) {
      var i :| 0 <= i < |heap| && heap[i] == HeapItem(scores, c);
      assert i > 0 ==> Less(heap[0], heap[i]);
      ScaleMonotone(heap[0].key, scores[c], e);
    }
    HeapDocumentsSize(scores, seen, heap);
    SubsetSize(docs, Dominators(scores, seen, e, d));
  }

  /** `threshold` as the scripts read it: none until `k` documents were seen. */
  datatype Threshold = Unbounded | Finite(value: real)

  function StopTest(threshold: Threshold, upper: real, e: real): bool {
    match threshold
    case Unbounded => false
    case Finite(t) =>
      t > 0.0
      && var allowed := t * (1.0 + e);
         upper + STOP_SLACK * (1.0 + Abs(upper) + Abs(allowed)) < allowed
  }

  /** The threshold never falls as documents are offered. */
  lemma ThresholdRises(scores: seq<real>, k: nat, seen: set<nat>, heap: seq<Item>, more: set<nat>, next: seq<Item>)
    requires k > 0 && InRange(scores, more) && seen <= more
    requires HoldsBest(scores, k, seen, heap) && |heap| == k
    requires HoldsBest(scores, k, more, next)
    ensures |next| == k && heap[0].key <= next[0].key
  {
    SubsetSize(seen, more);
    if next[0].key < heap[0].key {
      var docs := HeapDocuments(scores, seen, heap);
      forall d | d in docs ensures d in HeapDocuments(scores, more, next) - {DocumentOf(next[0])} {
        var i :| 0 <= i < |heap| && heap[i] == HeapItem(scores, d);
        assert i > 0 ==> Less(heap[0], heap[i]);
        assert next[0] in next;
        assert !Less(HeapItem(scores, d), next[0]);
        assert HeapItem(scores, d) in next;
      }
      HeapDocumentsSize(scores, seen, heap);
      HeapDocumentsSize(scores, more, next);
      assert next[0] in next && IsItemOf(scores, more, next[0]);
      SubsetSize(docs, HeapDocuments(scores, more, next) - {DocumentOf(next[0])});
    }
  }

  /** A bound that may be skipped once may be skipped under every higher threshold. */
  lemma StopTestStays(low: real, high: real, upper: real, e: real)
    requires low <= high && e >= 0.0
    requires StopTest(Finite(low), upper, e)
    ensures StopTest(Finite(high), upper, e)
  {
    ScaleMonotone(0.0, low, e);
    ScaleMonotone(low, high, e);
    SlackStays(low * (1.0 + e), high * (1.0 + e), upper);
  }

  /** A smaller bound may be skipped wherever a larger one may, slack included. */
  lemma StopTestShrinks(threshold: Threshold, upper: real, lower: real, e: real)
    requires lower <= upper && StopTest(threshold, upper, e)
    ensures StopTest(threshold, lower, e)
  {
    if threshold.Finite? {
      BoundWithSlack(upper, lower, Abs(threshold.value * (1.0 + e)));
    }
  }

  lemma BoundWithSlack(upper: real, lower: real, allowed: real)
    requires lower <= upper
    ensures lower + STOP_SLACK * (1.0 + Abs(lower) + allowed) <= upper + STOP_SLACK * (1.0 + Abs(upper) + allowed)
  {
  }

  lemma SlackStays(a: real, b: real, upper: real)
    requires 0.0 <= a <= b
    requires upper + STOP_SLACK * (1.0 + Abs(upper) + Abs(a)) < a
    ensures upper + STOP_SLACK * (1.0 + Abs(upper) + Abs(b)) < b
  {
    assert Abs(a) == a && Abs(b) == b;
  }

  class ExactTopK {
    const scores: seq<real>
    const k: nat
    const seen: array<bool>
    var heap: seq<Item>

    ghost function Seen(): set<nat>
      reads seen
    {
      set d | d in All(seen.Length) && seen[d]
    }

    ghost predicate Valid()
      reads this, seen
    {
      && k > 0
      && seen.Length == |scores|
      && HoldsBest(scores, k, Seen(), heap)
    }

    constructor (scores: seq<real>, k: nat)
      requires k > 0
      ensures Valid() && Seen() == {} && this.scores == scores && this.k == k && fresh(seen)
    {
      this.scores := scores;
      this.k := k;
      seen := new bool[|scores|](_ => false);
      heap := [];
      new;
      assert Seen() == {};
    }

    method Offer(document: nat) returns (admitted: bool)
      requires Valid() && document < |scores|
      modifies this, seen
      ensures Valid()
      ensures admitted <==> document !in old(Seen())
      ensures Seen() == old(Seen()) + {document}
    {
      if seen[document] {
        assert Seen() == old(Seen()) + {document};
        return false;
      }
      OfferedHoldsBest(scores, k, Seen(), heap, document);
      heap := Offered(scores, k, heap, document);
      seen[document] := true;
      assert Seen() == old(Seen()) + {document};
      admitted := true;
    }

    method OfferMany(documents: seq<nat>) returns (admitted: nat)
      requires Valid() && forall i :: 0 <= i < |documents| ==> documents[i] < |scores|
      modifies this, seen
      ensures Valid()
      ensures Seen() == old(Seen()) + SetOf(documents)
      ensures admitted == |Seen()| - |old(Seen())|
    {
      ghost var start := Seen();
      admitted := 0;
      for i := 0 to |documents|
        invariant Valid()
        invariant forall d :: d in Seen() <==> d in start || d in documents[..i]
        invariant admitted == |Seen()| - |start|
      {
        assert documents[..i + 1] == documents[..i] + [documents[i]];
        SizeAfterAdding(Seen(), documents[i]);
        var isNew := Offer(documents[i]);
        if isNew { admitted := admitted + 1; }
      }
      assert documents[..|documents|] == documents;
      assert Seen() == start + SetOf(documents);
    }

    function ThresholdValue(): Threshold
      reads this
    {
      if |heap| < k || heap == [] then Unbounded else Finite(heap[0].key)
    }

    function CanStop(upper: real, e: real): bool
      reads this
    {
      StopTest(ThresholdValue(), upper, e)
    }

    /** A passed stop test discharges every document whose score the bound covers. */
    lemma StopDischarges(upper: real, e: real, d: nat)
      requires Valid() && e >= 0.0 && CanStop(upper, e)
      requires d < |scores| && scores[d] <= upper
      ensures Discharged(scores, k, Seen(), e, d)
    {
      StopMeansLosing(scores, k, Seen(), heap, upper, e, d);
    }

    method Finish() returns (top: seq<nat>)
      requires Valid()
      modifies this, seen
      ensures Valid()
      ensures Padded(|scores|, k, old(Seen()), Seen())
      ensures IsBestOf(scores, Seen(), k, top)
    {
      if |heap| < k { Pad(); }
      var documents := HeapIds(heap);
      HeapIdsAreBest(scores, k, Seen(), heap);
      top := RankOrder(scores, documents);
    }

    /** The loop of `finish` that offers ids from zero up until the heap is full. */
    method Pad()
      requires Valid() && |heap| < k
      modifies this, seen
      ensures Valid()
      ensures Padded(|scores|, k, old(Seen()), Seen())
    {
      for document := 0 to |scores|
        invariant Valid() && |heap| < k
        invariant old(Seen()) <= Seen()
        invariant forall d: nat :: d < document ==> d in Seen()
        invariant forall d :: d in Seen() ==> d in old(Seen()) || d < document
      {
        var _ := Offer(document);
        SubsetSize(Seen(), All(|scores|));
        if |heap| == k { return; }
      }
      assert Seen() == All(|scores|);
    }
  }
}
