/**
 Posting lists and the term blocks a traversal walks. A block's `Head` is the largest contribution any
 undecoded posting can still make, and its `Mass` is what the decoded prefix contributes to one document.
 */
module Postings {
  import opened Totals
  import opened Heapq
  import opened Sums
  import opened Ranking

  datatype Posting = Posting(document: nat, impact: real)

  type PostingList = seq<Posting>

  ghost predicate DistinctDocuments(p: PostingList) {
    forall i, j :: 0 <= i < j < |p| ==> p[i].document != p[j].document
  }

  ghost predicate Descending(p: PostingList) {
    forall i, j :: 0 <= i < j < |p| ==> p[i].impact >= p[j].impact
  }

  /** The impact `p` stores for `d` among its first `n` postings, zero when there is none. */
  function ImpactBefore(p: PostingList, n: nat, d: nat): real
    requires n <= |p|
  {
    if n == 0 then 0.0
    else if p[n - 1].document == d then p[n - 1].impact
    else ImpactBefore(p, n - 1, d)
  }

  function Impact(p: PostingList, d: nat): real {
    ImpactBefore(p, |p|, d)
  }

  ghost predicate Holds(p: PostingList, d: nat) {
    exists i :: 0 <= i < |p| && p[i].document == d
  }

  lemma {:induction false} ImpactBeforeAbsent(p: PostingList, n: nat, d: nat)
    requires n <= |p| && forall i :: 0 <= i < n ==> p[i].document != d
    ensures ImpactBefore(p, n, d) == 0.0
  {
    if n > 0 { ImpactBeforeAbsent(p, n - 1, d); }
  }

  lemma AbsentImpact(p: PostingList, d: nat)
    requires !Holds(p, d)
    ensures Impact(p, d) == 0.0
  {
    ImpactBeforeAbsent(p, |p|, d);
  }

  /** The stored impacts. */
  function Impacts(p: PostingList): (r: seq<real>)
    ensures |r| == |p| && forall i :: 0 <= i < |p| ==> r[i] == p[i].impact
  {
    seq(|p|, i requires 0 <= i < |p| => p[i].impact)
  }

  lemma {:induction false} ImpactBeforeAt(p: PostingList, n: nat, i: nat)
    requires DistinctDocuments(p) && i < n <= |p|
    ensures ImpactBefore(p, n, p[i].document) == p[i].impact
  {
    if i < n - 1 { ImpactBeforeAt(p, n - 1, i); }
  }

  /** The stored impact depends only on which postings are held. */
  lemma ImpactOfSame(p: PostingList, q: PostingList, d: nat)
    requires DistinctDocuments(p) && DistinctDocuments(q)
    requires forall x: Posting :: x.document == d ==> (x in p <==> x in q)
    ensures Impact(p, d) == Impact(q, d)
  {
    if i :| 0 <= i < |p| && p[i].document == d {
      assert p[i] in p;
      var j :| 0 <= j < |q| && q[j] == p[i];
      ImpactBeforeAt(p, |p|, i);
      ImpactBeforeAt(q, |q|, j);
    } else {
      ImpactBeforeAbsent(p, |p|, d);
      forall j | 0 <= j < |q| ensures q[j].document != d {
        assert q[j] in q;
      }
      ImpactBeforeAbsent(q, |q|, d);
    }
  }

  // ----- impact order -----

  function ImpactItems(p: PostingList): (items: seq<Item>)
    ensures |items| == |p| && forall i :: 0 <= i < |p| ==> items[i] == Item(-p[i].impact, p[i].document)
  {
    if p == [] then [] else [Item(-p[0].impact, p[0].document)] + ImpactItems(p[1..])
  }

  function PostingsOf(items: seq<Item>): (p: PostingList)
    requires forall i :: 0 <= i < |items| ==> items[i].id >= 0
    ensures |p| == |items| && forall i :: 0 <= i < |p| ==> p[i] == Posting(items[i].id, -items[i].key)
  {
    if items == [] then [] else [Posting(items[0].id, -items[0].key)] + PostingsOf(items[1..])
  }

  /** Highest impact first, ties by document id. */
  function ImpactOrder(p: PostingList): (r: PostingList)
    requires DistinctDocuments(p)
    ensures |r| == |p| && Descending(r) && DistinctDocuments(r)
    ensures forall x :: x in r <==> x in p
  {
    var items := Sorted(ImpactItems(p));
    SortedItemsAreImpactOrder(p, items);
    PostingsOf(items)
  }

  lemma OnePostingPerDocument(p: PostingList, x: Posting, y: Posting)
    requires DistinctDocuments(p) && x in p && y in p
    ensures x.document == y.document ==> x == y
  {
  }

  lemma SortedItemsAreImpactOrder(p: PostingList, items: seq<Item>)
    requires DistinctDocuments(p) && Ascending(items)
    requires forall y :: y in items <==> y in ImpactItems(p)
    ensures forall i :: 0 <= i < |items| ==> items[i].id >= 0
    ensures Descending(PostingsOf(items)) && DistinctDocuments(PostingsOf(items))
    ensures forall x :: x in PostingsOf(items) <==> x in p
  {
    var raw := ImpactItems(p);
    forall i | 0 <= i < |items|
      ensures items[i].id >= 0 && Posting(items[i].id, -items[i].key) in p
    {
      assert items[i] in raw;
      var j :| 0 <= j < |raw| && raw[j] == items[i];
      assert p[j] == Posting(items[i].id, -items[i].key);
    }
    var r := PostingsOf(items);
    forall i, j | 0 <= i < j < |r| ensures r[i].impact >= r[j].impact && r[i].document != r[j].document {
      assert Less(items[i], items[j]);
      OnePostingPerDocument(p, r[i], r[j]);
    }
    forall x | x in p ensures x in r {
      var i :| 0 <= i < |p| && p[i] == x;
      assert raw[i] in items;
      var j :| 0 <= j < |items| && items[j] == raw[i];
      assert r[j] == x;
    }
  }

  // ----- term blocks -----

  datatype TermBlock = TermBlock(termId: nat, weight: real, postings: PostingList) {
    function UpperBound(): real {
      if |postings| == 0 then 0.0 else weight * postings[0].impact
    }

    /** What every traversal is handed: a nonempty, impact-ordered list of nonnegative bounds. */
    ghost predicate WellFormed(documentCount: nat) {
      && weight >= 0.0
      && |postings| > 0
      && DistinctDocuments(postings)
      && Descending(postings)
      && (forall i :: 0 <= i < |postings| ==> postings[i].document < documentCount && postings[i].impact >= 0.0)
    }

    function Head(n: nat): real {
      if n < |postings| then weight * postings[n].impact else 0.0
    }

    function Mass(n: nat, d: nat): real
      requires n <= |postings|
    {
      weight * ImpactBefore(postings, n, d)
    }
  }

  lemma {:induction false} ImpactBeforeBounds(t: TermBlock, count: nat, n: nat, m: nat, d: nat)
    requires t.WellFormed(count) && n <= m <= |t.postings|
    ensures 0.0 <= ImpactBefore(t.postings, n, d) <= ImpactBefore(t.postings, m, d)
    ensures ImpactBefore(t.postings, m, d)
         <= ImpactBefore(t.postings, n, d) + if n < |t.postings| then t.postings[n].impact else 0.0
    decreases m
  {
    if n < m {
      ImpactBeforeBounds(t, count, n, m - 1, d);
      if t.postings[m - 1].document == d {
        ImpactBeforeAbsent(t.postings, m - 1, d);
        ImpactBeforeBounds(t, count, n, n, d);
        ImpactBeforePrefix(t.postings, n, m - 1, d);
      }
    } else if m > 0 {
      ImpactBeforeBounds(t, count, m - 1, m - 1, d);
    }
  }

  lemma {:induction false} ImpactBeforePrefix(p: PostingList, n: nat, m: nat, d: nat)
    requires n <= m <= |p| && forall i :: 0 <= i < m ==> p[i].document != d
    ensures ImpactBefore(p, n, d) == 0.0
  {
    ImpactBeforeAbsent(p, n, d);
  }

  lemma WeightedBounds(w: real, a: real, b: real, h: real)
    requires w >= 0.0 && h >= 0.0 && 0.0 <= a <= b <= a + h
    ensures 0.0 <= w * a <= w * b <= w * a + w * h
    ensures w * h >= 0.0
  {
    assert w * b == w * a + w * (b - a);
    assert w * (a + h) == w * b + w * (a + h - b);
  }

  /** What a block still owes a document is covered by its head. */
  lemma MassBounds(t: TermBlock, count: nat, n: nat, d: nat)
    requires t.WellFormed(count) && n <= |t.postings|
    ensures 0.0 <= t.Mass(n, d) <= t.Mass(|t.postings|, d) <= t.Mass(n, d) + t.Head(n)
    ensures t.Head(n) >= 0.0
  {
    ImpactBeforeBounds(t, count, n, |t.postings|, d);
    var head := if n < |t.postings| then t.postings[n].impact else 0.0;
    WeightedBounds(t.weight, ImpactBefore(t.postings, n, d), Impact(t.postings, d), head);
  }

  // ----- several terms at once -----

  ghost predicate AllWellFormed(terms: seq<TermBlock>, documentCount: nat) {
    forall o :: 0 <= o < |terms| ==> terms[o].WellFormed(documentCount)
  }

  ghost predicate Positions(terms: seq<TermBlock>, at: seq<nat>) {
    |at| == |terms| && forall o :: 0 <= o < |terms| ==> at[o] <= |terms[o].postings|
  }

  ghost function Heads(terms: seq<TermBlock>, at: seq<nat>): (r: seq<real>)
    requires Positions(terms, at)
    ensures |r| == |terms| && forall o :: 0 <= o < |r| ==> r[o] == terms[o].Head(at[o])
  {
    seq(|terms|, o requires 0 <= o < |terms| => terms[o].Head(at[o]))
  }

  ghost function Masses(terms: seq<TermBlock>, at: seq<nat>, d: nat): (r: seq<real>)
    requires Positions(terms, at)
    ensures |r| == |terms| && forall o :: 0 <= o < |r| ==> r[o] == terms[o].Mass(at[o], d)
  {
    seq(|terms|, o requires 0 <= o < |terms| => terms[o].Mass(at[o], d))
  }

  ghost function TotalMasses(terms: seq<TermBlock>, d: nat): (r: seq<real>)
    ensures |r| == |terms| && forall o :: 0 <= o < |r| ==> r[o] == terms[o].Mass(|terms[o].postings|, d)
  {
    seq(|terms|, o requires 0 <= o < |terms| => terms[o].Mass(|terms[o].postings|, d))
  }

  /** The score bound the blocks give `d` when decoded completely. */
  ghost function TotalMass(terms: seq<TermBlock>, d: nat): real {
    Sum(TotalMasses(terms, d))
  }

  function UpperBounds(terms: seq<TermBlock>): (r: seq<real>)
    ensures |r| == |terms| && forall o :: 0 <= o < |r| ==> r[o] == terms[o].UpperBound()
  {
    seq(|terms|, o requires 0 <= o < |terms| => terms[o].UpperBound())
  }

  /** `sum(term.upper_bound for term in terms)`. */
  function BlockBound(terms: seq<TermBlock>): real {
    Sum(UpperBounds(terms))
  }

  function PostingDocuments(p: PostingList): (docs: seq<nat>)
    ensures |docs| == |p| && forall i :: 0 <= i < |p| ==> docs[i] == p[i].document
  {
    seq(|p|, i requires 0 <= i < |p| => p[i].document)
  }

  lemma HoldsDocument(p: PostingList, d: nat)
    ensures d in SetOf(PostingDocuments(p)) <==> Holds(p, d)
  {
    if d in SetOf(PostingDocuments(p)) {
      var i :| 0 <= i < |p| && PostingDocuments(p)[i] == d;
    }
    if Holds(p, d) {
      var i :| 0 <= i < |p| && p[i].document == d;
      assert PostingDocuments(p)[i] == d;
    }
  }

  function ListSize(): TermBlock -> nat {
    (t: TermBlock) => |t.postings|
  }

  /** All the postings of a block. */
  function PostingCount(terms: seq<TermBlock>): nat {
    Total(terms, ListSize())
  }

  ghost function DocumentsBefore(terms: seq<TermBlock>, n: nat): set<nat>
    requires n <= |terms|
  {
    if n == 0 then {} else DocumentsBefore(terms, n - 1) + SetOf(PostingDocuments(terms[n - 1].postings))
  }

  /** The documents some block of `terms` posts. */
  ghost function DocumentsOf(terms: seq<TermBlock>): set<nat> {
    DocumentsBefore(terms, |terms|)
  }

  lemma {:induction false} PostedBefore(terms: seq<TermBlock>, n: nat, o: nat, p: nat)
    requires o < n <= |terms| && p < |terms[o].postings|
    ensures terms[o].postings[p].document in DocumentsBefore(terms, n)
  {
    if o < n - 1 {
      PostedBefore(terms, n - 1, o, p);
    } else {
      assert PostingDocuments(terms[o].postings)[p] == terms[o].postings[p].document;
    }
  }

  lemma Posted(terms: seq<TermBlock>, o: nat, p: nat)
    requires o < |terms| && p < |terms[o].postings|
    ensures terms[o].postings[p].document in DocumentsOf(terms)
  {
    PostedBefore(terms, |terms|, o, p);
  }

  lemma {:induction false} PosterBefore(terms: seq<TermBlock>, n: nat, d: nat) returns (o: nat, p: nat)
    requires n <= |terms| && d in DocumentsBefore(terms, n)
    ensures o < n && p < |terms[o].postings| && terms[o].postings[p].document == d
  {
    var docs := PostingDocuments(terms[n - 1].postings);
    if d in DocumentsBefore(terms, n - 1) {
      o, p := PosterBefore(terms, n - 1, d);
    } else {
      assert d in docs;
      o := n - 1;
      p :| 0 <= p < |docs| && docs[p] == d;
    }
  }

  /** Decoded mass plus the heads covers the total. */
  lemma TotalMassBounds(terms: seq<TermBlock>, count: nat, at: seq<nat>, d: nat)
    requires AllWellFormed(terms, count) && Positions(terms, at)
    ensures 0.0 <= Sum(Masses(terms, at, d)) <= TotalMass(terms, d)
    ensures TotalMass(terms, d) <= Sum(Masses(terms, at, d)) + Sum(Heads(terms, at))
    ensures Sum(Heads(terms, at)) >= 0.0
  {
    var m, h := Masses(terms, at, d), Heads(terms, at);
    var both := seq(|terms|, o requires 0 <= o < |terms| => m[o] + h[o]);
    forall o | 0 <= o < |terms|
      ensures 0.0 <= m[o] <= TotalMasses(terms, d)[o] <= both[o] && h[o] >= 0.0
    {
      MassBounds(terms[o], count, at[o], d);
    }
    SumNonNegative(m);
    SumNonNegative(h);
    SumMonotone(m, TotalMasses(terms, d));
    SumMonotone(TotalMasses(terms, d), both);
    SumOfSums(m, h, both);
  }

  ghost function Starts(terms: seq<TermBlock>): (at: seq<nat>)
    ensures Positions(terms, at) && forall o :: 0 <= o < |at| ==> at[o] == 0
  {
    seq(|terms|, _ => 0)
  }

  lemma HeadsAtStart(terms: seq<TermBlock>, at: seq<nat>)
    requires Positions(terms, at) && forall o :: 0 <= o < |at| ==> at[o] == 0
    ensures Heads(terms, at) == UpperBounds(terms)
  {
    forall o | 0 <= o < |terms| ensures Heads(terms, at)[o] == UpperBounds(terms)[o] {
      assert at[o] == 0;
    }
  }

  /** The sum of the upper bounds covers every document. */
  lemma BlockBoundCovers(terms: seq<TermBlock>, count: nat, d: nat)
    requires AllWellFormed(terms, count)
    ensures 0.0 <= TotalMass(terms, d) <= BlockBound(terms)
  {
    var at := Starts(terms);
    TotalMassBounds(terms, count, at, d);
    SumZero(Masses(terms, at, d));
    HeadsAtStart(terms, at);
  }
}
