/**
 The loop all impact frontiers share: one cursor per term block, a queue that yields the cursor with the
 largest head, and the running upper bound, which is the sum of the heads. The eager form offers each decoded
 document; the lazy form accumulates partial scores and leaves the offering to a later resolution.
 */
module Cursors {
  import opened Heapq
  import opened Sums
  import opened Postings

  function CursorItem(terms: seq<TermBlock>, at: seq<nat>, o: nat): Item
    requires o < |terms| && o < |at|
  {
    Item(-terms[o].Head(at[o]), o)
  }

  /** The queue holds exactly the cursors that still have a posting, each under its current head. */
  ghost predicate Tracks(terms: seq<TermBlock>, at: seq<nat>, heap: seq<Item>) {
    && Positions(terms, at)
    && Ascending(heap)
    && (forall x :: x in heap ==>
          0 <= x.id < |terms| && at[x.id] < |terms[x.id].postings| && x == CursorItem(terms, at, x.id))
    && (forall o {:trigger CursorItem(terms, at, o)} :: 0 <= o < |terms| && at[o] < |terms[o].postings| ==>
          CursorItem(terms, at, o) in heap)
  }

  /** The running bound is the sum of the heads. */
  ghost predicate OnTrack(terms: seq<TermBlock>, at: seq<nat>, heap: seq<Item>, upper: real) {
    Tracks(terms, at, heap) && upper == Sum(Heads(terms, at))
  }

  /** The other cursors are unaffected when the cursor at the head of the queue moves. */
  lemma RestTracks(terms: seq<TermBlock>, at: seq<nat>, heap: seq<Item>)
    requires heap != [] && Tracks(terms, at, heap)
    ensures heap[0] in heap
    ensures var o := heap[0].id; var after := at[o := at[o] + 1];
      && Positions(terms, after)
      && Ascending(heap[1..])
      && (forall x :: x in heap[1..] ==> x.id != o && x in heap && x == CursorItem(terms, after, x.id))
      && (forall c {:trigger CursorItem(terms, after, c)} ::
            0 <= c < |terms| && c != o && after[c] < |terms[c].postings| ==> CursorItem(terms, after, c) in heap[1..])
  {
    assert heap[0] in heap;
    assert heap == [heap[0]] + heap[1..];
    var o := heap[0].id;
    var after := at[o := at[o] + 1];
    forall x | x in heap[1..] ensures x.id != o && x in heap && x == CursorItem(terms, after, x.id) {
      assert x != heap[0];
      assert x == CursorItem(terms, at, x.id);
      assert heap[0] == CursorItem(terms, at, o);
    }
    forall c {:trigger CursorItem(terms, after, c)} | 0 <= c < |terms| && c != o && after[c] < |terms[c].postings|
      ensures CursorItem(terms, after, c) in heap[1..]
    {
      assert CursorItem(terms, at, c) in heap;
    }
  }

  /** The queue after one step: the moved cursor comes back unless it is exhausted. */
  ghost function Requeued(terms: seq<TermBlock>, at: seq<nat>, heap: seq<Item>): (next: seq<Item>)
    requires heap != [] && Tracks(terms, at, heap)
    ensures heap[0] in heap
    ensures var o := heap[0].id; Tracks(terms, at[o := at[o] + 1], next)
  {
    RestTracks(terms, at, heap);
    var o := heap[0].id;
    var after := at[o := at[o] + 1];
    if after[o] < |terms[o].postings| then
      Push(heap[1..], CursorItem(terms, after, o))
    else
      heap[1..]
  }

  lemma NoCursorsLeft(terms: seq<TermBlock>, at: seq<nat>, d: nat)
    requires Tracks(terms, at, [])
    ensures Sum(Masses(terms, at, d)) == TotalMass(terms, d)
    ensures Sum(Heads(terms, at)) == 0.0
  {
    forall o | 0 <= o < |terms| ensures at[o] == |terms[o].postings| {
      var _ := CursorItem(terms, at, o);
    }
    assert Masses(terms, at, d) == TotalMasses(terms, d);
    SumZero(Heads(terms, at));
  }

  /** The running bound after one step. */
  lemma HeadStep(terms: seq<TermBlock>, count: nat, at: seq<nat>, o: nat)
    requires AllWellFormed(terms, count)
    requires Positions(terms, at) && o < |terms| && at[o] < |terms[o].postings|
    ensures var after := at[o := at[o] + 1];
      && Positions(terms, after)
      && Sum(Heads(terms, after)) == Sum(Heads(terms, at)) - terms[o].Head(at[o]) + terms[o].Head(at[o] + 1)
      && Sum(Heads(terms, after)) >= 0.0
  {
    var after := at[o := at[o] + 1];
    assert Heads(terms, after) == Heads(terms, at)[o := terms[o].Head(at[o] + 1)];
    SumUpdate(Heads(terms, at), o, terms[o].Head(at[o] + 1));
    TotalMassBounds(terms, count, after, 0);
  }

  /** Cursor `o` stands on the posting of `document`, which contributes `gain`. */
  ghost predicate StandsOn(terms: seq<TermBlock>, at: seq<nat>, o: int, document: nat, gain: real) {
    && 0 <= o < |terms| && Positions(terms, at) && at[o] < |terms[o].postings|
    && document == terms[o].postings[at[o]].document
    && gain == terms[o].weight * terms[o].postings[at[o]].impact
  }

  lemma TermMassStep(t: TermBlock, count: nat, n: nat, gain: real, d: nat)
    requires t.WellFormed(count) && n < |t.postings| && gain == t.weight * t.postings[n].impact
    ensures t.Mass(n + 1, d) == t.Mass(n, d) + if t.postings[n].document == d then gain else 0.0
  {
    if t.postings[n].document == d {
      ImpactBeforeAbsent(t.postings, n, d);
    }
  }

  /** What one decoded posting adds to the mass of a document. */
  lemma MassStep(
      terms: seq<TermBlock>, count: nat, at: seq<nat>, o: nat, document: nat, gain: real, d: nat)
    requires AllWellFormed(terms, count) && StandsOn(terms, at, o, document, gain)
    ensures var after := at[o := at[o] + 1];
      && Positions(terms, after)
      && Sum(Masses(terms, after, d)) == Sum(Masses(terms, at, d)) + if document == d then gain else 0.0
  {
    TermMassStep(terms[o], count, at[o], gain, d);
    MassesUpdate(terms, at, o, d);
  }

  lemma MassesUpdate(terms: seq<TermBlock>, at: seq<nat>, o: nat, d: nat)
    requires Positions(terms, at) && o < |terms| && at[o] < |terms[o].postings|
    ensures Positions(terms, at[o := at[o] + 1])
    ensures Sum(Masses(terms, at[o := at[o] + 1], d))
         == Sum(Masses(terms, at, d)) - terms[o].Mass(at[o], d) + terms[o].Mass(at[o] + 1, d)
  {
    assert Masses(terms, at[o := at[o] + 1], d) == Masses(terms, at, d)[o := terms[o].Mass(at[o] + 1, d)];
    SumUpdate(Masses(terms, at, d), o, terms[o].Mass(at[o] + 1, d));
  }

  /** The number of postings no cursor has passed yet. */
  ghost function Undecoded(terms: seq<TermBlock>, at: seq<nat>): nat
    requires Positions(terms, at)
  {
    if terms == [] then 0
    else
      var n := |terms| - 1;
      Undecoded(terms[..n], at[..n]) + |terms[n].postings| - at[n]
  }

  lemma {:induction false} UndecodedStep(terms: seq<TermBlock>, at: seq<nat>, o: nat)
    requires Positions(terms, at) && o < |terms| && at[o] < |terms[o].postings|
    ensures var after := at[o := at[o] + 1];
      Positions(terms, after) && Undecoded(terms, after) == Undecoded(terms, at) - 1
  {
    var after := at[o := at[o] + 1];
    var n := |terms| - 1;
    if o == n {
      assert after[..n] == at[..n];
    } else {
      assert after[..n] == at[..n][o := at[o] + 1];
      UndecodedStep(terms[..n], at[..n], o);
    }
  }

  lemma {:induction false} UndecodedAtStart(terms: seq<TermBlock>, at: seq<nat>)
    requires |at| == |terms| && forall o :: 0 <= o < |at| ==> at[o] == 0
    ensures Undecoded(terms, at) == PostingCount(terms)
  {
    if terms != [] { UndecodedAtStart(terms[..|terms| - 1], at[..|terms| - 1]); }
  }

  method StartCursors(terms: seq<TermBlock>) returns (positions: array<nat>, heap: seq<Item>, upper: real)
    requires forall o :: 0 <= o < |terms| ==> |terms[o].postings| > 0
    ensures fresh(positions)
    ensures OnTrack(terms, positions[..], heap, upper)
    ensures forall o :: 0 <= o < positions.Length ==> positions[o] == 0
    ensures upper == BlockBound(terms)
  {
    positions := new nat[|terms|](_ => 0);
    heap, upper := [], 0.0;
    ghost var at := positions[..];
    for offset := 0 to |terms|
      invariant positions[..] == at
      invariant Ascending(heap)
      invariant forall x :: x in heap ==> 0 <= x.id < offset && x == CursorItem(terms, at, x.id)
      invariant forall o {:trigger CursorItem(terms, at, o)} :: 0 <= o < offset ==> CursorItem(terms, at, o) in heap
      invariant upper == Sum(UpperBounds(terms)[..offset])
    {
      var contribution := terms[offset].UpperBound();
      SumAppend(UpperBounds(terms)[..offset], [contribution]);
      assert UpperBounds(terms)[..offset + 1] == UpperBounds(terms)[..offset] + [contribution];
      upper := upper + contribution;
      assert CursorItem(terms, at, offset) == Item(-contribution, offset);
      heap := Push(heap, Item(-contribution, offset));
    }
    assert UpperBounds(terms)[..|terms|] == UpperBounds(terms);
    HeadsAtStart(terms, at);
  }

  lemma PostedInRange(terms: seq<TermBlock>, count: nat, o: nat, p: nat)
    requires AllWellFormed(terms, count) && o < |terms| && p < |terms[o].postings|
    ensures terms[o].postings[p].document < count
    ensures terms[o].postings[p].document in DocumentsOf(terms)
  {
    assert terms[o].WellFormed(count);
    Posted(terms, o, p);
  }

  /** The rounding guard of the running bound; over the reals it never fires. */
  function Clamped(upper: real): real {
    if upper < 0.0 && upper > -0.000000001 then 0.0 else upper
  }

  /** Pops the cursor with the largest head, moves it, and brings queue and bound up to date. */
  method PopPosting(terms: seq<TermBlock>, ghost count: nat, positions: array<nat>, heap: seq<Item>, upper: real)
    returns (next: seq<Item>, bound: real, document: nat, gain: real)
    requires AllWellFormed(terms, count)
    requires heap != [] && OnTrack(terms, positions[..], heap, upper)
    modifies positions
    ensures OnTrack(terms, positions[..], next, bound) && bound >= 0.0
    ensures heap[0] in heap
    ensures StandsOn(terms, old(positions[..]), heap[0].id, document, gain)
    ensures positions[..] == var o := heap[0].id; old(positions[..])[o := old(positions[o]) + 1]
    ensures document < count && document in DocumentsOf(terms)
    ensures Undecoded(terms, positions[..]) == old(Undecoded(terms, positions[..])) - 1
  {
    ghost var at := positions[..];
    RestTracks(terms, at, heap);
    var offset := heap[0].id;
    var oldContribution := -heap[0].key;
    var current: nat := positions[offset];
    var term := terms[offset];
    document := term.postings[current].document;
    gain := term.weight * term.postings[current].impact;
    assert StandsOn(terms, at, offset, document, gain);
    assert heap[0] == CursorItem(terms, at, offset);
    PostedInRange(terms, count, offset, current);
    HeadStep(terms, count, at, offset);
    UndecodedStep(terms, at, offset);
    var position: nat := current + 1;
    positions[offset] := position;
    assert positions[..] == at[offset := position];
    next := heap[1..];
    var newContribution := term.Head(position);
    if position < |term.postings| {
      assert Item(-newContribution, offset) == CursorItem(terms, at[offset := position], offset);
      next := Push(next, Item(-newContribution, offset));
    }
    assert next == Requeued(terms, at, heap);
    bound := Clamped(upper + newContribution - oldContribution);
  }
}
