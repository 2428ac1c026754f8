/**
 The frontiers over document blocks: offering whole blocks, walking each block by impact, and the batched form
 that leaves partially scored candidates pending until a batch of blocks is full.
 */
module BlockFrontiers {
  import opened Totals
  import opened Arithmetic
  import opened Ranking
  import opened Stopping
  import opened TopKState
  import opened Postings
  import opened Frontiers
  import opened Tables

  type Block = seq<TermBlock>
  type BlockMap = seq<Entry<nat, Block>>

  /** The traversal order: highest bound first, or by block id. */
  function Ordered(blocks: BlockMap, byBound: bool): seq<Block> {
    if byBound then SortBy(Values(blocks), (terms: Block) => -BlockBound(terms))
    else Values(SortBy(blocks, (entry: Entry<nat, Block>) => entry.key as real))
  }

  function BlockSize(): Block -> nat {
    (terms: Block) => PostingCount(terms)
  }

  /** All the postings of several blocks. */
  function BlockPostings(blocks: seq<Block>): nat {
    Total(blocks, BlockSize())
  }

  function EntrySize(): Entry<nat, Block> -> nat {
    (entry: Entry<nat, Block>) => PostingCount(entry.value)
  }

  lemma {:induction false} EntryPostings(blocks: BlockMap)
    ensures BlockPostings(Values(blocks)) == Total(blocks, EntrySize())
  {
    if blocks != [] {
      var n := |blocks| - 1;
      EntryPostings(blocks[..n]);
      assert Values(blocks)[..n] == Values(blocks[..n]);
    }
  }

  /** Either order decodes the same postings in the end. */
  lemma OrderedPostings(blocks: BlockMap, byBound: bool)
    ensures BlockPostings(Ordered(blocks, byBound)) == BlockPostings(Values(blocks))
  {
    if byBound {
      TotalSortBy(Values(blocks), (terms: Block) => -BlockBound(terms), BlockSize());
    } else {
      var key := (entry: Entry<nat, Block>) => entry.key as real;
      EntryPostings(blocks);
      EntryPostings(SortBy(blocks, key));
      TotalSortBy(blocks, key, EntrySize());
    }
  }

  ghost predicate DescendingBounds(blocks: seq<Block>) {
    forall i, j :: 0 <= i < j < |blocks| ==> BlockBound(blocks[i]) >= BlockBound(blocks[j])
  }

  lemma ValueIn(blocks: BlockMap, terms: Block)
    ensures terms in Values(blocks) <==> exists x :: x in blocks && x.value == terms
  {
    if terms in Values(blocks) {
      var i :| 0 <= i < |blocks| && Values(blocks)[i] == terms;
      assert blocks[i] in blocks;
    }
    if x :| x in blocks && x.value == terms {
      var i :| 0 <= i < |blocks| && blocks[i] == x;
      assert Values(blocks)[i] == terms;
    }
  }

  /** Either order visits exactly the blocks of the map. */
  lemma OrderedFacts(blocks: BlockMap, byBound: bool)
    ensures forall terms :: terms in Ordered(blocks, byBound) <==> terms in Values(blocks)
    ensures byBound ==> DescendingBounds(Ordered(blocks, byBound))
  {
    if byBound {
      var key := (terms: Block) => -BlockBound(terms);
      SortByMembers(Values(blocks), key);
      SortByFacts(Values(blocks), key);
    } else {
      var key := (entry: Entry<nat, Block>) => entry.key as real;
      SortByMembers(blocks, key);
      forall terms ensures terms in Ordered(blocks, byBound) <==> terms in Values(blocks) {
        ValueIn(blocks, terms);
        ValueIn(SortBy(blocks, key), terms);
      }
    }
  }

  lemma SameBlocksSameDocuments(a: seq<Block>, b: seq<Block>)
    requires forall terms :: terms in a ==> terms in b
    ensures BlockDocuments(a) <= BlockDocuments(b)
  {
    forall d | d in BlockDocuments(a) ensures d in BlockDocuments(b) {
      var i :| 0 <= i < |a| && d in DocumentsOf(a[i]);
      assert a[i] in b;
      var j :| 0 <= j < |b| && b[j] == a[i];
      assert d in DocumentsOf(b[j]);
    }
  }

  /** A reordering is as ready for traversal as the map it came from. */
  lemma OrderedReady(state: ExactTopK, blocks: BlockMap, byBound: bool, e: real)
    requires Ready(state, Values(blocks), e)
    ensures Ready(state, Ordered(blocks, byBound), e)
    ensures BlockDocuments(Ordered(blocks, byBound)) == BlockDocuments(Values(blocks))
    ensures InRange(state.scores, BlockDocuments(Values(blocks)))
    ensures byBound ==> DescendingBounds(Ordered(blocks, byBound))
  {
    BlocksInRange(Values(blocks), state.scores);
    var ordered, values := Ordered(blocks, byBound), Values(blocks);
    OrderedFacts(blocks, byBound);
    SameBlocksSameDocuments(ordered, values);
    SameBlocksSameDocuments(values, ordered);
    forall i | 0 <= i < |ordered|
      ensures AllWellFormed(ordered[i], |state.scores|) && SafeBlock(state.scores, state.Seen(), ordered[i])
    {
      assert ordered[i] in values;
      var j :| 0 <= j < |values| && values[j] == ordered[i];
      assert AllWellFormed(values[j], |state.scores|);
    }
  }

  lemma BlockDocumentsSnoc(blocks: seq<Block>, n: nat)
    requires n < |blocks|
    ensures BlockDocuments(blocks[..n + 1]) == BlockDocuments(blocks[..n]) + DocumentsOf(blocks[n])
  {
    var longer, shorter := blocks[..n + 1], blocks[..n];
    forall d | d in BlockDocuments(longer) ensures d in BlockDocuments(shorter) + DocumentsOf(blocks[n]) {
      var b :| 0 <= b < |longer| && d in DocumentsOf(longer[b]);
      assert b < n ==> d in DocumentsOf(shorter[b]);
    }
    forall d | d in BlockDocuments(shorter) + DocumentsOf(blocks[n]) ensures d in BlockDocuments(longer) {
      if d in BlockDocuments(shorter) {
        var b :| 0 <= b < |shorter| && d in DocumentsOf(shorter[b]);
        assert d in DocumentsOf(longer[b]);
      } else {
        assert d in DocumentsOf(longer[n]);
      }
    }
  }

  // ----- documents that are discharged or wait with a sufficient optimistic score -----

  ghost predicate Covered(scores: seq<real>, k: nat, seen: set<nat>, e: real, pending: map<nat, real>, d: nat)
    requires InRange(scores, seen) && d < |scores|
  {
    Discharged(scores, k, seen, e, d) || (d in pending && scores[d] <= pending[d])
  }

  ghost predicate AllCovered(
      scores: seq<real>, k: nat, seen: set<nat>, e: real, pending: map<nat, real>, docs: set<nat>)
    requires InRange(scores, seen)
  {
    forall d :: d in docs && d < |scores| ==> Covered(scores, k, seen, e, pending, d)
  }

  ghost predicate BlocksSafe(scores: seq<real>, seeds: set<nat>, blocks: seq<Block>) {
    forall b :: 0 <= b < |blocks| ==> AllWellFormed(blocks[b], |scores|) && SafeBlock(scores, seeds, blocks[b])
  }

  /** A block whose bound passes the stop test needs no visit. */
  lemma StopDischargesBlock(state: ExactTopK, seeds: set<nat>, terms: Block, e: real)
    requires state.Valid() && e >= 0.0 && AllWellFormed(terms, |state.scores|)
    requires SafeBlock(state.scores, seeds, terms) && seeds <= state.Seen()
    requires state.CanStop(BlockBound(terms), e)
    ensures AllDischarged(state.scores, state.k, state.Seen(), e, DocumentsOf(terms))
  {
    forall d | d in DocumentsOf(terms) && d < |state.scores|
      ensures Discharged(state.scores, state.k, state.Seen(), e, d)
    {
      if d !in seeds {
        BlockBoundCovers(terms, |state.scores|, d);
        state.StopDischarges(BlockBound(terms), e, d);
      }
    }
  }

  /** In descending order, every block after one that passes the stop test passes it too. */
  lemma LaterBlocksStop(state: ExactTopK, blocks: seq<Block>, n: nat, b: nat, e: real)
    requires n <= b < |blocks| && DescendingBounds(blocks) && state.CanStop(BlockBound(blocks[n]), e)
    ensures state.CanStop(BlockBound(blocks[b]), e)
  {
    StopTestShrinks(state.ThresholdValue(), BlockBound(blocks[n]), BlockBound(blocks[b]), e);
  }

  /** So the first block to pass discharges all that follow. */
  lemma StopDischargesRest(state: ExactTopK, seeds: set<nat>, blocks: seq<Block>, n: nat, e: real)
    requires state.Valid() && e >= 0.0 && n < |blocks| && seeds <= state.Seen()
    requires BlocksSafe(state.scores, seeds, blocks)
    requires DescendingBounds(blocks) && state.CanStop(BlockBound(blocks[n]), e)
    ensures forall d :: d in BlockDocuments(blocks) && d < |state.scores| && d !in BlockDocuments(blocks[..n]) ==>
      Discharged(state.scores, state.k, state.Seen(), e, d)
  {
    forall d | d in BlockDocuments(blocks) && d < |state.scores| && d !in BlockDocuments(blocks[..n])
      ensures Discharged(state.scores, state.k, state.Seen(), e, d)
    {
      var b :| 0 <= b < |blocks| && d in DocumentsOf(blocks[b]);
      if b < n {
        InPrefix(blocks, n, b, d);
        assert false;
      }
      LaterBlocksStop(state, blocks, n, b, e);
      StopDischargesBlock(state, seeds, blocks[b], e);
    }
  }

  lemma InPrefix(blocks: seq<Block>, n: nat, b: nat, d: nat)
    requires b < n <= |blocks| && d in DocumentsOf(blocks[b])
    ensures d in BlockDocuments(blocks[..n])
  {
    assert d in DocumentsOf(blocks[..n][b]);
  }

  lemma AllDischargedStays(scores: seq<real>, k: nat, seen: set<nat>, more: set<nat>, e: real, docs: set<nat>)
    requires InRange(scores, more) && seen <= more
    requires AllDischarged(scores, k, seen, e, docs)
    ensures AllDischarged(scores, k, more, e, docs)
  {
    forall d | d in docs && d < |scores| ensures Discharged(scores, k, more, e, d) {
      DischargedStays(scores, k, seen, more, e, d);
    }
  }

  // ----- frontiers that offer as they go -----

  /** Between blocks of an eager frontier: everything of the visited blocks is discharged. */
  ghost predicate Eager(state: ExactTopK, seeds: set<nat>, e: real, done: set<nat>)
    reads state, state.seen
  {
    && state.Valid() && NonNegative(state.scores) && e >= 0.0
    && seeds <= state.Seen() <= seeds + done
    && AllDischarged(state.scores, state.k, state.Seen(), e, done)
  }

  /** In descending order, the first block to pass the stop test discharges all that follow. */
  lemma EagerStop(state: ExactTopK, seeds: set<nat>, blocks: seq<Block>, n: nat, e: real)
    requires n < |blocks| && Eager(state, seeds, e, BlockDocuments(blocks[..n]))
    requires BlocksSafe(state.scores, seeds, blocks)
    requires DescendingBounds(blocks) && state.CanStop(BlockBound(blocks[n]), e)
    ensures Eager(state, seeds, e, BlockDocuments(blocks))
  {
    StopDischargesRest(state, seeds, blocks, n, e);
    SameBlocksSameDocuments(blocks[..n], blocks);
  }

  /** One block: all of it document by document, or by impact until the rest cannot matter. */
  method OfferBlock(
      state: ExactTopK, ghost seeds: set<nat>, terms: Block, e: real, whole: bool, ghost done: set<nat>)
    returns (decoded: nat, admitted: nat)
    requires Eager(state, seeds, e, done)
    requires AllWellFormed(terms, |state.scores|) && SafeBlock(state.scores, seeds, terms)
    modifies state, state.seen
    ensures Eager(state, seeds, e, done + DocumentsOf(terms))
    ensures admitted == |state.Seen()| - |old(state.Seen())| && decoded <= PostingCount(terms)
  {
    ghost var seen := state.Seen();
    if whole {
      decoded, admitted := OfferUnion(state, terms);
    } else {
      decoded, admitted := OfferByImpact(state, terms, e);
    }
    AllDischargedStays(state.scores, state.k, seen, state.Seen(), e, done);
  }

  /** The loop of the eager block frontiers, which differ only in how they walk a block. */
  method OfferBlocks(state: ExactTopK, ghost seeds: set<nat>, ordered: seq<Block>, e: real, whole: bool)
    returns (decoded: nat, admitted: nat)
    requires Eager(state, seeds, e, {}) && BlocksSafe(state.scores, seeds, ordered) && DescendingBounds(ordered)
    modifies state, state.seen
    ensures Eager(state, seeds, e, BlockDocuments(ordered))
    ensures admitted == |state.Seen()| - |old(state.Seen())| && decoded <= BlockPostings(ordered)
  {
    decoded, admitted := 0, 0;
    assert BlockDocuments(ordered[..0]) == {};
    for i := 0 to |ordered|
      invariant Eager(state, seeds, e, BlockDocuments(ordered[..i]))
      invariant admitted == |state.Seen()| - |old(state.Seen())|
      invariant decoded <= BlockPostings(ordered[..i])
    {
      var terms := ordered[i];
      PostingsReached(ordered, i);
      if state.CanStop(BlockBound(terms), e) {
        EagerStop(state, seeds, ordered, i, e);
        return;
      }
      BlockDocumentsSnoc(ordered, i);
      TotalSnoc(ordered, i, BlockSize());
      var d, a := OfferBlock(state, seeds, terms, e, whole, BlockDocuments(ordered[..i]));
      decoded, admitted := decoded + d, admitted + a;
    }
    assert ordered[..|ordered|] == ordered;
  }

  method BlockOnlyFrontier(state: ExactTopK, blocks: BlockMap, e: real) returns (row: VariantRow)
    requires Ready(state, Values(blocks), e)
    modifies state, state.seen
    ensures state.Valid()
    ensures Answers(state.scores, state.k, old(state.Seen()) + BlockDocuments(Values(blocks)), e, row.topDocuments)
    ensures Scored(
      |state.scores|, state.k, old(state.Seen()), BlockDocuments(Values(blocks)), state.Seen(), row.admittedDocuments)
    ensures row.decodedPostings <= BlockPostings(Values(blocks))
  {
    row := EagerFrontier(state, blocks, e, true);
  }

  method BlockImpactFrontier(state: ExactTopK, blocks: BlockMap, e: real) returns (row: VariantRow)
    requires Ready(state, Values(blocks), e)
    modifies state, state.seen
    ensures state.Valid()
    ensures Answers(state.scores, state.k, old(state.Seen()) + BlockDocuments(Values(blocks)), e, row.topDocuments)
    ensures Scored(
      |state.scores|, state.k, old(state.Seen()), BlockDocuments(Values(blocks)), state.Seen(), row.admittedDocuments)
    ensures row.decodedPostings <= BlockPostings(Values(blocks))
  {
    row := EagerFrontier(state, blocks, e, false);
  }

  method EagerFrontier(state: ExactTopK, blocks: BlockMap, e: real, whole: bool) returns (row: VariantRow)
    requires Ready(state, Values(blocks), e)
    modifies state, state.seen
    ensures state.Valid()
    ensures Answers(state.scores, state.k, old(state.Seen()) + BlockDocuments(Values(blocks)), e, row.topDocuments)
    ensures Scored(
      |state.scores|, state.k, old(state.Seen()), BlockDocuments(Values(blocks)), state.Seen(), row.admittedDocuments)
    ensures row.decodedPostings <= BlockPostings(Values(blocks))
  {
    ghost var seeds := state.Seen();
    OrderedReady(state, blocks, true, e);
    OrderedPostings(blocks, true);
    var ordered := Ordered(blocks, true);
    var decoded, admitted := OfferBlocks(state, seeds, ordered, e, whole);
    var top := FinishRow(state, seeds, ordered, e);
    row := VariantRow(decoded, admitted, MetadataEntries(blocks), top);
  }

  function MetadataEntries(blocks: BlockMap): nat {
    if blocks == [] then 0 else |blocks[0].value| + MetadataEntries(blocks[1..])
  }

  // ----- the batched frontier -----

  lemma AllCoveredStays(
      scores: seq<real>, k: nat, seen: set<nat>, more: set<nat>, e: real,
      pending: map<nat, real>, wider: map<nat, real>, docs: set<nat>)
    requires InRange(scores, more) && seen <= more
    requires AllCovered(scores, k, seen, e, pending, docs)
    requires forall d :: d in pending && d < |scores| && scores[d] <= pending[d] ==>
      Covered(scores, k, more, e, wider, d)
    ensures AllCovered(scores, k, more, e, wider, docs)
  {
    forall d | d in docs && d < |scores| ensures Covered(scores, k, more, e, wider, d) {
      assert Covered(scores, k, seen, e, pending, d);
      if Discharged(scores, k, seen, e, d) { DischargedStays(scores, k, seen, more, e, d); }
    }
  }

  /** What waits in `pending` are documents of `docs`. */
  ghost predicate Waiting(state: ExactTopK, pending: map<nat, real>, docs: set<nat>)
    reads state
  {
    forall d :: d in pending ==> d < |state.scores| && d in docs
  }

  /** Between blocks: every document of `done` is discharged or waits under a sufficient optimistic score. */
  ghost predicate Progress(state: ExactTopK, seeds: set<nat>, e: real, pending: map<nat, real>, done: set<nat>)
    reads state, state.seen
  {
    && state.Valid() && NonNegative(state.scores) && e >= 0.0
    && seeds <= state.Seen() <= seeds + done
    && AllCovered(state.scores, state.k, state.Seen(), e, pending, done)
    && Waiting(state, pending, done)
  }

  /** Documents discharged without a visit count as done. */
  lemma SkipProgress(
      state: ExactTopK, seeds: set<nat>, e: real, pending: map<nat, real>, done: set<nat>, docs: set<nat>)
    requires Progress(state, seeds, e, pending, done)
    requires AllDischarged(state.scores, state.k, state.Seen(), e, docs - done)
    ensures Progress(state, seeds, e, pending, done + docs)
  {
    forall d | d in done + docs && d < |state.scores|
      ensures Covered(state.scores, state.k, state.Seen(), e, pending, d)
    {
      assert d !in done ==> d in docs - done;
    }
  }

  lemma ReachedStep(done: set<nat>, blocks: seq<Block>, n: nat)
    requires n < |blocks|
    ensures done + BlockDocuments(blocks[..n]) + DocumentsOf(blocks[n]) == done + BlockDocuments(blocks[..n + 1])
  {
    BlockDocumentsSnoc(blocks, n);
  }

  lemma PostingsReached(blocks: seq<Block>, n: nat)
    requires n < |blocks|
    ensures BlockPostings(blocks[..n]) <= BlockPostings(blocks[..n + 1]) <= BlockPostings(blocks)
  {
    TotalSnoc(blocks, n, BlockSize());
    TotalPrefix(blocks, n + 1, BlockSize());
  }

  lemma ReachedEnds(done: set<nat>, blocks: seq<Block>)
    ensures done + BlockDocuments(blocks[..0]) == done
    ensures blocks[..|blocks|] == blocks
  {
  }

  lemma StopCoversRest(
      state: ExactTopK, seeds: set<nat>, blocks: seq<Block>, n: nat, e: real, pending: map<nat, real>, done: set<nat>)
    requires n < |blocks| && Progress(state, seeds, e, pending, done + BlockDocuments(blocks[..n]))
    requires BlocksSafe(state.scores, seeds, blocks)
    requires DescendingBounds(blocks) && state.CanStop(BlockBound(blocks[n]), e)
    ensures Progress(state, seeds, e, pending, done + BlockDocuments(blocks))
  {
    StopDischargesRest(state, seeds, blocks, n, e);
    SameBlocksSameDocuments(blocks[..n], blocks);
    SkipProgress(state, seeds, e, pending, done + BlockDocuments(blocks[..n]), BlockDocuments(blocks));
    assert done + BlockDocuments(blocks[..n]) + BlockDocuments(blocks) == done + BlockDocuments(blocks);
  }

  /**
   One block of the batched frontiers: decode it by impact, leave its documents pending under partial score plus
   remaining bound, and resolve all that is pending when the batch is full.
   */
  method DecodeBlock(
      state: ExactTopK, ghost seeds: set<nat>, terms: Block, e: real, batchSize: nat,
      pending: map<nat, real>, pendingBlocks: nat, ghost done: set<nat>)
    returns (waiting: map<nat, real>, waitingBlocks: nat, decoded: nat, resolved: nat)
    requires AllWellFormed(terms, |state.scores|) && SafeBlock(state.scores, seeds, terms)
    requires Progress(state, seeds, e, pending, done)
    modifies state, state.seen
    ensures Progress(state, seeds, e, waiting, done + DocumentsOf(terms))
    ensures resolved == |state.Seen()| - |old(state.Seen())| && decoded <= PostingCount(terms)
  {
    var partials, upper;
    partials, upper, decoded := DecodeByImpact(state, terms, e);
    waiting := pending + Optimistic(partials, upper);
    LeftoversDischarged(state, seeds, terms, e, partials, upper);
    BlockIsCovered(state, seeds, terms, e, partials, upper, pending, done);
    waitingBlocks, resolved := pendingBlocks + 1, 0;
    if batchSize > 0 && waitingBlocks >= batchSize {
      resolved := Flush(state, seeds, e, waiting, done + DocumentsOf(terms));
      waiting, waitingBlocks := map[], 0;
    }
  }

  /** Resolving everything pending leaves nothing waiting. */
  method Flush(state: ExactTopK, ghost seeds: set<nat>, e: real, pending: map<nat, real>, ghost done: set<nat>)
    returns (resolved: nat)
    requires Progress(state, seeds, e, pending, done)
    modifies state, state.seen
    ensures Progress(state, seeds, e, map[], done)
    ensures resolved == |state.Seen()| - |old(state.Seen())|
  {
    ghost var seen := state.Seen();
    resolved := ResolveBoundedCandidates(state, pending, e);
    AllCoveredStays(state.scores, state.k, seen, state.Seen(), e, pending, map[], done);
  }

  /** Putting the optimistic scores of one block over the pending ones covers that block too. */
  lemma BlockIsCovered(
      state: ExactTopK, seeds: set<nat>, terms: Block, e: real,
      partials: map<nat, real>, upper: real, pending: map<nat, real>, done: set<nat>)
    requires Progress(state, seeds, e, pending, done) && SafeBlock(state.scores, seeds, terms)
    requires forall d :: d in partials ==> d < |state.scores|
    requires forall d :: d in partials ==> d in DocumentsOf(terms) && TotalMass(terms, d) <= partials[d] + upper
    requires AllDischarged(state.scores, state.k, state.Seen(), e, DocumentsOf(terms) - partials.Keys)
    ensures Progress(state, seeds, e, pending + Optimistic(partials, upper), done + DocumentsOf(terms))
  {
    var waiting := pending + Optimistic(partials, upper);
    forall d | d in done + DocumentsOf(terms) && d < |state.scores|
      ensures Covered(state.scores, state.k, state.Seen(), e, waiting, d)
    {
      if d in state.Seen() {
      } else if d in DocumentsOf(terms) {
        assert state.scores[d] <= TotalMass(terms, d);
      } else {
        assert Covered(state.scores, state.k, state.Seen(), e, pending, d);
        assert d !in partials;
      }
    }
  }

  /** Out of order, a block that passes the stop test is skipped on its own. */
  lemma StopCoversBlock(
      state: ExactTopK, seeds: set<nat>, blocks: seq<Block>, n: nat, e: real, pending: map<nat, real>, done: set<nat>)
    requires n < |blocks| && Progress(state, seeds, e, pending, done + BlockDocuments(blocks[..n]))
    requires AllWellFormed(blocks[n], |state.scores|) && SafeBlock(state.scores, seeds, blocks[n])
    requires state.CanStop(BlockBound(blocks[n]), e)
    ensures Progress(state, seeds, e, pending, done + BlockDocuments(blocks[..n + 1]))
  {
    StopDischargesBlock(state, seeds, blocks[n], e);
    SkipProgress(state, seeds, e, pending, done + BlockDocuments(blocks[..n]), DocumentsOf(blocks[n]));
    ReachedStep(done, blocks, n);
  }

  /** Block `n` of the batched frontiers, when it cannot be skipped. */
  method NextBlock(
      state: ExactTopK, ghost seeds: set<nat>, ordered: seq<Block>, n: nat, e: real, batchSize: nat,
      pending: map<nat, real>, pendingBlocks: nat, ghost done: set<nat>)
    returns (waiting: map<nat, real>, waitingBlocks: nat, decoded: nat, resolved: nat)
    requires n < |ordered| && BlocksSafe(state.scores, seeds, ordered)
    requires Progress(state, seeds, e, pending, done + BlockDocuments(ordered[..n]))
    modifies state, state.seen
    ensures Progress(state, seeds, e, waiting, done + BlockDocuments(ordered[..n + 1]))
    ensures resolved == |state.Seen()| - |old(state.Seen())|
    ensures decoded + BlockPostings(ordered[..n]) <= BlockPostings(ordered[..n + 1])
  {
    ReachedStep(done, ordered, n);
    TotalSnoc(ordered, n, BlockSize());
    waiting, waitingBlocks, decoded, resolved := DecodeBlock(
      state, seeds, ordered[n], e, batchSize, pending, pendingBlocks, done + BlockDocuments(ordered[..n]));
  }

  /** The loop of the batched frontiers: stop at the first block that cannot matter, or skip such blocks. */
  method VisitBlocks(
      state: ExactTopK, ghost seeds: set<nat>, ordered: seq<Block>, e: real, batchSize: nat, byBound: bool,
      pending: map<nat, real>, pendingBlocks: nat, ghost done: set<nat>)
    returns (waiting: map<nat, real>, waitingBlocks: nat, decoded: nat, resolved: nat)
    requires BlocksSafe(state.scores, seeds, ordered)
    requires byBound ==> DescendingBounds(ordered)
    requires Progress(state, seeds, e, pending, done)
    modifies state, state.seen
    ensures Progress(state, seeds, e, waiting, done + BlockDocuments(ordered))
    ensures resolved == |state.Seen()| - |old(state.Seen())| && decoded <= BlockPostings(ordered)
  {
    waiting, waitingBlocks := pending, pendingBlocks;
    decoded, resolved := 0, 0;
    ReachedEnds(done, ordered);
    for i := 0 to |ordered|
      invariant Progress(state, seeds, e, waiting, done + BlockDocuments(ordered[..i]))
      invariant resolved == |state.Seen()| - |old(state.Seen())| && decoded <= BlockPostings(ordered[..i])
    {
      PostingsReached(ordered, i);
      if state.CanStop(BlockBound(ordered[i]), e) {
        if byBound {
          StopCoversRest(state, seeds, ordered, i, e, waiting, done);
          return;
        }
        StopCoversBlock(state, seeds, ordered, i, e, waiting, done);
      } else {
        var d, r;
        waiting, waitingBlocks, d, r :=
          NextBlock(state, seeds, ordered, i, e, batchSize, waiting, waitingBlocks, done);
        decoded, resolved := decoded + d, resolved + r;
      }
    }
  }

  method BlockImpactBatchedFrontier(
      state: ExactTopK, blocks: BlockMap, e: real, batchSize: nat, byBound: bool)
    returns (row: VariantRow)
    requires Ready(state, Values(blocks), e)
    modifies state, state.seen
    ensures state.Valid()
    ensures Answers(state.scores, state.k, old(state.Seen()) + BlockDocuments(Values(blocks)), e, row.topDocuments)
    ensures Scored(
      |state.scores|, state.k, old(state.Seen()), BlockDocuments(Values(blocks)), state.Seen(), row.admittedDocuments)
    ensures row.decodedPostings <= BlockPostings(Values(blocks))
  {
    ghost var seeds := state.Seen();
    OrderedReady(state, blocks, byBound, e);
    OrderedPostings(blocks, byBound);
    var ordered := Ordered(blocks, byBound);
    var pending, pendingBlocks, decoded, resolved :=
      VisitBlocks(state, seeds, ordered, e, batchSize, byBound, map[], 0, {});
    assert {} + BlockDocuments(ordered) == BlockDocuments(ordered);
    var r, top := ResolveAndFinish(state, seeds, ordered, e, pending);
    row := VariantRow(decoded, resolved + r, MetadataEntries(blocks), top);
  }

  /** The end of the batched frontiers: resolve what is still pending, then finish. */
  method ResolveAndFinish(
      state: ExactTopK, ghost seeds: set<nat>, ghost blocks: seq<Block>, e: real, pending: map<nat, real>)
    returns (resolved: nat, top: seq<nat>)
    requires SafeBlocks(state.scores, seeds, blocks) && InRange(state.scores, BlockDocuments(blocks))
    requires Progress(state, seeds, e, pending, BlockDocuments(blocks))
    modifies state, state.seen
    ensures state.Valid()
    ensures Answers(state.scores, state.k, seeds + BlockDocuments(blocks), e, top)
    ensures Scored(
      |state.scores|, state.k, seeds, BlockDocuments(blocks), state.Seen(), |old(state.Seen())| + resolved - |seeds|)
  {
    resolved := Flush(state, seeds, e, pending, BlockDocuments(blocks));
    forall d | d in BlockDocuments(blocks) && d < |state.scores|
      ensures Discharged(state.scores, state.k, state.Seen(), e, d)
    {
      assert Covered(state.scores, state.k, state.Seen(), e, map[], d);
    }
    top := FinishRow(state, seeds, blocks, e);
  }

  /** `block_impact_lazy_frontier`: a batch of one block. */
  method BlockImpactLazyFrontier(state: ExactTopK, blocks: BlockMap, e: real) returns (row: VariantRow)
    requires Ready(state, Values(blocks), e)
    modifies state, state.seen
    ensures state.Valid()
    ensures Answers(state.scores, state.k, old(state.Seen()) + BlockDocuments(Values(blocks)), e, row.topDocuments)
    ensures Scored(
      |state.scores|, state.k, old(state.Seen()), BlockDocuments(Values(blocks)), state.Seen(), row.admittedDocuments)
    ensures row.decodedPostings <= BlockPostings(Values(blocks))
  {
    row := BlockImpactBatchedFrontier(state, blocks, e, 1, true);
  }
}
