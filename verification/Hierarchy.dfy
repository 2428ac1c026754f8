/**
 The two-level frontier: a coarse directory keeps, for each superblock and term, the largest bound of the term in
 any fine block below, and a superblock whose bounds add up to nothing competitive is never opened.
 */
module Hierarchy {
  import opened Totals
  import opened Arithmetic
  import opened Results
  import opened Ranking
  import opened Stopping
  import opened TopKState
  import opened Postings
  import opened Frontiers
  import opened Tables
  import opened KeyedSums
  import opened BlockFrontiers

  type BoundMap = seq<Entry<nat, real>>
  type SuperMap = seq<Entry<nat, BlockMap>>
  type SuperBounds = seq<Entry<nat, BoundMap>>

  // ----- what the directory holds, said without building it -----

  function Max(x: real, y: real): real {
    if x < y then y else x
  }

  /** The largest bound `terms` holds for `termId`, and at least zero. */
  function TermMax(terms: Block, termId: nat): real {
    if terms == [] then 0.0
    else
      var n := |terms| - 1;
      if terms[n].termId == termId then Max(TermMax(terms[..n], termId), terms[n].UpperBound())
      else TermMax(terms[..n], termId)
  }

  /** The largest bound for `termId` in any fine block under superblock `super`. */
  function SuperMax(fine: BlockMap, shift: nat, super: nat, termId: nat): real
  {
    if fine == [] then 0.0
    else
      var n := |fine| - 1;
      if ShiftRight(fine[n].key, shift) == super then
        Max(SuperMax(fine[..n], shift, super, termId), TermMax(fine[n].value, termId))
      else SuperMax(fine[..n], shift, super, termId)
  }

  /** The fine blocks under superblock `super`, in the order of the map. */
  function FineUnder(fine: BlockMap, shift: nat, super: nat): BlockMap
  {
    if fine == [] then []
    else
      var n := |fine| - 1;
      FineUnder(fine[..n], shift, super) + if ShiftRight(fine[n].key, shift) == super then [fine[n]] else []
  }

  lemma {:induction false} FineUnderMembers(fine: BlockMap, shift: nat, super: nat, x: Entry<nat, Block>)
    ensures x in FineUnder(fine, shift, super) <==> x in fine && ShiftRight(x.key, shift) == super
  {
    if fine != [] {
      var n := |fine| - 1;
      FineUnderMembers(fine[..n], shift, super, x);
      assert fine == fine[..n] + [fine[n]];
    }
  }

  lemma {:induction false} TermMaxBounds(terms: Block, o: nat)
    requires o < |terms|
    ensures TermMax(terms, terms[o].termId) >= terms[o].UpperBound()
  {
    var n := |terms| - 1;
    if o < n { TermMaxBounds(terms[..n], o); }
  }

  lemma {:induction false} SuperMaxNonNegative(fine: BlockMap, shift: nat, super: nat, termId: nat)
    ensures SuperMax(fine, shift, super, termId) >= 0.0
  {
    if fine != [] { SuperMaxNonNegative(fine[..|fine| - 1], shift, super, termId); }
  }

  lemma {:induction false} SuperMaxDominates(fine: BlockMap, shift: nat, i: nat, o: nat)
    requires i < |fine| && o < |fine[i].value|
    ensures
      SuperMax(fine, shift, ShiftRight(fine[i].key, shift), fine[i].value[o].termId) >= fine[i].value[o].UpperBound()
  {
    var n := |fine| - 1;
    TermMaxBounds(fine[i].value, o);
    if i < n { SuperMaxDominates(fine[..n], shift, i, o); }
  }

  // ----- the bound of a superblock -----

  function SuperBound(bounds: BoundMap): real {
    SumValues(bounds)
  }

  ghost predicate DistinctTerms(terms: Block) {
    forall i, j :: 0 <= i < j < |terms| ==> terms[i].termId != terms[j].termId
  }

  /** Termwise bounds over distinct terms add up to at least the block's own bound. */
  lemma SuperBoundCovers(bounds: BoundMap, terms: Block)
    requires DistinctKeys(bounds) && DistinctTerms(terms)
    requires forall t :: Get(bounds, t, 0.0) >= 0.0
    requires forall o :: 0 <= o < |terms| ==> Get(bounds, terms[o].termId, 0.0) >= terms[o].UpperBound()
    ensures BlockBound(terms) <= SuperBound(bounds)
  {
    var items := seq(|terms|, o requires 0 <= o < |terms| => Entry(terms[o].termId, terms[o].UpperBound()));
    KeyedSumCovers(bounds, items);
    assert Values(items) == UpperBounds(terms);
  }

  // ----- building the directory -----

  lemma {:induction false} PutNewKey(d: BlockMap, key: nat, value: Block)
    requires forall i :: 0 <= i < |d| ==> d[i].key != key
    ensures Put(d, key, value) == d + [Entry(key, value)]
  {
    if d != [] { PutNewKey(d[1..], key, value); }
  }

  method RaiseBounds(bounds: BoundMap, terms: Block) returns (raised: BoundMap)
    requires DistinctKeys(bounds) && forall t :: Get(bounds, t, 0.0) >= 0.0
    ensures DistinctKeys(raised)
    ensures forall t :: Get(raised, t, 0.0) == Max(Get(bounds, t, 0.0), TermMax(terms, t))
  {
    raised := bounds;
    for o := 0 to |terms|
      invariant DistinctKeys(raised)
      invariant forall t :: Get(raised, t, 0.0) == Max(Get(bounds, t, 0.0), TermMax(terms[..o], t))
    {
      var id := terms[o].termId;
      var bound := Max(Get(raised, id, 0.0), terms[o].UpperBound());
      PutKeys(raised, id, bound);
      assert terms[..o + 1][..o] == terms[..o];
      forall t ensures Get(Put(raised, id, bound), t, 0.0) == Max(Get(bounds, t, 0.0), TermMax(terms[..o + 1], t)) {
        GetAfterPut(raised, id, bound, t, 0.0);
        assert Get(raised, t, 0.0) == Max(Get(bounds, t, 0.0), TermMax(terms[..o], t));
      }
      raised := Put(raised, id, bound);
    }
    assert terms[..|terms|] == terms;
  }

  ghost predicate IsDirectory(fine: BlockMap, shift: nat, superblocks: SuperMap, bounds: SuperBounds)
  {
    && DistinctKeys(superblocks)
    && (forall s: nat :: Get(superblocks, s, []) == FineUnder(fine, shift, s))
    && (forall s: nat :: DistinctKeys(Get(bounds, s, [])))
    && (forall s: nat, t: nat :: Get(Get(bounds, s, []), t, 0.0) == SuperMax(fine, shift, s, t))
  }

  /** The first loop of the frontier: group the fine blocks and take the per-term maxima. */
  method BuildDirectory(fine: BlockMap, shift: nat) returns (superblocks: SuperMap, bounds: SuperBounds)
    requires DistinctKeys(fine)
    ensures IsDirectory(fine, shift, superblocks, bounds)
  {
    superblocks, bounds := [], [];
    for i := 0 to |fine|
      invariant IsDirectory(fine[..i], shift, superblocks, bounds)
    {
      var super := ShiftRight(fine[i].key, shift);
      forall t ensures Get(Get(bounds, super, []), t, 0.0) >= 0.0 {
        SuperMaxNonNegative(fine[..i], shift, super, t);
        assert Get(Get(bounds, super, []), t, 0.0) == SuperMax(fine[..i], shift, super, t);
      }
      var raised := RaiseBounds(Get(bounds, super, []), fine[i].value);
      var under := Put(Get(superblocks, super, []), fine[i].key, fine[i].value);
      DirectoryStep(fine, shift, i, superblocks, bounds, under, raised);
      superblocks := Put(superblocks, super, under);
      bounds := Put(bounds, super, raised);
    }
    assert fine[..|fine|] == fine;
  }

  lemma DirectoryStep(
      fine: BlockMap, shift: nat, i: nat, superblocks: SuperMap, bounds: SuperBounds, under: BlockMap, raised: BoundMap)
    requires DistinctKeys(fine) && i < |fine|
    requires IsDirectory(fine[..i], shift, superblocks, bounds)
    requires under == Put(Get(superblocks, ShiftRight(fine[i].key, shift), []), fine[i].key, fine[i].value)
    requires DistinctKeys(raised)
    requires forall t ::
      Get(raised, t, 0.0) ==
      Max(Get(Get(bounds, ShiftRight(fine[i].key, shift), []), t, 0.0), TermMax(fine[i].value, t))
    ensures IsDirectory(fine[..i + 1], shift,
      Put(superblocks, ShiftRight(fine[i].key, shift), under), Put(bounds, ShiftRight(fine[i].key, shift), raised))
  {
    var super := ShiftRight(fine[i].key, shift);
    var next := fine[..i + 1];
    assert next[..i] == fine[..i];
    var nextSupers, nextBounds := Put(superblocks, super, under), Put(bounds, super, raised);
    PutKeys(superblocks, super, under);
    forall s: nat ensures Get(nextSupers, s, []) == FineUnder(next, shift, s) {
      GetAfterPut(superblocks, super, under, s, []);
      if s == super {
        var before := FineUnder(fine[..i], shift, super);
        forall j | 0 <= j < |before| ensures before[j].key != fine[i].key {
          FineUnderMembers(fine[..i], shift, super, before[j]);
          assert before[j] in before;
        }
        PutNewKey(before, fine[i].key, fine[i].value);
      } else {
        assert FineUnder(next, shift, s) == FineUnder(fine[..i], shift, s) + [];
      }
    }
    forall s: nat ensures DistinctKeys(Get(nextBounds, s, [])) {
      GetAfterPut(bounds, super, raised, s, []);
      assert DistinctKeys(Get(bounds, s, []));
    }
    forall s: nat, t: nat ensures Get(Get(nextBounds, s, []), t, 0.0) == SuperMax(next, shift, s, t) {
      GetAfterPut(bounds, super, raised, s, []);
      assert Get(Get(bounds, s, []), t, 0.0) == SuperMax(fine[..i], shift, s, t);
    }
  }

  /** Main fact of the directory: a superblock's bound dominates every fine block below it. */
  lemma SuperDominatesFine(fine: BlockMap, shift: nat, superblocks: SuperMap, bounds: SuperBounds, x: Entry<nat, Block>)
    requires IsDirectory(fine, shift, superblocks, bounds)
    requires x in fine && DistinctTerms(x.value)
    ensures BlockBound(x.value) <= SuperBound(Get(bounds, ShiftRight(x.key, shift), []))
  {
    var i :| 0 <= i < |fine| && fine[i] == x;
    var s := ShiftRight(x.key, shift);
    var under := Get(bounds, s, []);
    forall t ensures Get(under, t, 0.0) >= 0.0 {
      SuperMaxNonNegative(fine, shift, s, t);
      assert Get(under, t, 0.0) == SuperMax(fine, shift, s, t);
    }
    forall o | 0 <= o < |x.value| ensures Get(under, x.value[o].termId, 0.0) >= x.value[o].UpperBound() {
      SuperMaxDominates(fine, shift, i, o);
      assert Get(under, x.value[o].termId, 0.0) == SuperMax(fine, shift, s, x.value[o].termId);
    }
    SuperBoundCovers(under, x.value);
  }

  // ----- the frontier -----

  function SuperOrdered(superblocks: SuperMap, bounds: SuperBounds, byBound: bool): SuperMap {
    if byBound then
      SortBy(superblocks, (item: Entry<nat, BlockMap>) => -SuperBound(Get(bounds, item.key, [])))
    else
      SortBy(superblocks, (item: Entry<nat, BlockMap>) => item.key as real)
  }

  ghost predicate DescendingSupers(ordered: SuperMap, bounds: SuperBounds) {
    forall i, j :: 0 <= i < j < |ordered| ==>
      SuperBound(Get(bounds, ordered[i].key, [])) >= SuperBound(Get(bounds, ordered[j].key, []))
  }

  ghost function SuperDocuments(item: Entry<nat, BlockMap>): set<nat> {
    BlockDocuments(Values(item.value))
  }

  /** `ordered` lists every fine block, and each superblock of it nothing but fine blocks of its own. */
  ghost predicate Directs(fine: BlockMap, shift: nat, ordered: SuperMap) {
    && (forall j, x :: 0 <= j < |ordered| && x in ordered[j].value ==>
         x in fine && ShiftRight(x.key, shift) == ordered[j].key)
    && (forall x :: x in fine ==> exists j :: 0 <= j < |ordered| && x in ordered[j].value)
  }

  lemma SuperOrderedFacts(fine: BlockMap, shift: nat, superblocks: SuperMap, bounds: SuperBounds, byBound: bool)
    requires IsDirectory(fine, shift, superblocks, bounds)
    ensures Directs(fine, shift, SuperOrdered(superblocks, bounds, byBound))
    ensures byBound ==> DescendingSupers(SuperOrdered(superblocks, bounds, byBound), bounds)
  {
    var byBounds := (item: Entry<nat, BlockMap>) => -SuperBound(Get(bounds, item.key, []));
    var byKey := (item: Entry<nat, BlockMap>) => item.key as real;
    var ordered := SuperOrdered(superblocks, bounds, byBound);
    if byBound {
      SortByMembers(superblocks, byBounds);
      SortByFacts(superblocks, byBounds);
    } else {
      SortByMembers(superblocks, byKey);
    }
    forall j, x | 0 <= j < |ordered| && x in ordered[j].value
      ensures x in fine && ShiftRight(x.key, shift) == ordered[j].key
    {
      assert ordered[j] in superblocks;
      var n :| 0 <= n < |superblocks| && superblocks[n] == ordered[j];
      GetAt(superblocks, n, []);
      FineUnderMembers(fine, shift, ordered[j].key, x);
    }
    forall x | x in fine ensures exists j :: 0 <= j < |ordered| && x in ordered[j].value {
      FineUnderMembers(fine, shift, ShiftRight(x.key, shift), x);
      assert Get(superblocks, ShiftRight(x.key, shift), []) == FineUnder(fine, shift, ShiftRight(x.key, shift));
      var n := EntryOf(superblocks, ShiftRight(x.key, shift), []);
      assert superblocks[n] in ordered;
      var j :| 0 <= j < |ordered| && ordered[j] == superblocks[n];
    }
  }

  /** The documents under the first `n` superblocks. */
  ghost function DocumentsUnder(ordered: SuperMap, n: nat): set<nat>
    requires n <= |ordered|
  {
    if n == 0 then {} else DocumentsUnder(ordered, n - 1) + SuperDocuments(ordered[n - 1])
  }

  lemma {:induction false} UnderIncludes(ordered: SuperMap, n: nat, j: nat)
    requires j < n <= |ordered|
    ensures SuperDocuments(ordered[j]) <= DocumentsUnder(ordered, n)
  {
    if j < n - 1 { UnderIncludes(ordered, n - 1, j); }
  }

  lemma {:induction false} UnderWithin(ordered: SuperMap, n: nat, all: set<nat>)
    requires n <= |ordered| && forall j :: 0 <= j < |ordered| ==> SuperDocuments(ordered[j]) <= all
    ensures DocumentsUnder(ordered, n) <= all
  {
    if n > 0 { UnderWithin(ordered, n - 1, all); }
  }

  lemma SuperWithin(fine: BlockMap, shift: nat, ordered: SuperMap, j: nat)
    requires Directs(fine, shift, ordered) && j < |ordered|
    ensures SuperDocuments(ordered[j]) <= BlockDocuments(Values(fine))
  {
    var item := ordered[j];
    forall terms | terms in Values(item.value) ensures terms in Values(fine) {
      ValueIn(item.value, terms);
      ValueIn(fine, terms);
    }
    SameBlocksSameDocuments(Values(item.value), Values(fine));
  }

  /** The superblocks together hold exactly the documents of the fine blocks. */
  lemma PartitionDocuments(fine: BlockMap, shift: nat, ordered: SuperMap)
    requires Directs(fine, shift, ordered)
    ensures DocumentsUnder(ordered, |ordered|) == BlockDocuments(Values(fine))
  {
    forall j | 0 <= j < |ordered| ensures SuperDocuments(ordered[j]) <= BlockDocuments(Values(fine)) {
      SuperWithin(fine, shift, ordered, j);
    }
    UnderWithin(ordered, |ordered|, BlockDocuments(Values(fine)));
    forall d | d in BlockDocuments(Values(fine)) ensures d in DocumentsUnder(ordered, |ordered|) {
      var b :| 0 <= b < |fine| && d in DocumentsOf(Values(fine)[b]);
      assert fine[b] in fine;
      var j :| 0 <= j < |ordered| && fine[b] in ordered[j].value;
      var m :| 0 <= m < |ordered[j].value| && ordered[j].value[m] == fine[b];
      assert d in DocumentsOf(Values(ordered[j].value)[m]);
      UnderIncludes(ordered, |ordered|, j);
    }
  }

  /** Every fine block is well formed, safe, and lists each term once. */
  ghost predicate FineReady(scores: seq<real>, seeds: set<nat>, fine: BlockMap) {
    forall x :: x in fine ==>
      AllWellFormed(x.value, |scores|) && SafeBlock(scores, seeds, x.value) && DistinctTerms(x.value)
  }

  lemma OrderedFineReady(scores: seq<real>, seeds: set<nat>, blocks: BlockMap)
    requires FineReady(scores, seeds, blocks)
    ensures forall b :: 0 <= b < |Ordered(blocks, true)| ==>
      AllWellFormed(Ordered(blocks, true)[b], |scores|) && SafeBlock(scores, seeds, Ordered(blocks, true)[b])
    ensures DescendingBounds(Ordered(blocks, true))
    ensures BlockDocuments(Ordered(blocks, true)) == BlockDocuments(Values(blocks))
  {
    var ordered := Ordered(blocks, true);
    OrderedFacts(blocks, true);
    SameBlocksSameDocuments(ordered, Values(blocks));
    SameBlocksSameDocuments(Values(blocks), ordered);
    forall b | 0 <= b < |ordered|
      ensures AllWellFormed(ordered[b], |scores|) && SafeBlock(scores, seeds, ordered[b])
    {
      assert ordered[b] in Values(blocks);
      ValueIn(blocks, ordered[b]);
    }
  }

  /** A superblock is ready when its fine blocks are and its bound dominates each of them. */
  ghost predicate ItemReady(scores: seq<real>, seeds: set<nat>, bounds: SuperBounds, item: Entry<nat, BlockMap>) {
    && FineReady(scores, seeds, item.value)
    && forall x :: x in item.value ==> BlockBound(x.value) <= SuperBound(Get(bounds, item.key, []))
  }

  lemma ItemsReady(
      scores: seq<real>, seeds: set<nat>, fine: BlockMap, shift: nat,
      superblocks: SuperMap, bounds: SuperBounds, ordered: SuperMap)
    requires FineReady(scores, seeds, fine)
    requires IsDirectory(fine, shift, superblocks, bounds) && Directs(fine, shift, ordered)
    ensures forall j :: 0 <= j < |ordered| ==> ItemReady(scores, seeds, bounds, ordered[j])
  {
    forall j, x | 0 <= j < |ordered| && x in ordered[j].value
      ensures BlockBound(x.value) <= SuperBound(Get(bounds, ordered[j].key, []))
    {
      SuperDominatesFine(fine, shift, superblocks, bounds, x);
    }
  }

  /** A superblock whose bound passes the stop test is discharged without being opened. */
  lemma StopDischargesSuper(
      state: ExactTopK, seeds: set<nat>, bounds: SuperBounds, item: Entry<nat, BlockMap>, e: real)
    requires state.Valid() && e >= 0.0 && seeds <= state.Seen()
    requires ItemReady(state.scores, seeds, bounds, item)
    requires state.CanStop(SuperBound(Get(bounds, item.key, [])), e)
    ensures AllDischarged(state.scores, state.k, state.Seen(), e, SuperDocuments(item))
  {
    forall d | d in SuperDocuments(item) && d < |state.scores|
      ensures Discharged(state.scores, state.k, state.Seen(), e, d)
    {
      var b :| 0 <= b < |item.value| && d in DocumentsOf(Values(item.value)[b]);
      assert item.value[b] in item.value;
      StopTestShrinks(
        state.ThresholdValue(), SuperBound(Get(bounds, item.key, [])), BlockBound(item.value[b].value), e);
      StopDischargesBlock(state, seeds, item.value[b].value, e);
    }
  }

  // ----- how much there is to decode -----

  function SuperOf(shift: nat): Entry<nat, Block> -> nat {
    (x: Entry<nat, Block>) => ShiftRight(x.key, shift)
  }

  function ItemSize(): Entry<nat, BlockMap> -> nat {
    (item: Entry<nat, BlockMap>) => BlockPostings(Values(item.value))
  }

  lemma {:induction false} UnderPostings(fine: BlockMap, shift: nat, super: nat)
    ensures Total(FineUnder(fine, shift, super), EntrySize()) == GroupTotal(fine, SuperOf(shift), EntrySize(), super)
  {
    if fine != [] {
      var n := |fine| - 1;
      UnderPostings(fine[..n], shift, super);
      if ShiftRight(fine[n].key, shift) == super {
        TotalConcat(FineUnder(fine[..n], shift, super), [fine[n]], EntrySize());
        TotalOne(fine[n], EntrySize());
      } else {
        assert FineUnder(fine, shift, super) == FineUnder(fine[..n], shift, super);
      }
    }
  }

  /** The superblocks, in either order, hold no more postings than the fine blocks. */
  lemma SuperPostings(fine: BlockMap, shift: nat, superblocks: SuperMap, bounds: SuperBounds, byBound: bool)
    requires IsDirectory(fine, shift, superblocks, bounds)
    ensures Total(SuperOrdered(superblocks, bounds, byBound), ItemSize()) <= BlockPostings(Values(fine))
  {
    forall j | 0 <= j < |superblocks|
      ensures ItemSize()(superblocks[j]) == GroupTotal(fine, SuperOf(shift), EntrySize(), superblocks[j].key)
    {
      GetAt(superblocks, j, []);
      EntryPostings(superblocks[j].value);
      UnderPostings(fine, shift, superblocks[j].key);
    }
    TableWithinTotal(superblocks, ItemSize(), fine, SuperOf(shift), EntrySize());
    EntryPostings(fine);
    TotalSortBy(superblocks, (item: Entry<nat, BlockMap>) => -SuperBound(Get(bounds, item.key, [])), ItemSize());
    TotalSortBy(superblocks, (item: Entry<nat, BlockMap>) => item.key as real, ItemSize());
  }

  lemma WholeOrder(ordered: SuperMap)
    ensures ordered[..|ordered|] == ordered && Total(ordered[..0], ItemSize()) == 0
  {
  }

  lemma SupersReached(ordered: SuperMap, n: nat)
    requires n < |ordered|
    ensures Total(ordered[..n], ItemSize()) + BlockPostings(Values(ordered[n].value))
         == Total(ordered[..n + 1], ItemSize()) <= Total(ordered, ItemSize())
  {
    TotalSnoc(ordered, n, ItemSize());
    TotalPrefix(ordered, n + 1, ItemSize());
  }

  /** The inner loop: the fine blocks of one superblock, by descending bound. */
  method VisitSuperblock(
      state: ExactTopK, ghost seeds: set<nat>, blocks: BlockMap, e: real, batchSize: nat,
      pending: map<nat, real>, pendingBlocks: nat, ghost done: set<nat>)
    returns (waiting: map<nat, real>, waitingBlocks: nat, decoded: nat, resolved: nat)
    requires FineReady(state.scores, seeds, blocks)
    requires Progress(state, seeds, e, pending, done)
    modifies state, state.seen
    ensures Progress(state, seeds, e, waiting, done + BlockDocuments(Values(blocks)))
    ensures resolved == |state.Seen()| - |old(state.Seen())| && decoded <= BlockPostings(Values(blocks))
  {
    OrderedPostings(blocks, true);
    OrderedFineReady(state.scores, seeds, blocks);
    waiting, waitingBlocks, decoded, resolved :=
      VisitBlocks(state, seeds, Ordered(blocks, true), e, batchSize, true, pending, pendingBlocks, done);
  }

  /** The outer loop over superblocks. */
  method VisitSuperblocks(
      state: ExactTopK, ghost seeds: set<nat>, bounds: SuperBounds, ordered: SuperMap,
      e: real, batchSize: nat, byBound: bool)
    returns (pending: map<nat, real>, decoded: nat, resolved: nat, descended: nat)
    requires Progress(state, seeds, e, map[], {})
    requires forall j :: 0 <= j < |ordered| ==> ItemReady(state.scores, seeds, bounds, ordered[j])
    requires byBound ==> DescendingSupers(ordered, bounds)
    modifies state, state.seen
    ensures Progress(state, seeds, e, pending, DocumentsUnder(ordered, |ordered|))
    ensures resolved == |state.Seen()| - |old(state.Seen())| && decoded <= Total(ordered, ItemSize())
  {
    decoded, resolved, descended := 0, 0, 0;
    WholeOrder(ordered);
    pending := map[];
    var pendingBlocks: nat := 0;
    for i := 0 to |ordered|
      invariant Progress(state, seeds, e, pending, DocumentsUnder(ordered, i))
      invariant resolved == |state.Seen()| - |old(state.Seen())| && decoded <= Total(ordered[..i], ItemSize())
    {
      SupersReached(ordered, i);
      if byBound && state.CanStop(SuperBound(Get(bounds, ordered[i].key, [])), e) {
        RestCovered(state, seeds, e, pending, bounds, ordered, i, i, |ordered|);
        return;
      }
      var d, r, m;
      pending, pendingBlocks, d, r, m :=
        NextSuper(state, seeds, bounds, ordered, i, e, batchSize, pending, pendingBlocks);
      decoded, resolved, descended := decoded + d, resolved + r, descended + m;
    }
  }

  /** Superblock `n` of the outer loop. */
  method NextSuper(
      state: ExactTopK, ghost seeds: set<nat>, bounds: SuperBounds, ordered: SuperMap, n: nat, e: real, batchSize: nat,
      pending: map<nat, real>, pendingBlocks: nat)
    returns (waiting: map<nat, real>, waitingBlocks: nat, decoded: nat, resolved: nat, descended: nat)
    requires n < |ordered| && ItemReady(state.scores, seeds, bounds, ordered[n])
    requires Progress(state, seeds, e, pending, DocumentsUnder(ordered, n))
    modifies state, state.seen
    ensures Progress(state, seeds, e, waiting, DocumentsUnder(ordered, n + 1))
    ensures resolved == |state.Seen()| - |old(state.Seen())|
    ensures decoded + Total(ordered[..n], ItemSize()) <= Total(ordered[..n + 1], ItemSize())
  {
    SupersReached(ordered, n);
    waiting, waitingBlocks, decoded, resolved, descended := SuperTurn(
      state, seeds, bounds, ordered[n], e, batchSize, pending, pendingBlocks, DocumentsUnder(ordered, n));
  }

  /** One superblock: skipped when its bound passes the stop test, else descended into. */
  method SuperTurn(
      state: ExactTopK, ghost seeds: set<nat>, bounds: SuperBounds, item: Entry<nat, BlockMap>, e: real, batchSize: nat,
      pending: map<nat, real>, pendingBlocks: nat, ghost done: set<nat>)
    returns (waiting: map<nat, real>, waitingBlocks: nat, decoded: nat, resolved: nat, descended: nat)
    requires ItemReady(state.scores, seeds, bounds, item)
    requires Progress(state, seeds, e, pending, done)
    modifies state, state.seen
    ensures Progress(state, seeds, e, waiting, done + SuperDocuments(item))
    ensures resolved == |state.Seen()| - |old(state.Seen())| && decoded <= BlockPostings(Values(item.value))
  {
    var bound := SuperBound(Get(bounds, item.key, []));
    if state.CanStop(bound, e) {
      SkipSuper(state, seeds, e, pending, bounds, item, done);
      waiting, waitingBlocks, decoded, resolved, descended := pending, pendingBlocks, 0, 0, 0;
    } else {
      descended := MetadataEntries(item.value);
      waiting, waitingBlocks, decoded, resolved :=
        VisitSuperblock(state, seeds, item.value, e, batchSize, pending, pendingBlocks, done);
    }
  }

  /** A superblock that passes the stop test is done without a visit. */
  lemma SkipSuper(
      state: ExactTopK, seeds: set<nat>, e: real, pending: map<nat, real>, bounds: SuperBounds,
      item: Entry<nat, BlockMap>, done: set<nat>)
    requires Progress(state, seeds, e, pending, done) && ItemReady(state.scores, seeds, bounds, item)
    requires state.CanStop(SuperBound(Get(bounds, item.key, [])), e)
    ensures Progress(state, seeds, e, pending, done + SuperDocuments(item))
  {
    StopDischargesSuper(state, seeds, bounds, item, e);
    SkipProgress(state, seeds, e, pending, done, SuperDocuments(item));
  }

  /** In descending order, every superblock after one that passes the stop test passes it too. */
  lemma LaterSupersStop(state: ExactTopK, bounds: SuperBounds, ordered: SuperMap, stop: nat, n: nat, e: real)
    requires stop <= n < |ordered| && DescendingSupers(ordered, bounds)
    requires state.CanStop(SuperBound(Get(bounds, ordered[stop].key, [])), e)
    ensures state.CanStop(SuperBound(Get(bounds, ordered[n].key, [])), e)
  {
    StopTestShrinks(
      state.ThresholdValue(), SuperBound(Get(bounds, ordered[stop].key, [])),
      SuperBound(Get(bounds, ordered[n].key, [])), e);
  }

  /** In descending order, the first superblock to pass the stop test covers all that follow. */
  lemma {:induction false} RestCovered(
      state: ExactTopK, seeds: set<nat>, e: real, pending: map<nat, real>, bounds: SuperBounds, ordered: SuperMap,
      stop: nat, from: nat, n: nat)
    requires stop <= from <= n <= |ordered| && stop < |ordered|
    requires forall j :: 0 <= j < |ordered| ==> ItemReady(state.scores, seeds, bounds, ordered[j])
    requires DescendingSupers(ordered, bounds)
    requires Progress(state, seeds, e, pending, DocumentsUnder(ordered, from))
    requires state.CanStop(SuperBound(Get(bounds, ordered[stop].key, [])), e)
    ensures Progress(state, seeds, e, pending, DocumentsUnder(ordered, n))
    decreases n
  {
    if from < n {
      RestCovered(state, seeds, e, pending, bounds, ordered, stop, from, n - 1);
      LaterSupersStop(state, bounds, ordered, stop, n - 1, e);
      SkipSuper(state, seeds, e, pending, bounds, ordered[n - 1], DocumentsUnder(ordered, n - 1));
    }
  }

  method HierarchicalBlockImpactFrontier(
      state: ExactTopK, fine: BlockMap, fineShift: nat, superShift: nat, e: real, batchSize: nat, byBound: bool)
    returns (row: Result<VariantRow>)
    requires Ready(state, Values(fine), e)
    requires DistinctKeys(fine) && forall x :: x in fine ==> DistinctTerms(x.value)
    modifies state, state.seen
    ensures state.Valid()
    ensures row.Error? <==> superShift <= fineShift
    ensures row.Error? ==> state.Seen() == old(state.Seen())
    ensures row.Ok? ==>
      Answers(state.scores, state.k, old(state.Seen()) + BlockDocuments(Values(fine)), e, row.value.topDocuments)
    ensures row.Ok? ==> Scored(
      |state.scores|, state.k, old(state.Seen()), BlockDocuments(Values(fine)), state.Seen(),
      row.value.admittedDocuments)
    ensures row.Ok? ==> row.value.decodedPostings <= BlockPostings(Values(fine))
  {
    if superShift <= fineShift {
      return Error("super shift must exceed fine block shift");
    }
    var r := Traverse(state, fine, superShift - fineShift, e, batchSize, byBound);
    row := Ok(r);
  }

  /** The traversal once the shifts are accepted. */
  method Traverse(state: ExactTopK, fine: BlockMap, shift: nat, e: real, batchSize: nat, byBound: bool)
    returns (row: VariantRow)
    requires Ready(state, Values(fine), e)
    requires DistinctKeys(fine) && forall x :: x in fine ==> DistinctTerms(x.value)
    modifies state, state.seen
    ensures state.Valid()
    ensures Answers(state.scores, state.k, old(state.Seen()) + BlockDocuments(Values(fine)), e, row.topDocuments)
    ensures Scored(
      |state.scores|, state.k, old(state.Seen()), BlockDocuments(Values(fine)), state.Seen(), row.admittedDocuments)
    ensures row.decodedPostings <= BlockPostings(Values(fine))
  {
    ghost var seeds := state.Seen();
    NothingVisited(state, fine, e);
    var superblocks, bounds := BuildDirectory(fine, shift);
    var ordered := SuperOrdered(superblocks, bounds, byBound);
    DirectoryReady(state.scores, seeds, fine, shift, superblocks, bounds, byBound);
    var pending, decoded, resolved, descended :=
      VisitSuperblocks(state, seeds, bounds, ordered, e, batchSize, byBound);
    var r, top := ResolveAndFinish(state, seeds, Values(fine), e, pending);
    row := VariantRow(decoded, resolved + r, SuperMetadata(bounds) + descended, top);
  }

  /** The ordered superblocks are ready and hold the documents of the fine blocks. */
  lemma DirectoryReady(
      scores: seq<real>, seeds: set<nat>, fine: BlockMap, shift: nat, superblocks: SuperMap, bounds: SuperBounds,
      byBound: bool)
    requires FineReady(scores, seeds, fine) && IsDirectory(fine, shift, superblocks, bounds)
    ensures var ordered := SuperOrdered(superblocks, bounds, byBound);
      && (forall j :: 0 <= j < |ordered| ==> ItemReady(scores, seeds, bounds, ordered[j]))
      && (byBound ==> DescendingSupers(ordered, bounds))
      && DocumentsUnder(ordered, |ordered|) == BlockDocuments(Values(fine))
      && Total(ordered, ItemSize()) <= BlockPostings(Values(fine))
  {
    var ordered := SuperOrdered(superblocks, bounds, byBound);
    SuperOrderedFacts(fine, shift, superblocks, bounds, byBound);
    ItemsReady(scores, seeds, fine, shift, superblocks, bounds, ordered);
    PartitionDocuments(fine, shift, ordered);
    SuperPostings(fine, shift, superblocks, bounds, byBound);
  }

  /** Where a traversal starts: the fine blocks are ready and nothing waits. */
  lemma NothingVisited(state: ExactTopK, fine: BlockMap, e: real)
    requires Ready(state, Values(fine), e) && forall x :: x in fine ==> DistinctTerms(x.value)
    ensures FineReady(state.scores, state.Seen(), fine)
    ensures SafeBlocks(state.scores, state.Seen(), Values(fine)) && InRange(state.scores, BlockDocuments(Values(fine)))
    ensures Progress(state, state.Seen(), e, map[], {})
  {
    FineIsReady(state, fine, e);
    BlocksInRange(Values(fine), state.scores);
  }

  lemma FineIsReady(state: ExactTopK, fine: BlockMap, e: real)
    requires Ready(state, Values(fine), e) && forall x :: x in fine ==> DistinctTerms(x.value)
    ensures FineReady(state.scores, state.Seen(), fine)
  {
    forall x | x in fine
      ensures AllWellFormed(x.value, |state.scores|) && SafeBlock(state.scores, state.Seen(), x.value)
    {
      var i :| 0 <= i < |fine| && fine[i] == x;
      assert Values(fine)[i] == x.value;
    }
  }

  function SuperMetadata(bounds: SuperBounds): nat {
    if bounds == [] then 0 else |bounds[0].value| + SuperMetadata(bounds[1..])
  }
}
