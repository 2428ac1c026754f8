/**
 The two inner loops of the impact frontiers, the resolution of partially scored candidates, and the frontiers
 that walk whole posting lists: the full union, the eager global frontier and the lazy global frontier.
 */
module Frontiers {
  import opened Totals
  import opened Arithmetic
  import opened Heapq
  import opened Sums
  import opened Ranking
  import opened Stopping
  import opened TopKState
  import opened Postings
  import opened Cursors
  import opened ZeroScores

  datatype VariantRow = VariantRow(
    decodedPostings: nat, admittedDocuments: nat, metadataEntries: nat, topDocuments: seq<nat>)

  /** The block bounds every document it posts that is not seen yet. */
  ghost predicate SafeBlock(scores: seq<real>, seen: set<nat>, terms: seq<TermBlock>) {
    forall d :: d in DocumentsOf(terms) && d !in seen && d < |scores| ==> scores[d] <= TotalMass(terms, d)
  }

  ghost function BlockDocuments(blocks: seq<seq<TermBlock>>): set<nat> {
    set b, d | 0 <= b < |blocks| && d in DocumentsOf(blocks[b]) :: d
  }

  /** Every block is safe, and an unseen document outside all of them scores zero. */
  ghost predicate SafeBlocks(scores: seq<real>, seen: set<nat>, blocks: seq<seq<TermBlock>>) {
    && (forall b :: 0 <= b < |blocks| ==> SafeBlock(scores, seen, blocks[b]))
    && (forall d: nat :: d < |scores| && d !in seen && d !in BlockDocuments(blocks) ==> scores[d] == 0.0)
  }

  /** What every traversal relies on when it starts. */
  ghost predicate Ready(state: ExactTopK, blocks: seq<seq<TermBlock>>, e: real)
    reads state, state.seen
  {
    && state.Valid()
    && NonNegative(state.scores)
    && e >= 0.0
    && (forall b :: 0 <= b < |blocks| ==> AllWellFormed(blocks[b], |state.scores|))
    && SafeBlocks(state.scores, state.Seen(), blocks)
  }

  /**
   What every traversal promises about its answer `r`, `candidates` being the seeds and the posted documents.
   Whatever the ratio, no document left out beats the k-th returned score by more than the ratio. At ratio zero
   `r` is the list of the union of the candidates, its scores are the best ones, and it is the reference list if
   and only if no gap among zero scores shows at this answer size.
   */
  ghost predicate Answers(scores: seq<real>, k: nat, candidates: set<nat>, e: real, r: seq<nat>) {
    && InRange(scores, candidates)
    && Ranked(scores, r)
    && |r| == |TopK(scores, k)|
    && RatioBounded(scores, r, e)
    && (e == 0.0 ==> IsUnionAnswer(scores, k, candidates, r))
  }

  ghost predicate IsUnionAnswer(scores: seq<real>, k: nat, candidates: set<nat>, r: seq<nat>)
    requires InRange(scores, candidates)
  {
    && r == UnionAnswer(scores, k, candidates)
    && SameScores(scores, r, TopK(scores, k))
    && (r == TopK(scores, k) <==> !VisibleGap(scores, k, candidates))
  }

  ghost predicate AllDischarged(scores: seq<real>, k: nat, seen: set<nat>, e: real, docs: set<nat>)
    requires InRange(scores, seen)
  {
    forall d :: d in docs && d < |scores| ==> Discharged(scores, k, seen, e, d)
  }

  /**
   Only seeds and candidates are scored before padding, and `admitted` counts the candidates scored. `final` is the
   set seen once the answer has been padded to `k` documents.
   */
  ghost predicate Scored(n: nat, k: nat, seeds: set<nat>, candidates: set<nat>, final: set<nat>, admitted: int) {
    exists seen :: Padded(n, k, seen, final) && seeds <= seen <= seeds + candidates && admitted == |seen| - |seeds|
  }

  lemma BestScoresOf(scores: seq<real>, k: nat, full: set<nat>, r: seq<nat>)
    requires InRange(scores, full) && IsBestOf(scores, full, k, r) && RatioBounded(scores, r, 0.0) && k > 0
    requires (if k <= |full| then k else |full|) == (if k <= |scores| then k else |scores|)
    ensures SameScores(scores, r, TopK(scores, k))
  {
    TopKIsBest(scores, k);
    forall i | 0 <= i < |r| ensures scores[r[i]] == scores[TopK(scores, k)[i]] {
      CompleteHasBestScores(scores, k, full, r, i);
    }
  }

  lemma ZeroRatioAnswer(
      scores: seq<real>, k: nat, candidates: set<nat>, seen: set<nat>, full: set<nat>, r: seq<nat>)
    requires NonNegative(scores) && InRange(scores, candidates) && k > 0 && seen <= candidates
    requires forall d: nat :: d < |scores| && d !in candidates ==> scores[d] == 0.0
    requires forall d :: d in candidates ==> Discharged(scores, k, seen, 0.0, d)
    requires Padded(|scores|, k, seen, full) && IsBestOf(scores, full, k, r) && RatioBounded(scores, r, 0.0)
    ensures IsUnionAnswer(scores, k, candidates, r)
  {
    SameAsUnion(scores, k, candidates, seen, full, r);
    ExactWithoutGap(scores, k, candidates);
    PadSize(scores, k, seen, full);
    BestScoresOf(scores, k, full, r);
  }

  /** Discharging every posted document is enough. */
  lemma DischargedBlocksAnswer(
      scores: seq<real>, k: nat, seeds: set<nat>, seen: set<nat>, full: set<nat>,
      blocks: seq<seq<TermBlock>>, e: real, r: seq<nat>)
    requires NonNegative(scores) && k > 0 && e >= 0.0
    requires InRange(scores, seen) && SafeBlocks(scores, seeds, blocks)
    requires InRange(scores, BlockDocuments(blocks))
    requires seeds <= seen <= seeds + BlockDocuments(blocks)
    requires AllDischarged(scores, k, seen, e, BlockDocuments(blocks))
    requires Padded(|scores|, k, seen, full) && IsBestOf(scores, full, k, r)
    ensures Answers(scores, k, seeds + BlockDocuments(blocks), e, r)
  {
    assert Complete(scores, k, seen, e);
    CompleteIsRatioBounded(scores, k, seen, full, e, r);
    TopKIsBest(scores, k);
    PadSize(scores, k, seen, full);
    if e == 0.0 {
      ZeroRatioAnswer(scores, k, seeds + BlockDocuments(blocks), seen, full, r);
    }
  }

  lemma BlocksInRange(blocks: seq<seq<TermBlock>>, scores: seq<real>)
    requires forall b :: 0 <= b < |blocks| ==> AllWellFormed(blocks[b], |scores|)
    ensures InRange(scores, BlockDocuments(blocks))
  {
    forall d | d in BlockDocuments(blocks) ensures d < |scores| {
      var b :| 0 <= b < |blocks| && d in DocumentsOf(blocks[b]);
      var o, p := PosterBefore(blocks[b], |blocks[b]|, d);
      assert blocks[b][o].WellFormed(|scores|);
    }
  }

  // ----- the eager loop -----

  /** Every decoded posting is of a document in `docs`. */
  ghost predicate DecodedIn(terms: seq<TermBlock>, at: seq<nat>, docs: set<nat>)
    requires Positions(terms, at)
  {
    forall o, p :: 0 <= o < |terms| && 0 <= p < at[o] ==> terms[o].postings[p].document in docs
  }

  lemma NothingDecoded(terms: seq<TermBlock>, at: seq<nat>)
    requires Positions(terms, at) && forall o :: 0 <= o < |at| ==> at[o] == 0
    ensures PartialsAreDecoded(terms, at, map[])
  {
    forall d: nat ensures Sum(Masses(terms, at, d)) == 0.0 {
      SumZero(Masses(terms, at, d));
    }
  }

  lemma DecodedInStep(terms: seq<TermBlock>, at: seq<nat>, o: nat, document: nat, gain: real, docs: set<nat>)
    requires StandsOn(terms, at, o, document, gain) && DecodedIn(terms, at, docs)
    ensures var after := at[o := at[o] + 1];
      Positions(terms, after) && DecodedIn(terms, after, docs + {document})
  {
  }

  /** A document outside gets nothing from what was decoded. */
  lemma NoMass(terms: seq<TermBlock>, at: seq<nat>, docs: set<nat>, d: nat)
    requires Positions(terms, at) && DecodedIn(terms, at, docs) && d !in docs
    ensures Sum(Masses(terms, at, d)) == 0.0
  {
    forall o | 0 <= o < |terms| ensures Masses(terms, at, d)[o] == 0.0 {
      ImpactBeforeAbsent(terms[o].postings, at[o], d);
    }
    SumZero(Masses(terms, at, d));
  }

  /** Once the queue is empty every posted document was decoded. */
  lemma AllDecoded(terms: seq<TermBlock>, at: seq<nat>, docs: set<nat>, d: nat)
    requires Tracks(terms, at, []) && DecodedIn(terms, at, docs) && d in DocumentsOf(terms)
    ensures d in docs
  {
    var o, p := PosterBefore(terms, |terms|, d);
    var _ := CursorItem(terms, at, o);
  }

  /** When the loop stops, what was not decoded no longer matters. */
  lemma EagerStopDischarges(
      state: ExactTopK, terms: seq<TermBlock>, at: seq<nat>, heap: seq<Item>, upper: real, e: real, d: nat)
    requires state.Valid() && NonNegative(state.scores) && e >= 0.0
    requires AllWellFormed(terms, |state.scores|) && OnTrack(terms, at, heap, upper)
    requires heap == [] || state.CanStop(upper, e)
    requires DecodedIn(terms, at, state.Seen())
    requires d in DocumentsOf(terms) && d < |state.scores| && state.scores[d] <= TotalMass(terms, d)
    ensures Discharged(state.scores, state.k, state.Seen(), e, d)
  {
    if heap == [] {
      AllDecoded(terms, at, state.Seen(), d);
    } else if d !in state.Seen() {
      NoMass(terms, at, state.Seen(), d);
      TotalMassBounds(terms, |state.scores|, at, d);
      state.StopDischarges(upper, e, d);
    }
  }

  ghost predicate OffersOne(before: set<nat>, after: set<nat>, d: nat, isNew: bool) {
    after == before + {d} && (isNew <==> d !in before)
  }

  /** One turn of the eager loop. */
  method OfferStep(
      state: ExactTopK, terms: seq<TermBlock>, positions: array<nat>, heap: seq<Item>, upper: real)
    returns (next: seq<Item>, bound: real, isNew: bool)
    requires state.Valid() && AllWellFormed(terms, |state.scores|)
    requires heap != [] && OnTrack(terms, positions[..], heap, upper)
    requires DecodedIn(terms, positions[..], state.Seen())
    modifies state, state.seen, positions
    ensures state.Valid()
    ensures OnTrack(terms, positions[..], next, bound)
    ensures DecodedIn(terms, positions[..], state.Seen())
    ensures Undecoded(terms, positions[..]) == old(Undecoded(terms, positions[..])) - 1
    ensures exists d :: d in DocumentsOf(terms) && OffersOne(old(state.Seen()), state.Seen(), d, isNew)
  {
    ghost var at, seen := positions[..], state.Seen();
    var document, gain;
    next, bound, document, gain := PopPosting(terms, |state.scores|, positions, heap, upper);
    DecodedInStep(terms, at, heap[0].id, document, gain, seen);
    isNew := state.Offer(document);
  }

  /** Decodes postings by descending head, offering each document, until the rest of the block cannot matter. */
  method OfferByImpact(state: ExactTopK, terms: seq<TermBlock>, e: real) returns (decoded: nat, admitted: nat)
    requires state.Valid() && NonNegative(state.scores) && e >= 0.0
    requires AllWellFormed(terms, |state.scores|)
    modifies state, state.seen
    ensures state.Valid()
    ensures old(state.Seen()) <= state.Seen() <= old(state.Seen()) + DocumentsOf(terms)
    ensures admitted == |state.Seen()| - |old(state.Seen())| && decoded <= PostingCount(terms)
    ensures forall d :: d in DocumentsOf(terms) && d < |state.scores| && state.scores[d] <= TotalMass(terms, d) ==>
      Discharged(state.scores, state.k, state.Seen(), e, d)
  {
    ghost var start := state.Seen();
    var positions, heap, upper := StartCursors(terms);
    decoded, admitted := 0, 0;
    NothingDecoded(terms, positions[..]);
    UndecodedAtStart(terms, positions[..]);
    while heap != [] && !state.CanStop(upper, e)
      invariant state.Valid() && fresh(positions)
      invariant OnTrack(terms, positions[..], heap, upper)
      invariant start <= state.Seen()
      invariant forall d :: d in state.Seen() ==> d in start || d in DocumentsOf(terms)
      invariant admitted == |state.Seen()| - |start|
      invariant decoded + Undecoded(terms, positions[..]) == PostingCount(terms)
      invariant DecodedIn(terms, positions[..], state.Seen())
      decreases Undecoded(terms, positions[..])
    {
      ghost var before := state.Seen();
      var isNew;
      heap, upper, isNew := OfferStep(state, terms, positions, heap, upper);
      ghost var d :| d in DocumentsOf(terms) && OffersOne(before, state.Seen(), d, isNew);
      SizeAfterAdding(before, d);
      if isNew { admitted := admitted + 1; }
      decoded := decoded + 1;
    }
    forall d | d in DocumentsOf(terms) && d < |state.scores| && state.scores[d] <= TotalMass(terms, d)
      ensures Discharged(state.scores, state.k, state.Seen(), e, d)
    {
      EagerStopDischarges(state, terms, positions[..], heap, upper, e, d);
    }
  }

  // ----- the lazy loop -----

  function PartialScore(partials: map<nat, real>, d: nat): real {
    if d in partials then partials[d] else 0.0
  }

  /** The partial scores are exactly what was decoded. */
  ghost predicate PartialsAreDecoded(terms: seq<TermBlock>, at: seq<nat>, partials: map<nat, real>)
    requires Positions(terms, at)
  {
    forall d: nat {:trigger Masses(terms, at, d)} :: Sum(Masses(terms, at, d)) == PartialScore(partials, d)
  }

  lemma PartialsStep(
      terms: seq<TermBlock>, count: nat, at: seq<nat>, o: nat, document: nat, gain: real, partials: map<nat, real>)
    requires AllWellFormed(terms, count) && StandsOn(terms, at, o, document, gain)
    requires PartialsAreDecoded(terms, at, partials)
    ensures var after := at[o := at[o] + 1];
      && Positions(terms, after)
      && PartialsAreDecoded(terms, after, partials[document := PartialScore(partials, document) + gain])
  {
    var more := partials[document := PartialScore(partials, document) + gain];
    forall d: nat ensures Sum(Masses(terms, at[o := at[o] + 1], d)) == PartialScore(more, d) {
      MassStep(terms, count, at, o, document, gain, d);
      assert Sum(Masses(terms, at, d)) == PartialScore(partials, d);
    }
  }

  /** The partial scores are those of the decoded postings, and every decoded document has one. */
  ghost predicate Accumulates(terms: seq<TermBlock>, at: seq<nat>, partials: map<nat, real>)
    requires Positions(terms, at)
  {
    PartialsAreDecoded(terms, at, partials) && DecodedIn(terms, at, partials.Keys)
  }

  lemma AccumulatesStep(
      terms: seq<TermBlock>, count: nat, at: seq<nat>, after: seq<nat>, o: nat, document: nat, gain: real,
      partials: map<nat, real>, more: map<nat, real>)
    requires AllWellFormed(terms, count) && StandsOn(terms, at, o, document, gain) && after == at[o := at[o] + 1]
    requires Accumulates(terms, at, partials)
    requires more == partials[document := PartialScore(partials, document) + gain]
    ensures Positions(terms, after) && Accumulates(terms, after, more)
  {
    PartialsStep(terms, count, at, o, document, gain, partials);
    DecodedInStep(terms, at, o, document, gain, partials.Keys);
    assert more.Keys == partials.Keys + {document};
  }

  /** One turn of the lazy loop. */
  method DecodeStep(
      terms: seq<TermBlock>, ghost count: nat, positions: array<nat>, heap: seq<Item>, upper: real,
      partials: map<nat, real>)
    returns (next: seq<Item>, bound: real, more: map<nat, real>)
    requires AllWellFormed(terms, count)
    requires heap != [] && OnTrack(terms, positions[..], heap, upper)
    requires Accumulates(terms, positions[..], partials)
    modifies positions
    ensures OnTrack(terms, positions[..], next, bound)
    ensures Accumulates(terms, positions[..], more)
    ensures forall d :: d in more ==> d in partials || (d in DocumentsOf(terms) && d < count)
    ensures Undecoded(terms, positions[..]) == old(Undecoded(terms, positions[..])) - 1
  {
    ghost var at := positions[..];
    var document, gain;
    next, bound, document, gain := PopPosting(terms, count, positions, heap, upper);
    more := partials[document := PartialScore(partials, document) + gain];
    AccumulatesStep(terms, count, at, positions[..], heap[0].id, document, gain, partials, more);
  }

  /** Decodes as the eager loop does but only accumulates; the state is left alone. */
  method DecodeByImpact(state: ExactTopK, terms: seq<TermBlock>, e: real)
    returns (partials: map<nat, real>, upper: real, decoded: nat)
    requires state.Valid() && e >= 0.0 && AllWellFormed(terms, |state.scores|)
    ensures forall d :: d in partials ==> d in DocumentsOf(terms) && d < |state.scores|
    ensures forall d :: d in partials ==> partials[d] <= TotalMass(terms, d) <= partials[d] + upper
    ensures forall d: nat :: d !in partials ==> TotalMass(terms, d) <= upper
    ensures (DocumentsOf(terms) <= partials.Keys && upper == 0.0) || state.CanStop(upper, e)
    ensures decoded <= PostingCount(terms)
  {
    var positions, heap;
    positions, heap, upper := StartCursors(terms);
    partials, decoded := map[], 0;
    NothingDecoded(terms, positions[..]);
    UndecodedAtStart(terms, positions[..]);
    while heap != [] && !state.CanStop(upper, e)
      invariant fresh(positions)
      invariant OnTrack(terms, positions[..], heap, upper)
      invariant forall d :: d in partials ==> d in DocumentsOf(terms) && d < |state.scores|
      invariant Accumulates(terms, positions[..], partials)
      invariant decoded + Undecoded(terms, positions[..]) == PostingCount(terms)
      decreases Undecoded(terms, positions[..])
    {
      heap, upper, partials := DecodeStep(terms, |state.scores|, positions, heap, upper, partials);
      decoded := decoded + 1;
    }
    LazyStopBounds(terms, |state.scores|, positions[..], heap, upper, partials);
  }

  lemma LazyStopBounds(
      terms: seq<TermBlock>, count: nat, at: seq<nat>, heap: seq<Item>, upper: real, partials: map<nat, real>)
    requires AllWellFormed(terms, count) && OnTrack(terms, at, heap, upper) && Accumulates(terms, at, partials)
    ensures forall d :: d in partials ==> partials[d] <= TotalMass(terms, d) <= partials[d] + upper
    ensures forall d: nat :: d !in partials ==> TotalMass(terms, d) <= upper
    ensures heap == [] ==> DocumentsOf(terms) <= partials.Keys && upper == 0.0
  {
    forall d: nat
      ensures PartialScore(partials, d) <= TotalMass(terms, d) <= PartialScore(partials, d) + upper
    {
      TotalMassBounds(terms, count, at, d);
      assert Sum(Masses(terms, at, d)) == PartialScore(partials, d);
    }
    forall d | d in partials
      ensures partials[d] <= TotalMass(terms, d) <= partials[d] + upper
    {
      assert PartialScore(partials, d) == partials[d];
    }
    if heap == [] {
      NoCursorsLeft(terms, at, 0);
      forall d | d in DocumentsOf(terms) ensures d in partials.Keys {
        AllDecoded(terms, at, partials.Keys, d);
      }
    }
  }

  // ----- resolution -----

  /** Offers the pending candidates by descending optimistic score until the best one left cannot matter. */
  method ResolveBoundedCandidates(state: ExactTopK, optimistic: map<nat, real>, e: real) returns (resolved: nat)
    requires state.Valid() && NonNegative(state.scores) && e >= 0.0
    requires forall d :: d in optimistic ==> d < |state.scores|
    modifies state, state.seen
    ensures state.Valid()
    ensures old(state.Seen()) <= state.Seen() <= old(state.Seen()) + optimistic.Keys
    ensures resolved == |state.Seen()| - |old(state.Seen())|
    ensures forall d :: d in optimistic && state.scores[d] <= optimistic[d] ==>
      Discharged(state.scores, state.k, state.Seen(), e, d)
  {
    var candidates := Candidates(state, optimistic);
    ghost var start := state.Seen();
    resolved := 0;
    while candidates != []
      invariant state.Valid()
      invariant start <= state.Seen() <= start + optimistic.Keys
      invariant resolved == |state.Seen()| - |start|
      invariant Ascending(candidates)
      invariant forall x :: x in candidates ==> x.id >= 0 && x.id in optimistic && x == Item(-optimistic[x.id], x.id)
      invariant forall d :: d in optimistic ==> d in state.Seen() || Item(-optimistic[d], d) in candidates
      decreases |candidates|
    {
      var best := candidates[0];
      assert best in candidates;
      if state.CanStop(-best.key, e) {
        forall d | d in optimistic && d !in state.Seen() && state.scores[d] <= optimistic[d]
          ensures Discharged(state.scores, state.k, state.Seen(), e, d)
        {
          var i :| 0 <= i < |candidates| && candidates[i] == Item(-optimistic[d], d);
          assert i > 0 ==> Less(candidates[0], candidates[i]);
          state.StopDischarges(-best.key, e, d);
        }
        return;
      }
      assert candidates == [best] + candidates[1..];
      candidates := candidates[1..];
      SizeAfterAdding(state.Seen(), best.id);
      var isNew := state.Offer(best.id);
      if isNew { resolved := resolved + 1; }
    }
  }

  /** The candidate queue: the unseen documents under their optimistic scores. */
  method Candidates(state: ExactTopK, optimistic: map<nat, real>) returns (candidates: seq<Item>)
    requires state.Valid()
    requires forall d :: d in optimistic ==> d < |state.scores|
    ensures Ascending(candidates)
    ensures forall x :: x in candidates ==> x.id >= 0 && x.id in optimistic && x == Item(-optimistic[x.id], x.id)
    ensures forall x :: x in candidates ==> x.id !in state.Seen()
    ensures forall d :: d in optimistic ==> d in state.Seen() || Item(-optimistic[d], d) in candidates
  {
    candidates := [];
    var todo := optimistic.Keys;
    while todo != {}
      invariant todo <= optimistic.Keys
      invariant Ascending(candidates)
      invariant forall x :: x in candidates ==>
        x.id >= 0 && x.id in optimistic && x.id !in todo && x == Item(-optimistic[x.id], x.id)
      invariant forall x :: x in candidates ==> x.id !in state.Seen()
      invariant forall d :: d in optimistic && d !in todo ==>
        d in state.Seen() || Item(-optimistic[d], d) in candidates
      decreases |todo|
    {
      var document :| document in todo;
      todo := todo - {document};
      if !state.seen[document] {
        candidates := Push(candidates, Item(-optimistic[document], document));
      }
    }
  }

  /** Partial scores raised by what the undecoded postings can still add. */
  function Optimistic(partials: map<nat, real>, remaining: real): map<nat, real> {
    map d | d in partials :: partials[d] + remaining
  }

  // ----- frontiers over whole posting lists -----

  /** `state.finish()` once every posted document is discharged. */
  method FinishRow(state: ExactTopK, ghost seeds: set<nat>, ghost blocks: seq<seq<TermBlock>>, ghost e: real)
    returns (top: seq<nat>)
    requires state.Valid() && NonNegative(state.scores) && e >= 0.0
    requires SafeBlocks(state.scores, seeds, blocks) && InRange(state.scores, BlockDocuments(blocks))
    requires seeds <= state.Seen() <= seeds + BlockDocuments(blocks)
    requires AllDischarged(state.scores, state.k, state.Seen(), e, BlockDocuments(blocks))
    modifies state, state.seen
    ensures state.Valid()
    ensures Answers(state.scores, state.k, seeds + BlockDocuments(blocks), e, top)
    ensures Padded(|state.scores|, state.k, old(state.Seen()), state.Seen())
    ensures IsBestOf(state.scores, state.Seen(), state.k, top)
    ensures Scored(|state.scores|, state.k, seeds, BlockDocuments(blocks), state.Seen(), |old(state.Seen())| - |seeds|)
  {
    ghost var seen := state.Seen();
    top := state.Finish();
    DischargedBlocksAnswer(state.scores, state.k, seeds, seen, state.Seen(), blocks, e, top);
  }

  lemma OneBlock(terms: seq<TermBlock>)
    ensures [terms][0] == terms
    ensures BlockDocuments([terms]) == DocumentsOf(terms)
  {
    forall d | d in DocumentsOf(terms) ensures d in BlockDocuments([terms]) {
      assert d in DocumentsOf([terms][0]);
    }
  }

  method FullResidualUnion(state: ExactTopK, terms: seq<TermBlock>) returns (row: VariantRow)
    requires Ready(state, [terms], 0.0)
    modifies state, state.seen
    ensures state.Valid()
    ensures Answers(state.scores, state.k, old(state.Seen()) + BlockDocuments([terms]), 0.0, row.topDocuments)
    ensures Padded(|state.scores|, state.k, old(state.Seen()) + DocumentsOf(terms), state.Seen())
    ensures IsBestOf(state.scores, state.Seen(), state.k, row.topDocuments)
    ensures row.admittedDocuments == |old(state.Seen()) + DocumentsOf(terms)| - |old(state.Seen())|
    ensures row.decodedPostings == PostingCount(terms)
    ensures Scored(
      |state.scores|, state.k, old(state.Seen()), BlockDocuments([terms]), state.Seen(), row.admittedDocuments)
  {
    ghost var seeds := state.Seen();
    OneBlock(terms);
    assert AllWellFormed([terms][0], |state.scores|);
    var decoded, admitted := OfferUnion(state, terms);
    BlocksInRange([terms], state.scores);
    var top := FinishRow(state, seeds, [terms], 0.0);
    row := VariantRow(decoded, admitted, 0, top);
  }

  lemma AllBlocksInRange(terms: seq<TermBlock>, count: nat, o: nat)
    requires AllWellFormed(terms, count) && o < |terms|
    ensures forall i :: 0 <= i < |terms[o].postings| ==> PostingDocuments(terms[o].postings)[i] < count
  {
    assert terms[o].WellFormed(count);
  }

  /** The loop of the union: every document of every term is offered. */
  method OfferUnion(state: ExactTopK, terms: seq<TermBlock>) returns (decoded: nat, admitted: nat)
    requires state.Valid() && AllWellFormed(terms, |state.scores|)
    modifies state, state.seen
    ensures state.Valid()
    ensures state.Seen() == old(state.Seen()) + DocumentsOf(terms)
    ensures admitted == |state.Seen()| - |old(state.Seen())| && decoded == PostingCount(terms)
  {
    ghost var seeds := state.Seen();
    decoded, admitted := 0, 0;
    for offset := 0 to |terms|
      invariant state.Valid()
      invariant forall d :: d in state.Seen() <==> d in seeds || d in DocumentsBefore(terms, offset)
      invariant admitted == |state.Seen()| - |seeds| && decoded == PostingCount(terms[..offset])
    {
      TotalSnoc(terms, offset, ListSize());
      AllBlocksInRange(terms, |state.scores|, offset);
      decoded := decoded + |terms[offset].postings|;
      var n := state.OfferMany(PostingDocuments(terms[offset].postings));
      admitted := admitted + n;
    }
    assert state.Seen() == seeds + DocumentsOf(terms) && terms[..|terms|] == terms;
  }

  method GlobalImpactFrontier(state: ExactTopK, terms: seq<TermBlock>, e: real) returns (row: VariantRow)
    requires Ready(state, [terms], e)
    modifies state, state.seen
    ensures state.Valid()
    ensures Answers(state.scores, state.k, old(state.Seen()) + BlockDocuments([terms]), e, row.topDocuments)
    ensures Scored(
      |state.scores|, state.k, old(state.Seen()), BlockDocuments([terms]), state.Seen(), row.admittedDocuments)
    ensures row.decodedPostings <= PostingCount(terms)
  {
    ghost var seeds := state.Seen();
    OneBlock(terms);
    BlocksInRange([terms], state.scores);
    assert AllWellFormed([terms][0], |state.scores|) && SafeBlock(state.scores, seeds, [terms][0]);
    var decoded, admitted := OfferByImpact(state, terms, e);
    var top := FinishRow(state, seeds, [terms], e);
    row := VariantRow(decoded, admitted, |terms|, top);
  }

  method GlobalImpactLazyFrontier(state: ExactTopK, terms: seq<TermBlock>, e: real) returns (row: VariantRow)
    requires Ready(state, [terms], e)
    modifies state, state.seen
    ensures state.Valid()
    ensures Answers(state.scores, state.k, old(state.Seen()) + BlockDocuments([terms]), e, row.topDocuments)
    ensures Scored(
      |state.scores|, state.k, old(state.Seen()), BlockDocuments([terms]), state.Seen(), row.admittedDocuments)
    ensures row.decodedPostings <= PostingCount(terms)
  {
    ghost var seeds := state.Seen();
    OneBlock(terms);
    BlocksInRange([terms], state.scores);
    assert AllWellFormed([terms][0], |state.scores|) && SafeBlock(state.scores, seeds, [terms][0]);
    var partials, upper, decoded := DecodeByImpact(state, terms, e);
    LeftoversDischarged(state, seeds, terms, e, partials, upper);
    var resolved := ResolvePartialCandidates(state, partials, upper, e);
    forall d | d in DocumentsOf(terms) && d < |state.scores|
      ensures Discharged(state.scores, state.k, state.Seen(), e, d)
    {
      if d !in seeds && d !in partials {
        DischargedStays(state.scores, state.k, seeds, state.Seen(), e, d);
      }
    }
    var top := FinishRow(state, seeds, [terms], e);
    row := VariantRow(decoded, resolved, |terms|, top);
  }

  /** What a lazy decoding never reached no longer matters. */
  lemma LeftoversDischarged(
      state: ExactTopK, seeds: set<nat>, terms: seq<TermBlock>, e: real, partials: map<nat, real>, upper: real)
    requires state.Valid() && e >= 0.0 && SafeBlock(state.scores, seeds, terms) && seeds <= state.Seen()
    requires forall d: nat :: d !in partials ==> TotalMass(terms, d) <= upper
    requires DocumentsOf(terms) <= partials.Keys || state.CanStop(upper, e)
    ensures AllDischarged(state.scores, state.k, state.Seen(), e, DocumentsOf(terms) - partials.Keys)
  {
    forall d | d in DocumentsOf(terms) - partials.Keys && d < |state.scores|
      ensures Discharged(state.scores, state.k, state.Seen(), e, d)
    {
      if d !in seeds { state.StopDischarges(upper, e, d); }
    }
  }

  method ResolvePartialCandidates(state: ExactTopK, partials: map<nat, real>, remaining: real, e: real)
    returns (resolved: nat)
    requires state.Valid() && NonNegative(state.scores) && e >= 0.0
    requires forall d :: d in partials ==> d < |state.scores|
    modifies state, state.seen
    ensures state.Valid()
    ensures old(state.Seen()) <= state.Seen() <= old(state.Seen()) + partials.Keys
    ensures resolved == |state.Seen()| - |old(state.Seen())|
    ensures forall d :: d in partials && state.scores[d] <= partials[d] + remaining ==>
      Discharged(state.scores, state.k, state.Seen(), e, d)
  {
    resolved := ResolveBoundedCandidates(state, Optimistic(partials, remaining), e);
  }
}
