/** Seeding the accumulator and running one traversal variant for one query, as the audit's main loop does. */
module Evaluation {
  import opened Arithmetic
  import opened Results
  import opened Heapq
  import opened Ranking
  import opened Stopping
  import opened ZeroScores
  import opened TopKState
  import opened Postings
  import opened Quantization
  import opened Tables
  import opened Frontiers
  import opened BlockFrontiers
  import opened Hierarchy
  import opened BlockSplit
  import opened Pipeline

  // ----- seeds -----

  /** What one selected term admits: its best `cap` documents, or all of them when there is no cap. */
  function Admitted(p: PostingList, cap: nat): PostingList
    requires DistinctDocuments(p)
  {
    if cap == 0 then p
    else if cap <= |p| then ImpactOrder(p)[..cap]
    else ImpactOrder(p)
  }

  method InsertAll(union: seq<nat>, p: PostingList) returns (r: seq<nat>)
    requires AscendingIds(union)
    ensures AscendingIds(r)
    ensures forall d: nat :: d in r <==> d in union || Holds(p, d)
  {
    r := union;
    for i := 0 to |p|
      invariant AscendingIds(r)
      invariant forall d: nat :: d in r <==> d in union || Holds(p[..i], d)
    {
      HoldsSnoc(p, i);
      r := InsertId(r, p[i].document);
    }
    assert p[..|p|] == p;
  }

  lemma HoldsSnoc(p: PostingList, n: nat)
    requires n < |p|
    ensures forall d: nat :: Holds(p[..n + 1], d) <==> Holds(p[..n], d) || d == p[n].document
  {
    forall d: nat ensures Holds(p[..n + 1], d) <==> Holds(p[..n], d) || d == p[n].document {
      if Holds(p[..n], d) {
        var i :| 0 <= i < n && p[..n][i].document == d;
        assert p[..n + 1][i].document == d;
      }
      if d == p[n].document {
        assert p[..n + 1][n].document == d;
      }
      if Holds(p[..n + 1], d) {
        var i :| 0 <= i < n + 1 && p[..n + 1][i].document == d;
        assert i < n ==> p[..n][i].document == d;
      }
    }
  }

  /** Some selected query term among the first `n` admits `d`. */
  ghost predicate AdmittedBefore(corpus: Corpus, query: Query, selected: seq<bool>, cap: nat, n: nat, d: nat)
    requires corpus.Valid() && ValidQuery(corpus, query) && |selected| == |corpus.columns| && n <= |query|
  {
    exists q :: 0 <= q < n && selected[query[q].termId] && AdmitsDocument(corpus, query[q], cap, d)
  }

  ghost predicate AdmitsDocument(corpus: Corpus, q: QueryTerm, cap: nat, d: nat)
    requires corpus.Valid() && q.termId < |corpus.columns|
  {
    assert ValidColumn(corpus.columns[q.termId], corpus.documentCount);
    Holds(Admitted(corpus.columns[q.termId], cap), d)
  }

  lemma AdmittedIsHeld(corpus: Corpus, q: QueryTerm, cap: nat, d: nat)
    requires corpus.Valid() && q.termId < |corpus.columns|
    ensures AdmitsDocument(corpus, q, cap, d) ==> Holds(corpus.columns[q.termId], d) && d < corpus.documentCount
    ensures cap == 0 ==> (AdmitsDocument(corpus, q, cap, d) <==> Holds(corpus.columns[q.termId], d))
  {
    var p := corpus.columns[q.termId];
    assert ValidColumn(p, corpus.documentCount);
    if AdmitsDocument(corpus, q, cap, d) {
      var a := Admitted(p, cap);
      var i :| 0 <= i < |a| && a[i].document == d;
      assert a[i] == (if cap == 0 then p else ImpactOrder(p))[i];
      assert cap > 0 ==> ImpactOrder(p)[i] in ImpactOrder(p);
      assert a[i] in p;
      var j :| 0 <= j < |p| && p[j] == a[i];
    }
  }

  /** The selected part of the query, which ranks the seeds when only a fraction is kept. */
  function SelectedQuery(query: Query, selected: seq<bool>): (r: Query)
    requires forall q :: 0 <= q < |query| ==> query[q].termId < |selected|
    ensures forall q :: 0 <= q < |r| ==> r[q].termId < |selected|
  {
    if query == [] then []
    else if selected[query[0].termId] then [query[0]] + SelectedQuery(query[1..], selected)
    else SelectedQuery(query[1..], selected)
  }

  function SeedTarget(size: nat, k: nat, fraction: real): nat
    requires fraction >= 0.0
  {
    var wanted := Ceil(fraction * (size as real));
    var most := if wanted < k then k else wanted;
    if size < most then size else most
  }

  /** `np.unique` of everything the selected query terms admit. */
  method SeedUnion(corpus: Corpus, query: Query, selected: seq<bool>, cap: nat) returns (ids: seq<nat>)
    requires corpus.Valid() && ValidQuery(corpus, query) && |selected| == |corpus.columns|
    ensures AscendingIds(ids)
    ensures forall d: nat :: d in ids <==> AdmittedBefore(corpus, query, selected, cap, |query|, d)
  {
    ids := [];
    for n := 0 to |query|
      invariant AscendingIds(ids)
      invariant forall d: nat :: d in ids <==> AdmittedBefore(corpus, query, selected, cap, n, d)
    {
      if selected[query[n].termId] {
        assert ValidColumn(corpus.columns[query[n].termId], corpus.documentCount);
        ghost var before := ids;
        ids := InsertAll(ids, Admitted(corpus.columns[query[n].termId], cap));
        assert forall d: nat :: d in ids <==> d in before || AdmitsDocument(corpus, query[n], cap, d);
      }
      AdmittedStep(corpus, query, selected, cap, n);
    }
  }

  lemma AdmittedStep(corpus: Corpus, query: Query, selected: seq<bool>, cap: nat, n: nat)
    requires corpus.Valid() && ValidQuery(corpus, query) && |selected| == |corpus.columns| && n < |query|
    ensures forall d: nat :: AdmittedBefore(corpus, query, selected, cap, n + 1, d) <==>
      AdmittedBefore(corpus, query, selected, cap, n, d)
      || (selected[query[n].termId] && AdmitsDocument(corpus, query[n], cap, d))
  {
  }

  /** Everything the selected query terms admit. */
  ghost function AdmittedSet(corpus: Corpus, query: Query, selected: seq<bool>, cap: nat): (r: set<nat>)
    requires corpus.Valid() && ValidQuery(corpus, query) && |selected| == |corpus.columns|
    ensures forall d: nat :: d in r <==> AdmittedBefore(corpus, query, selected, cap, |query|, d)
    ensures InRange(Scores(corpus, query), r)
  {
    AdmittedInRange(corpus, query, selected, cap);
    set d: nat | d < corpus.documentCount && AdmittedBefore(corpus, query, selected, cap, |query|, d)
  }

  lemma AdmittedInRange(corpus: Corpus, query: Query, selected: seq<bool>, cap: nat)
    requires corpus.Valid() && ValidQuery(corpus, query) && |selected| == |corpus.columns|
    ensures forall d: nat :: AdmittedBefore(corpus, query, selected, cap, |query|, d) ==> d < corpus.documentCount
  {
    forall d: nat | AdmittedBefore(corpus, query, selected, cap, |query|, d) ensures d < corpus.documentCount {
      var q :| 0 <= q < |query| && selected[query[q].termId] && AdmitsDocument(corpus, query[q], cap, d);
      AdmittedIsHeld(corpus, query[q], cap, d);
    }
  }

  /** The seeds: everything admitted, or its best share by the score on the selected terms. */
  ghost function SeedSet(
      corpus: Corpus, query: Query, selected: seq<bool>, fraction: real, cap: nat, k: nat): (r: set<nat>)
    requires corpus.Valid() && ValidQuery(corpus, query) && |selected| == |corpus.columns| && fraction > 0.0
    ensures r <= AdmittedSet(corpus, query, selected, cap)
  {
    var union := AdmittedSet(corpus, query, selected, cap);
    if cap > 0 || fraction >= 1.0 then union
    else SetOf(BestOfPool(Scores(corpus, SelectedQuery(query, selected)), union, SeedTarget(|union|, k, fraction)))
  }

  method SelectedSeedDocuments(
      corpus: Corpus, query: Query, selected: seq<bool>, fraction: real, cap: nat, k: nat)
    returns (seeds: seq<nat>)
    requires corpus.Valid() && ValidQuery(corpus, query) && |selected| == |corpus.columns|
    requires fraction > 0.0
    ensures SetOf(seeds) <= AdmittedSet(corpus, query, selected, cap)
    ensures cap > 0 || fraction >= 1.0 ==> SetOf(seeds) == AdmittedSet(corpus, query, selected, cap)
    ensures cap == 0 && fraction < 1.0 ==>
      InRange(Scores(corpus, SelectedQuery(query, selected)), AdmittedSet(corpus, query, selected, cap))
    ensures cap == 0 && fraction < 1.0 ==> IsBestOf(
      Scores(corpus, SelectedQuery(query, selected)), AdmittedSet(corpus, query, selected, cap),
      SeedTarget(|AdmittedSet(corpus, query, selected, cap)|, k, fraction), seeds)
    ensures SetOf(seeds) == SeedSet(corpus, query, selected, fraction, cap, k)
  {
    var ids := SeedUnion(corpus, query, selected, cap);
    ghost var union := AdmittedSet(corpus, query, selected, cap);
    assert SetOf(ids) == union;
    if cap > 0 || fraction >= 1.0 {
      seeds := ids;
    } else {
      var scores := Scores(corpus, SelectedQuery(query, selected));
      seeds := BestSeeds(scores, ids, k, fraction);
      ghost var target := SeedTarget(|union|, k, fraction);
      BestOfUnique(scores, union, target, seeds, BestOfPool(scores, union, target));
    }
  }

  method BestSeeds(scores: seq<real>, ids: seq<nat>, k: nat, fraction: real) returns (seeds: seq<nat>)
    requires AscendingIds(ids) && fraction > 0.0 && InRange(scores, SetOf(ids))
    ensures IsBestOf(scores, SetOf(ids), SeedTarget(|SetOf(ids)|, k, fraction), seeds)
  {
    assert forall i :: 0 <= i < |ids| ==> ids[i] in SetOf(ids);
    assert Distinct(ids);
    var all := RankOrder(scores, ids);
    RankedSetSize(scores, all);
    assert SetOf(all) == SetOf(ids);
    var target := SeedTarget(|ids|, k, fraction);
    PrefixIsBest(scores, SetOf(ids), all, target);
    seeds := if target <= |all| then all[..target] else all;
  }

  // ----- one variant -----

  datatype Variant =
    | FullUnion
    | GlobalImpact
    | GlobalImpactLazy
    | BlockOnly(shift: nat, bits: nat)
    | BlockImpact(shift: nat, bits: nat)
    | BlockBatched(shift: nat, bits: nat, batch: nat, byBound: bool)
    | Hierarchical(shift: nat, superShift: nat, bits: nat, batch: nat, byBound: bool)

  predicate UsesBlocks(v: Variant) {
    !v.FullUnion? && !v.GlobalImpact? && !v.GlobalImpactLazy?
  }

  /** What the script refuses when it checks its arguments. */
  predicate RefusedArguments(v: Variant, k: int, includeTail: bool, fraction: real, cap: int, e: real) {
    || k <= 0 || fraction <= 0.0 || fraction > 1.0 || cap < 0
    || (!includeTail && (fraction < 1.0 || cap > 0))
    || (UsesBlocks(v) && (v.shift < 1 || v.shift > 20 || (v.bits != 8 && v.bits != 32)))
    || (v.Hierarchical? && (v.superShift < 2 || v.superShift > 24))
    || e < 0.0 || e > 1.0
  }

  /** What a variant raises on by itself. */
  predicate RefusedVariant(v: Variant, terms: seq<TermBlock>) {
    || (UsesBlocks(v) && terms != [] && v.bits != 8 && v.bits != 32)
    || (v.Hierarchical? && v.superShift <= v.shift)
  }

  /** The error ratio that applies; the full union takes none. */
  function RatioOf(v: Variant, e: real): real {
    if v.FullUnion? then 0.0 else e
  }

  /** What a query can score: its seeds and the documents its residual terms post. */
  ghost function CandidateSet(
      corpus: Corpus, query: Query, selected: seq<bool>, includeTail: bool, fraction: real, cap: nat, k: nat)
    : (r: set<nat>)
    requires corpus.Valid() && ValidQuery(corpus, query) && |selected| == |corpus.columns| && fraction > 0.0
    ensures InRange(Scores(corpus, query), r)
  {
    var seeds := SeedSet(corpus, query, selected, fraction, cap, k);
    PostedInRange(corpus, query, selected, includeTail);
    seeds + DocumentsOf(ResidualTerms(corpus, query, selected, includeTail))
  }

  lemma PostedInRange(corpus: Corpus, query: Query, selected: seq<bool>, includeTail: bool)
    requires corpus.Valid() && ValidQuery(corpus, query) && |selected| == |corpus.columns|
    ensures InRange(Scores(corpus, query), DocumentsOf(ResidualTerms(corpus, query, selected, includeTail)))
  {
    forall d | d in DocumentsOf(ResidualTerms(corpus, query, selected, includeTail)) ensures d < corpus.documentCount {
      ResidualDocuments(corpus, query, selected, includeTail, d);
      var q :| 0 <= q < |query| && Holds(corpus.columns[query[q].termId], d);
      AdmittedIsHeld(corpus, query[q], 0, d);
    }
  }

  /** The promise `Answers` about the exact scores of a query, whose zero ratio case is an if and only if. */
  ghost predicate AnswersQuery(
      corpus: Corpus, query: Query, candidates: set<nat>, k: nat, e: real, top: seq<nat>)
    requires ValidQuery(corpus, query)
  {
    Answers(Scores(corpus, query), k, candidates, e, top)
  }

  lemma FullSeedsCover(corpus: Corpus, query: Query, selected: seq<bool>, union: set<nat>)
    requires corpus.Valid() && ValidQuery(corpus, query) && |selected| == |corpus.columns|
    requires forall d: nat :: d in union <==> AdmittedBefore(corpus, query, selected, 0, |query|, d)
    ensures SeedsCover(corpus, query, selected, false, union)
  {
    forall q, d: nat | 0 <= q < |query| && selected[query[q].termId] && Holds(corpus.columns[query[q].termId], d)
      ensures d in union
    {
      AdmittedIsHeld(corpus, query[q], 0, d);
      assert AdmittedBefore(corpus, query, selected, 0, |query|, d);
    }
  }

  /** What every run of a query starts from. */
  ghost predicate Seeded(scores: seq<real>, seeds: seq<nat>, terms: seq<TermBlock>) {
    && NonNegative(scores)
    && (forall i :: 0 <= i < |seeds| ==> seeds[i] < |scores|)
    && AllWellFormed(terms, |scores|) && DistinctTerms(terms)
    && InRange(scores, SetOf(seeds) + DocumentsOf(terms))
    && SafeBlocks(scores, SetOf(seeds), [terms])
  }

  /** The seeds and the residual terms of a query are ready for any run. */
  method Prepare(
      corpus: Corpus, query: Query, selected: seq<bool>, includeTail: bool, fraction: real, cap: nat, k: nat)
    returns (seeds: seq<nat>, terms: seq<TermBlock>)
    requires corpus.Valid() && ValidQuery(corpus, query) && |selected| == |corpus.columns|
    requires fraction > 0.0 && (includeTail || (fraction >= 1.0 && cap == 0))
    ensures SetOf(seeds) == SeedSet(corpus, query, selected, fraction, cap, k)
    ensures terms == ResidualTerms(corpus, query, selected, includeTail)
    ensures Seeded(Scores(corpus, query), seeds, terms)
  {
    seeds := SelectedSeedDocuments(corpus, query, selected, fraction, cap, k);
    ghost var union := AdmittedSet(corpus, query, selected, cap);
    SeedsInRange(Scores(corpus, query), seeds, union);
    terms := ResidualQueryTerms(corpus, query, selected, includeTail);
    if !includeTail { FullSeedsCover(corpus, query, selected, union); }
    ResidualIsSafe(corpus, query, selected, includeTail, SetOf(seeds));
    PostedInRange(corpus, query, selected, includeTail);
  }

  lemma SeedsInRange(scores: seq<real>, seeds: seq<nat>, union: set<nat>)
    requires SetOf(seeds) <= union && InRange(scores, union)
    ensures forall i :: 0 <= i < |seeds| ==> seeds[i] < |scores|
  {
    assert forall i :: 0 <= i < |seeds| ==> seeds[i] in SetOf(seeds);
  }

  /** The blocks of the residual terms are ready whenever the terms are. */
  lemma BlocksReady(
      state: ExactTopK, terms: seq<TermBlock>, bits: nat, ulp: real, shift: nat, blocks: BlockMap, e: real)
    requires Ready(state, [terms], 0.0) && e >= 0.0 && ulp > 0.0 && DistinctTerms(terms)
    requires terms == [] ==> blocks == []
    requires AllWellFormed(terms, |state.scores|) && (terms != [] ==> bits == 8 || bits == 32)
    requires terms != [] ==> HoldsBlocks(blocks, BoundedTerms(terms, bits, ulp), |state.scores|, shift)
    ensures Ready(state, Values(blocks), e)
    ensures BlockDocuments(Values(blocks)) == BlockDocuments([terms])
    ensures DistinctKeys(blocks) && forall x :: x in blocks ==> DistinctTerms(x.value)
  {
    OneBlock(terms);
    if terms != [] {
      BlocksAreSafe(state.scores, state.Seen(), terms, bits, ulp, shift, blocks);
    }
  }

  method BuildBlocks(state: ExactTopK, terms: seq<TermBlock>, shift: nat, bits: nat, ulp: real, ghost e: real)
    returns (blocks: Result<BlockMap>)
    requires Ready(state, [terms], 0.0) && e >= 0.0 && ulp > 0.0 && DistinctTerms(terms)
    ensures blocks.Error? <==> terms != [] && bits != 8 && bits != 32
    ensures blocks.Ok? ==>
      && Ready(state, Values(blocks.value), e)
      && BlockDocuments(Values(blocks.value)) == BlockDocuments([terms])
      && BlockPostings(Values(blocks.value)) <= PostingCount(terms)
      && DistinctKeys(blocks.value) && forall x :: x in blocks.value ==> DistinctTerms(x.value)
  {
    assert AllWellFormed([terms][0], |state.scores|);
    blocks := QueryBlocks(terms, |state.scores|, shift, bits, ulp);
    if blocks.Ok? {
      BlocksReady(state, terms, bits, ulp, shift, blocks.value, e);
      if terms != [] { BlocksAddNone(terms, |state.scores|, bits, ulp, shift, blocks.value); }
    }
  }

  /** What one run promises: its answer, and that it scored candidates only. */
  ghost predicate Delivers(state: ExactTopK, seeds: set<nat>, candidates: set<nat>, e: real, row: VariantRow)
    reads state, state.seen
  {
    && Answers(state.scores, state.k, seeds + candidates, e, row.topDocuments)
    && Scored(|state.scores|, state.k, seeds, candidates, state.Seen(), row.admittedDocuments)
  }

  /** No run admits more documents or decodes more postings than the full union, which admits and decodes all. */
  ghost predicate Works(seeds: set<nat>, candidates: set<nat>, postings: nat, v: Variant, row: VariantRow) {
    && row.admittedDocuments <= |seeds + candidates| - |seeds|
    && row.decodedPostings <= postings
    && (v.FullUnion? ==>
          row.admittedDocuments == |seeds + candidates| - |seeds| && row.decodedPostings == postings)
  }

  /** A run that scored candidates only admitted no more than there are. */
  lemma AdmittedAtMost(n: nat, k: nat, seeds: set<nat>, candidates: set<nat>, final: set<nat>, admitted: int)
    requires Scored(n, k, seeds, candidates, final, admitted)
    ensures admitted <= |seeds + candidates| - |seeds|
  {
    var seen :| Padded(n, k, seen, final) && seeds <= seen <= seeds + candidates && admitted == |seen| - |seeds|;
    SubsetSize(seen, seeds + candidates);
  }

  /** The variants over whole posting lists. */
  method RunWhole(state: ExactTopK, terms: seq<TermBlock>, v: Variant, e: real) returns (row: VariantRow)
    requires Ready(state, [terms], 0.0) && e >= 0.0 && !UsesBlocks(v)
    modifies state, state.seen
    ensures Delivers(state, old(state.Seen()), BlockDocuments([terms]), RatioOf(v, e), row)
    ensures Works(old(state.Seen()), BlockDocuments([terms]), PostingCount(terms), v, row)
  {
    ghost var seeds := state.Seen();
    OneBlock(terms);
    match v {
    case FullUnion =>
      row := FullResidualUnion(state, terms);
    case GlobalImpact =>
      row := GlobalImpactFrontier(state, terms, e);
    case GlobalImpactLazy =>
      row := GlobalImpactLazyFrontier(state, terms, e);
    }
    AdmittedAtMost(|state.scores|, state.k, seeds, BlockDocuments([terms]), state.Seen(), row.admittedDocuments);
  }

  /** The variants over blocks. */
  method RunBlocks(state: ExactTopK, blocks: BlockMap, v: Variant, e: real) returns (row: Result<VariantRow>)
    requires Ready(state, Values(blocks), e) && UsesBlocks(v)
    requires DistinctKeys(blocks) && forall x :: x in blocks ==> DistinctTerms(x.value)
    modifies state, state.seen
    ensures row.Error? <==> v.Hierarchical? && v.superShift <= v.shift
    ensures row.Ok? ==> Delivers(state, old(state.Seen()), BlockDocuments(Values(blocks)), RatioOf(v, e), row.value)
    ensures row.Ok? ==> row.value.decodedPostings <= BlockPostings(Values(blocks))
  {
    match v
    case BlockOnly(shift, bits) =>
      var r := BlockOnlyFrontier(state, blocks, e);
      row := Ok(r);
    case BlockImpact(shift, bits) =>
      var r := BlockImpactFrontier(state, blocks, e);
      row := Ok(r);
    case BlockBatched(shift, bits, batch, byBound) =>
      var r := BlockImpactBatchedFrontier(state, blocks, e, batch, byBound);
      row := Ok(r);
    case Hierarchical(shift, superShift, bits, batch, byBound) =>
      row := HierarchicalBlockImpactFrontier(state, blocks, shift, superShift, e, batch, byBound);
  }

  method RunVariant(state: ExactTopK, terms: seq<TermBlock>, v: Variant, e: real, ulp: real)
    returns (row: Result<VariantRow>)
    requires Ready(state, [terms], 0.0) && e >= 0.0 && ulp > 0.0 && DistinctTerms(terms)
    modifies state, state.seen
    ensures row.Error? <==> RefusedVariant(v, terms)
    ensures row.Ok? ==> Delivers(state, old(state.Seen()), BlockDocuments([terms]), RatioOf(v, e), row.value)
    ensures row.Ok? ==> Works(old(state.Seen()), BlockDocuments([terms]), PostingCount(terms), v, row.value)
  {
    ghost var seeds := state.Seen();
    if !UsesBlocks(v) {
      var r := RunWhole(state, terms, v, e);
      return Ok(r);
    }
    var blocks := BuildBlocks(state, terms, v.shift, v.bits, ulp, e);
    if blocks.Error? { return Error(blocks.reason); }
    row := RunBlocks(state, blocks.value, v, e);
    if row.Ok? {
      AdmittedAtMost(
        |state.scores|, state.k, seeds, BlockDocuments([terms]), state.Seen(), row.value.admittedDocuments);
    }
  }

  /** One run: a fresh accumulator, the seeds, and one variant. */
  method Run(scores: seq<real>, k: nat, seeds: seq<nat>, terms: seq<TermBlock>, v: Variant, e: real, ulp: real)
    returns (row: Result<VariantRow>)
    requires k > 0 && Seeded(scores, seeds, terms) && e >= 0.0 && ulp > 0.0
    ensures row.Error? <==> RefusedVariant(v, terms)
    ensures row.Ok? ==> Answers(scores, k, SetOf(seeds) + DocumentsOf(terms), RatioOf(v, e), row.value.topDocuments)
    ensures row.Ok? ==> Works(SetOf(seeds), DocumentsOf(terms), PostingCount(terms), v, row.value)
  {
    var state := new ExactTopK(scores, k);
    var _ := state.OfferMany(seeds);
    assert state.Seen() == SetOf(seeds);
    OneBlock(terms);
    row := RunVariant(state, terms, v, e, ulp);
  }

  // ----- the check on the baseline -----

  /** `overlap(left, right)`: the shared share of the shorter list. */
  function Overlap(left: seq<nat>, right: seq<nat>): real {
    var shorter := if |left| < |right| then |left| else |right|;
    |(set d | d in left) * (set d | d in right)| as real / (if shorter < 1 then 1 else shorter) as real
  }

  /** Two rankings of the same length overlap completely if and only if they are the same nonempty list. */
  lemma OverlapIsOne(scores: seq<real>, left: seq<nat>, right: seq<nat>)
    requires Ranked(scores, left) && Ranked(scores, right) && |left| == |right|
    ensures Overlap(left, right) == 1.0 <==> left == right && left != []
  {
    var a, b := SetOf(left), SetOf(right);
    RankedSetSize(scores, left);
    RankedSetSize(scores, right);
    assert a == (set d | d in left) && b == (set d | d in right);
    SubsetSize(a * b, a);
    if left != [] { ShareIsOne(|a * b|, |left|); }
    if |a * b| == |left| && left != [] {
      SubsetOfSameSize(a * b, a);
      SubsetOfSameSize(a * b, b);
      RankedUnique(scores, left, right);
    }
    if left == right { assert a * b == a; }
  }

  /** The union of the candidates fails the script's check: the corpus is empty, or a gap among zero scores shows. */
  ghost predicate BaselineFails(scores: seq<real>, k: nat, candidates: set<nat>)
    requires InRange(scores, candidates)
  {
    scores == [] || VisibleGap(scores, k, candidates)
  }

  lemma BaselineOverlap(scores: seq<real>, k: nat, candidates: set<nat>, r: seq<nat>)
    requires k > 0 && Answers(scores, k, candidates, 0.0, r)
    ensures Overlap(r, TopK(scores, k)) == 1.0 <==> !BaselineFails(scores, k, candidates)
  {
    TopKIsBest(scores, k);
    OverlapIsOne(scores, r, TopK(scores, k));
  }

  /**
   Main theorem: the script raises exactly on refused inputs and on queries whose baseline union is not exact, and
   otherwise every variant answers the query, for every shift, batch size, ordering and bound precision; at ratio
   zero with the reference list itself. No variant admits more documents or decodes more postings than the baseline.
   */
  method Evaluate(
      corpus: Corpus, query: Query, selected: seq<bool>, includeTail: bool, fraction: real, cap: int, k: int,
      v: Variant, e: real, ulp: real)
    returns (row: Result<VariantRow>)
    requires corpus.Valid() && ValidQuery(corpus, query) && |selected| == |corpus.columns| && ulp > 0.0
    ensures row.Error? <==>
      || RefusedArguments(v, k, includeTail, fraction, cap, e)
      || RefusedVariant(v, ResidualTerms(corpus, query, selected, includeTail))
      || BaselineFails(
           Scores(corpus, query), k, CandidateSet(corpus, query, selected, includeTail, fraction, cap, k))
    ensures row.Ok? ==> AnswersQuery(
      corpus, query, CandidateSet(corpus, query, selected, includeTail, fraction, cap, k), k, RatioOf(v, e),
      row.value.topDocuments)
    ensures row.Ok? && RatioOf(v, e) == 0.0 ==> row.value.topDocuments == TopK(Scores(corpus, query), k)
    ensures row.Ok? ==> Works(
      SeedSet(corpus, query, selected, fraction, cap, k),
      CandidateSet(corpus, query, selected, includeTail, fraction, cap, k),
      PostingCount(ResidualTerms(corpus, query, selected, includeTail)), v, row.value)
  {
    if RefusedArguments(v, k, includeTail, fraction, cap, e) { return Error("argument out of range"); }
    var scores := Scores(corpus, query);
    var seeds, terms := Prepare(corpus, query, selected, includeTail, fraction, cap, k);
    row := RunChecked(scores, k, seeds, terms, v, e, ulp);
    assert SetOf(seeds) + (SetOf(seeds) + DocumentsOf(terms)) == SetOf(seeds) + DocumentsOf(terms);
  }

  /** The baseline and its check. */
  method BaselineIsExact(scores: seq<real>, k: nat, seeds: seq<nat>, terms: seq<TermBlock>, ulp: real)
    returns (exact: bool)
    requires k > 0 && Seeded(scores, seeds, terms) && ulp > 0.0
    ensures exact <==> !BaselineFails(scores, k, SetOf(seeds) + DocumentsOf(terms))
  {
    var baseline := Run(scores, k, seeds, terms, FullUnion, 0.0, ulp);
    BaselineOverlap(scores, k, SetOf(seeds) + DocumentsOf(terms), baseline.value.topDocuments);
    exact := Overlap(baseline.value.topDocuments, TopK(scores, k)) == 1.0;
  }

  lemma PassedIsExact(scores: seq<real>, k: nat, candidates: set<nat>, r: seq<nat>)
    requires Answers(scores, k, candidates, 0.0, r) && !BaselineFails(scores, k, candidates)
    ensures r == TopK(scores, k)
  {
  }

  method RunChecked(scores: seq<real>, k: nat, seeds: seq<nat>, terms: seq<TermBlock>, v: Variant, e: real, ulp: real)
    returns (row: Result<VariantRow>)
    requires k > 0 && Seeded(scores, seeds, terms) && e >= 0.0 && ulp > 0.0
    ensures row.Error? <==>
      RefusedVariant(v, terms) || BaselineFails(scores, k, SetOf(seeds) + DocumentsOf(terms))
    ensures row.Ok? ==> Answers(scores, k, SetOf(seeds) + DocumentsOf(terms), RatioOf(v, e), row.value.topDocuments)
    ensures row.Ok? && RatioOf(v, e) == 0.0 ==> row.value.topDocuments == TopK(scores, k)
    ensures row.Ok? ==> Works(SetOf(seeds), DocumentsOf(terms), PostingCount(terms), v, row.value)
  {
    var exact := BaselineIsExact(scores, k, seeds, terms, ulp);
    if !exact {
      return Error("baseline candidate union is not exact");
    }
    row := Run(scores, k, seeds, terms, v, e, ulp);
    if row.Ok? && RatioOf(v, e) == 0.0 {
      PassedIsExact(scores, k, SetOf(seeds) + DocumentsOf(terms), row.value.topDocuments);
    }
  }

  // ----- when the baseline is exact -----

  lemma CandidateIsPosted(
      corpus: Corpus, query: Query, selected: seq<bool>, includeTail: bool, fraction: real, cap: nat, k: nat, d: nat)
    requires corpus.Valid() && ValidQuery(corpus, query) && |selected| == |corpus.columns| && fraction > 0.0
    requires d in CandidateSet(corpus, query, selected, includeTail, fraction, cap, k)
    ensures exists q :: 0 <= q < |query| && Holds(corpus.columns[query[q].termId], d)
  {
    if d in DocumentsOf(ResidualTerms(corpus, query, selected, includeTail)) {
      ResidualDocuments(corpus, query, selected, includeTail, d);
    } else {
      assert d in AdmittedSet(corpus, query, selected, cap);
      var q :| 0 <= q < |query| && selected[query[q].termId] && AdmitsDocument(corpus, query[q], cap, d);
      AdmittedIsHeld(corpus, query[q], cap, d);
    }
  }

  /** When the query's weights and its terms' postings are positive, there is no gap at any answer size. */
  lemma PositiveQueryHasNoGap(
      corpus: Corpus, query: Query, selected: seq<bool>, includeTail: bool, fraction: real, cap: nat, k: nat)
    requires corpus.Valid() && ValidQuery(corpus, query) && |selected| == |corpus.columns| && fraction > 0.0
    requires PositiveOn(corpus, query)
    ensures !VisibleGap(Scores(corpus, query), k, CandidateSet(corpus, query, selected, includeTail, fraction, cap, k))
  {
    var candidates := CandidateSet(corpus, query, selected, includeTail, fraction, cap, k);
    forall d | d in candidates ensures Score(corpus, query, d) > 0.0 {
      CandidateIsPosted(corpus, query, selected, includeTail, fraction, cap, k, d);
      var q :| 0 <= q < |query| && Holds(corpus.columns[query[q].termId], d);
      PostedImpactPositive(corpus.columns[query[q].termId], corpus.documentCount, d);
      assert Contributes(corpus, query, q, d);
      ScorePositive(corpus, query, d);
    }
    HasNoGap(Scores(corpus, query), k, candidates);
  }

  lemma PostedImpactPositive(p: PostingList, count: nat, d: nat)
    requires ValidColumn(p, count) && PositiveColumn(p) && Holds(p, d)
    ensures Impact(p, d) > 0.0
  {
    var i :| 0 <= i < |p| && p[i].document == d;
    ImpactBeforeAt(p, |p|, i);
  }

  /** Two documents; one selected term of weight zero posts the second. */
  const ZERO_CORPUS := Corpus(2, [[Posting(1, 5.0)]])
  const ZERO_QUERY: Query := [QueryTerm(0, 0.0)]

  lemma ZeroWeightScores()
    ensures ZERO_CORPUS.Valid() && ValidQuery(ZERO_CORPUS, ZERO_QUERY)
    ensures Scores(ZERO_CORPUS, ZERO_QUERY) == [0.0, 0.0]
  {
    assert ValidColumn(ZERO_CORPUS.columns[0], 2);
    assert ZERO_QUERY[..0] == [];
  }

  lemma ZeroWeightCandidates()
    requires ZERO_CORPUS.Valid() && ValidQuery(ZERO_CORPUS, ZERO_QUERY)
    ensures CandidateSet(ZERO_CORPUS, ZERO_QUERY, [true], false, 1.0, 0, 1) == {1}
  {
    var c, q := ZERO_CORPUS, ZERO_QUERY;
    assert q[..0] == [];
    assert ResidualTerms(c, q, [true], false) == [];
    forall d: nat ensures AdmittedBefore(c, q, [true], 0, 1, d) <==> d == 1 {
      AdmittedIsHeld(c, q[0], 0, d);
      if d == 1 { assert c.columns[0][0].document == d; }
    }
  }

  /** On two documents that score zero, of which the second is the only candidate, the union returns the second. */
  lemma SecondOfTwoZeros()
    ensures UnionAnswer([0.0, 0.0], 1, {1}) == [1] && TopK([0.0, 0.0], 1) == [0]
    ensures GapAt([0.0, 0.0], 1, {1}, 1, 0)
  {
    var scores := [0.0, 0.0];
    assert Positives(scores) == {} && ZerosBelow(scores, {1}, 1) == {} && FreeBelow({1}, 0) == {};
    assert PaddedSet(2, 1, {1}) == {1};
    BestOfUnique(scores, {1}, 1, [1], UnionAnswer(scores, 1, {1}));
    TopKIsBest(scores, 1);
    BestOfUnique(scores, All(2), 1, [0], TopK(scores, 1));
  }

  /**
   The failing input: the zero-weight term makes the second document the only candidate, so the union returns it
   where the reference list has the first, and the script raises.
   */
  lemma ZeroWeightCounterexample()
    ensures ZERO_CORPUS.Valid() && ValidQuery(ZERO_CORPUS, ZERO_QUERY)
    ensures CandidateSet(ZERO_CORPUS, ZERO_QUERY, [true], false, 1.0, 0, 1) == {1}
    ensures UnionAnswer(Scores(ZERO_CORPUS, ZERO_QUERY), 1, {1}) == [1]
    ensures TopK(Scores(ZERO_CORPUS, ZERO_QUERY), 1) == [0]
    ensures BaselineFails(Scores(ZERO_CORPUS, ZERO_QUERY), 1, {1})
  {
    ZeroWeightScores();
    ZeroWeightCandidates();
    SecondOfTwoZeros();
  }
}
