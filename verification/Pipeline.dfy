/**
 The input of the traversals: a corpus by columns, a query, the exact scores, and the residual terms left to traverse
 once the seeds are known.
 */
module Pipeline {
  import opened Arithmetic
  import opened Sums
  import opened Postings
  import opened Frontiers
  import opened Hierarchy
  import opened BlockSplit

  datatype Corpus = Corpus(documentCount: nat, columns: seq<PostingList>) {
    /** One posting per document and term, document ids in range, impacts nonnegative. */
    ghost predicate Valid() {
      forall t :: 0 <= t < |columns| ==> ValidColumn(columns[t], documentCount)
    }
  }

  ghost predicate ValidColumn(p: PostingList, count: nat) {
    && DistinctDocuments(p)
    && forall i :: 0 <= i < |p| ==> p[i].document < count && p[i].impact >= 0.0
  }

  datatype QueryTerm = QueryTerm(termId: nat, weight: real)

  type Query = seq<QueryTerm>

  ghost predicate ValidQuery(corpus: Corpus, query: Query) {
    && (forall q :: 0 <= q < |query| ==> query[q].termId < |corpus.columns| && query[q].weight >= 0.0)
    && (forall i, j :: 0 <= i < j < |query| ==> query[i].termId != query[j].termId)
  }

  /** The query's weights and the postings of its terms are all above zero. */
  ghost predicate PositiveOn(corpus: Corpus, query: Query)
    requires ValidQuery(corpus, query)
  {
    forall q :: 0 <= q < |query| ==> query[q].weight > 0.0 && PositiveColumn(corpus.columns[query[q].termId])
  }

  ghost predicate PositiveColumn(p: PostingList) {
    forall i :: 0 <= i < |p| ==> p[i].impact > 0.0
  }

  // ----- exact scores -----

  function Contribution(corpus: Corpus, q: QueryTerm, d: nat): real
    requires q.termId < |corpus.columns|
  {
    q.weight * Impact(corpus.columns[q.termId], d)
  }

  /** `(documents @ query)[d]`. */
  function Score(corpus: Corpus, query: Query, d: nat): real
    requires forall q :: 0 <= q < |query| ==> query[q].termId < |corpus.columns|
  {
    if query == [] then 0.0
    else Score(corpus, query[..|query| - 1], d) + Contribution(corpus, query[|query| - 1], d)
  }

  function Scores(corpus: Corpus, query: Query): (r: seq<real>)
    requires forall q :: 0 <= q < |query| ==> query[q].termId < |corpus.columns|
    ensures |r| == corpus.documentCount
    ensures forall d :: 0 <= d < |r| ==> r[d] == Score(corpus, query, d)
  {
    seq(corpus.documentCount, d requires 0 <= d => Score(corpus, query, d))
  }

  // ----- residual terms -----

  predicate Kept(corpus: Corpus, q: QueryTerm, selected: seq<bool>, includeTail: bool)
    requires q.termId < |corpus.columns| && |selected| == |corpus.columns|
  {
    (!selected[q.termId] || includeTail) && q.weight > 0.0 && corpus.columns[q.termId] != []
  }

  function ResidualTerm(corpus: Corpus, q: QueryTerm): TermBlock
    requires q.termId < |corpus.columns| && DistinctDocuments(corpus.columns[q.termId])
  {
    TermBlock(q.termId, q.weight, ImpactOrder(corpus.columns[q.termId]))
  }

  function ResidualTerms(corpus: Corpus, query: Query, selected: seq<bool>, includeTail: bool): seq<TermBlock>
    requires corpus.Valid() && ValidQuery(corpus, query) && |selected| == |corpus.columns|
  {
    if query == [] then []
    else
      var n := |query| - 1;
      var front := ResidualTerms(corpus, query[..n], selected, includeTail);
      if Kept(corpus, query[n], selected, includeTail) then front + [ResidualTerm(corpus, query[n])] else front
  }

  method ResidualQueryTerms(corpus: Corpus, query: Query, selected: seq<bool>, includeTail: bool)
    returns (result: seq<TermBlock>)
    requires corpus.Valid() && ValidQuery(corpus, query) && |selected| == |corpus.columns|
    ensures result == ResidualTerms(corpus, query, selected, includeTail)
  {
    result := [];
    for n := 0 to |query|
      invariant result == ResidualTerms(corpus, query[..n], selected, includeTail)
    {
      assert query[..n + 1][..n] == query[..n];
      assert ValidColumn(corpus.columns[query[n].termId], corpus.documentCount);
      if Kept(corpus, query[n], selected, includeTail) {
        result := result + [ResidualTerm(corpus, query[n])];
      }
    }
    assert query[..|query|] == query;
  }

  lemma ResidualTermFacts(corpus: Corpus, q: QueryTerm, d: nat)
    requires q.termId < |corpus.columns| && ValidColumn(corpus.columns[q.termId], corpus.documentCount)
    requires q.weight >= 0.0 && corpus.columns[q.termId] != []
    ensures ResidualTerm(corpus, q).WellFormed(corpus.documentCount)
    ensures Impact(ResidualTerm(corpus, q).postings, d) == Impact(corpus.columns[q.termId], d)
    ensures Holds(ResidualTerm(corpus, q).postings, d) <==> Holds(corpus.columns[q.termId], d)
  {
    var p, r := corpus.columns[q.termId], ImpactOrder(corpus.columns[q.termId]);
    forall i | 0 <= i < |r| ensures r[i].document < corpus.documentCount && r[i].impact >= 0.0 {
      assert r[i] in r && r[i] in p;
    }
    ImpactOfSame(p, r, d);
    SameHolds(p, r, d);
  }

  lemma SameHolds(p: PostingList, r: PostingList, d: nat)
    requires forall x :: x in r <==> x in p
    ensures Holds(r, d) <==> Holds(p, d)
  {
    if i :| 0 <= i < |p| && p[i].document == d {
      assert p[i] in p;
      var j :| 0 <= j < |r| && r[j] == p[i];
    }
    if i :| 0 <= i < |r| && r[i].document == d {
      assert r[i] in r;
      var j :| 0 <= j < |p| && p[j] == r[i];
    }
  }

  /** A residual term contributes exactly what its query term does. */
  lemma ResidualTermTotal(corpus: Corpus, q: QueryTerm, d: nat)
    requires q.termId < |corpus.columns| && ValidColumn(corpus.columns[q.termId], corpus.documentCount)
    requires q.weight >= 0.0 && corpus.columns[q.termId] != []
    ensures TermTotal(ResidualTerm(corpus, q), d) == Contribution(corpus, q, d)
  {
    ResidualTermFacts(corpus, q, d);
  }

  lemma DroppedContribution(corpus: Corpus, q: QueryTerm, d: nat)
    requires q.termId < |corpus.columns|
    requires q.weight == 0.0 || !Holds(corpus.columns[q.termId], d)
    ensures Contribution(corpus, q, d) == 0.0
  {
    if q.weight != 0.0 { AbsentImpact(corpus.columns[q.termId], d); }
  }

  /** `d` was seeded if any selected query term posts it, unless the traversal revisits selected terms. */
  ghost predicate SeedsCover(corpus: Corpus, query: Query, selected: seq<bool>, includeTail: bool, seeds: set<nat>)
    requires ValidQuery(corpus, query) && |selected| == |corpus.columns|
  {
    includeTail || forall q, d: nat ::
      0 <= q < |query| && selected[query[q].termId] && Holds(corpus.columns[query[q].termId], d) ==> d in seeds
  }

  /** A query term that is not kept contributes nothing to an unseeded document. */
  lemma UnkeptContribution(
      corpus: Corpus, query: Query, q: nat, selected: seq<bool>, includeTail: bool, seeds: set<nat>, d: nat)
    requires ValidQuery(corpus, query) && |selected| == |corpus.columns| && q < |query|
    requires SeedsCover(corpus, query, selected, includeTail, seeds) && d !in seeds
    requires !Kept(corpus, query[q], selected, includeTail)
    ensures Contribution(corpus, query[q], d) == 0.0
  {
    DroppedContribution(corpus, query[q], d);
  }

  lemma SeedsCoverPrefix(
      corpus: Corpus, query: Query, n: nat, selected: seq<bool>, includeTail: bool, seeds: set<nat>)
    requires ValidQuery(corpus, query) && |selected| == |corpus.columns| && n <= |query|
    requires SeedsCover(corpus, query, selected, includeTail, seeds)
    ensures ValidQuery(corpus, query[..n]) && SeedsCover(corpus, query[..n], selected, includeTail, seeds)
  {
    forall q, d: nat | !includeTail && 0 <= q < n && selected[query[..n][q].termId]
      && Holds(corpus.columns[query[..n][q].termId], d)
      ensures d in seeds
    {
      assert query[..n][q] == query[q];
    }
  }

  /** For a document outside the seeds the score is the sum over the traversed terms. */
  lemma {:induction false} UnseededScore(
      corpus: Corpus, query: Query, selected: seq<bool>, includeTail: bool, seeds: set<nat>, d: nat)
    requires corpus.Valid() && ValidQuery(corpus, query) && |selected| == |corpus.columns|
    requires SeedsCover(corpus, query, selected, includeTail, seeds) && d !in seeds
    ensures Score(corpus, query, d) == TotalMass(ResidualTerms(corpus, query, selected, includeTail), d)
  {
    if query != [] {
      var n := |query| - 1;
      SeedsCoverPrefix(corpus, query, n, selected, includeTail, seeds);
      UnseededScore(corpus, query[..n], selected, includeTail, seeds, d);
      assert ValidColumn(corpus.columns[query[n].termId], corpus.documentCount);
      if Kept(corpus, query[n], selected, includeTail) {
        ResidualTermTotal(corpus, query[n], d);
        TotalMassSnoc(ResidualTerms(corpus, query[..n], selected, includeTail), ResidualTerm(corpus, query[n]), d);
      } else {
        UnkeptContribution(corpus, query, n, selected, includeTail, seeds, d);
      }
    }
  }

  lemma {:induction false} ResidualWellFormed(corpus: Corpus, query: Query, selected: seq<bool>, includeTail: bool)
    requires corpus.Valid() && ValidQuery(corpus, query) && |selected| == |corpus.columns|
    ensures AllWellFormed(ResidualTerms(corpus, query, selected, includeTail), corpus.documentCount)
  {
    if query != [] {
      var n := |query| - 1;
      ResidualWellFormed(corpus, query[..n], selected, includeTail);
      assert ValidColumn(corpus.columns[query[n].termId], corpus.documentCount);
      if Kept(corpus, query[n], selected, includeTail) { ResidualTermFacts(corpus, query[n], 0); }
    }
  }

  lemma {:induction false} ResidualIds(corpus: Corpus, query: Query, selected: seq<bool>, includeTail: bool, i: nat)
    returns (q: nat)
    requires corpus.Valid() && ValidQuery(corpus, query) && |selected| == |corpus.columns|
    requires i < |ResidualTerms(corpus, query, selected, includeTail)|
    ensures q < |query| && ResidualTerms(corpus, query, selected, includeTail)[i].termId == query[q].termId
  {
    var n := |query| - 1;
    if i < |ResidualTerms(corpus, query[..n], selected, includeTail)| {
      q := ResidualIds(corpus, query[..n], selected, includeTail, i);
    } else {
      q := n;
    }
  }

  lemma {:induction false} ResidualDistinct(corpus: Corpus, query: Query, selected: seq<bool>, includeTail: bool)
    requires corpus.Valid() && ValidQuery(corpus, query) && |selected| == |corpus.columns|
    ensures DistinctTerms(ResidualTerms(corpus, query, selected, includeTail))
  {
    if query != [] {
      var n := |query| - 1;
      ResidualDistinct(corpus, query[..n], selected, includeTail);
      var front := ResidualTerms(corpus, query[..n], selected, includeTail);
      forall i | 0 <= i < |front| ensures front[i].termId != query[n].termId {
        var q := ResidualIds(corpus, query[..n], selected, includeTail, i);
      }
    }
  }

  /** The residual terms post only documents some query term holds. */
  lemma {:induction false} ResidualDocuments(
      corpus: Corpus, query: Query, selected: seq<bool>, includeTail: bool, d: nat)
    requires corpus.Valid() && ValidQuery(corpus, query) && |selected| == |corpus.columns|
    requires d in DocumentsOf(ResidualTerms(corpus, query, selected, includeTail))
    ensures exists q :: 0 <= q < |query| && Holds(corpus.columns[query[q].termId], d)
  {
    if query != [] {
      var n := |query| - 1;
      var front := ResidualTerms(corpus, query[..n], selected, includeTail);
      assert ValidColumn(corpus.columns[query[n].termId], corpus.documentCount);
      if d in DocumentsOf(front) {
        ResidualDocuments(corpus, query[..n], selected, includeTail, d);
        var q :| 0 <= q < n && Holds(corpus.columns[query[..n][q].termId], d);
        assert query[..n][q] == query[q];
      } else if Kept(corpus, query[n], selected, includeTail) {
        DocumentsOfSnoc(front, ResidualTerm(corpus, query[n]));
        HoldsDocument(ResidualTerm(corpus, query[n]).postings, d);
        ResidualTermFacts(corpus, query[n], d);
      }
    }
  }

  lemma {:induction false} UnpostedMass(terms: seq<TermBlock>, d: nat)
    requires d !in DocumentsOf(terms)
    ensures TotalMass(terms, d) == 0.0
  {
    forall o | 0 <= o < |terms| ensures TotalMasses(terms, d)[o] == 0.0 {
      forall i | 0 <= i < |terms[o].postings| ensures terms[o].postings[i].document != d {
        Posted(terms, o, i);
      }
      ImpactBeforeAbsent(terms[o].postings, |terms[o].postings|, d);
    }
    SumZero(TotalMasses(terms, d));
  }

  lemma ContributionSign(corpus: Corpus, q: QueryTerm, d: nat)
    requires q.termId < |corpus.columns| && ValidColumn(corpus.columns[q.termId], corpus.documentCount)
    requires q.weight >= 0.0
    ensures Contribution(corpus, q, d) >= 0.0
    ensures q.weight > 0.0 && Impact(corpus.columns[q.termId], d) > 0.0 <==> Contribution(corpus, q, d) > 0.0
  {
    ImpactNonNegative(corpus.columns[q.termId], |corpus.columns[q.termId]|, d);
  }

  lemma {:induction false} ImpactNonNegative(p: PostingList, n: nat, d: nat)
    requires n <= |p| && forall i :: 0 <= i < |p| ==> p[i].impact >= 0.0
    ensures ImpactBefore(p, n, d) >= 0.0
  {
    if n > 0 { ImpactNonNegative(p, n - 1, d); }
  }

  lemma {:induction false} ScoreNonNegative(corpus: Corpus, query: Query, d: nat)
    requires corpus.Valid() && ValidQuery(corpus, query)
    ensures Score(corpus, query, d) >= 0.0
  {
    if query != [] {
      ScoreNonNegative(corpus, query[..|query| - 1], d);
      ContributionSign(corpus, query[|query| - 1], d);
    }
  }

  /** The term `q` contributes to `d`. */
  ghost predicate Contributes(corpus: Corpus, query: Query, q: nat, d: nat)
    requires ValidQuery(corpus, query)
  {
    q < |query| && query[q].weight > 0.0 && Impact(corpus.columns[query[q].termId], d) > 0.0
  }

  /** A score is above zero if and only if some term contributes to it. */
  lemma {:induction false} ScorePositive(corpus: Corpus, query: Query, d: nat)
    requires corpus.Valid() && ValidQuery(corpus, query)
    ensures Score(corpus, query, d) > 0.0 <==> exists q: nat :: Contributes(corpus, query, q, d)
  {
    if query != [] {
      var n := |query| - 1;
      var front := query[..n];
      ScorePositive(corpus, front, d);
      ScoreNonNegative(corpus, front, d);
      ContributionSign(corpus, query[n], d);
      if q: nat :| Contributes(corpus, front, q, d) { assert Contributes(corpus, query, q, d); }
      if q: nat :| Contributes(corpus, query, q, d) && q < n { assert Contributes(corpus, front, q, d); }
      assert Contribution(corpus, query[n], d) > 0.0 ==> Contributes(corpus, query, n, d);
    }
  }

  /** Main lemma of the pipeline: seeds and residual terms meet what every traversal relies on. */
  lemma ResidualIsSafe(corpus: Corpus, query: Query, selected: seq<bool>, includeTail: bool, seeds: set<nat>)
    requires corpus.Valid() && ValidQuery(corpus, query) && |selected| == |corpus.columns|
    requires SeedsCover(corpus, query, selected, includeTail, seeds)
    ensures NonNegative(Scores(corpus, query))
    ensures AllWellFormed(ResidualTerms(corpus, query, selected, includeTail), corpus.documentCount)
    ensures DistinctTerms(ResidualTerms(corpus, query, selected, includeTail))
    ensures SafeBlocks(Scores(corpus, query), seeds, [ResidualTerms(corpus, query, selected, includeTail)])
  {
    var scores, terms := Scores(corpus, query), ResidualTerms(corpus, query, selected, includeTail);
    forall d | 0 <= d < |scores| ensures scores[d] >= 0.0 {
      ScoreNonNegative(corpus, query, d);
    }
    ResidualWellFormed(corpus, query, selected, includeTail);
    ResidualDistinct(corpus, query, selected, includeTail);
    OneBlock(terms);
    forall d: nat | d < |scores| && d !in seeds
      ensures scores[d] == TotalMass(terms, d)
      ensures d !in DocumentsOf(terms) ==> scores[d] == 0.0
    {
      UnseededScore(corpus, query, selected, includeTail, seeds, d);
      if d !in DocumentsOf(terms) { UnpostedMass(terms, d); }
    }
  }
}
