/**
 Candidate documents by block. Every block accumulates, term by term, the query weight times the largest value the
 term has in the block; the blocks with the highest sums are opened and all their documents become candidates.
 */
module BlockMaxima {
  import opened Arithmetic
  import opened Heapq
  import opened Ranking
  import opened Partitions
  import opened Completion
  import opened Postings
  import opened Tables
  import opened KeyedSums
  import opened CohesiveBlocks
  import opened Pipeline

  // ----- shifts -----

  /** `x << shift`. */
  function ShiftLeft(x: nat, shift: nat): nat {
    if shift == 0 then x else 2 * ShiftLeft(x, shift - 1)
  }

  /** A block is the range of ids that shift to it. */
  lemma {:induction false} BlockRange(x: nat, shift: nat, b: nat)
    ensures ShiftRight(x, shift) == b <==> ShiftLeft(b, shift) <= x < ShiftLeft(b + 1, shift)
  {
    if shift > 0 { BlockRange(x / 2, shift - 1, b); }
  }

  lemma {:induction false} BlockSizePositive(shift: nat)
    ensures ShiftLeft(1, shift) > 0
  {
    if shift > 0 { BlockSizePositive(shift - 1); }
  }

  // ----- accumulating block maxima -----

  /** The rows of a column as a compressed sparse column stores them. */
  ghost predicate AscendingRows(p: PostingList) {
    forall i, j :: 0 <= i < j < |p| ==> p[i].document < p[j].document
  }

  function BlockEntry(x: Posting, shift: nat): Entry<nat, real> {
    Entry(ShiftRight(x.document, shift), x.impact)
  }

  function BlockEntries(p: PostingList, shift: nat): (r: Numbers)
    ensures |r| == |p| && forall i :: 0 <= i < |p| ==> r[i] == BlockEntry(p[i], shift)
  {
    seq(|p|, i requires 0 <= i < |p| => BlockEntry(p[i], shift))
  }

  /** Heads of the runs of equal blocks, each with the maximum of its run: `maximum.reduceat` at the run starts. */
  function Runs(p: PostingList, shift: nat): Numbers {
    if p == [] then [] else Reduced(Runs(p[..|p| - 1], shift), BlockEntry(p[|p| - 1], shift))
  }

  lemma {:induction false} ShiftMonotone(x: nat, y: nat, shift: nat)
    requires x <= y
    ensures ShiftRight(x, shift) <= ShiftRight(y, shift)
  {
    if shift > 0 { ShiftMonotone(x / 2, y / 2, shift - 1); }
  }

  lemma EntriesSnoc(p: PostingList, shift: nat)
    requires p != []
    ensures BlockEntries(p, shift) == BlockEntries(p[..|p| - 1], shift) + [BlockEntry(p[|p| - 1], shift)]
  {
  }

  lemma EarlierBlocks(p: PostingList, shift: nat)
    requires AscendingRows(p) && p != []
    ensures forall x :: x in BlockEntries(p[..|p| - 1], shift) ==> x.key <= BlockEntry(p[|p| - 1], shift).key
  {
    var n := |p| - 1;
    var entries := BlockEntries(p[..n], shift);
    forall x | x in entries ensures x.key <= BlockEntry(p[n], shift).key {
      var i :| 0 <= i < n && entries[i] == x;
      ShiftMonotone(p[i].document, p[n].document, shift);
    }
  }

  /** Ascending rows make the run heads strictly ascending, so each block has one run. */
  lemma {:induction false} RunsHoldMaxima(p: PostingList, shift: nat)
    requires AscendingRows(p)
    ensures HoldsMaxima(Runs(p, shift), BlockEntries(p, shift))
  {
    if p != [] {
      var n := |p| - 1;
      RunsHoldMaxima(p[..n], shift);
      EarlierBlocks(p, shift);
      EntriesSnoc(p, shift);
      ReducedHolds(Runs(p[..n], shift), BlockEntries(p[..n], shift), BlockEntry(p[n], shift));
    }
  }

  /** `value * weight`. */
  function Weighed(value: real, weight: real): real {
    value * weight
  }

  /** `scores[ids] += values`: every target reads the old scores, and a repeated id keeps only its last value. */
  function FancyAdd(scores: seq<real>, runs: Numbers, weight: real): (r: seq<real>)
    requires forall i :: 0 <= i < |runs| ==> runs[i].key < |scores|
    ensures |r| == |scores|
  {
    if runs == [] then scores
    else
      var n := |runs| - 1;
      FancyAdd(scores, runs[..n], weight)[runs[n].key := scores[runs[n].key] + Weighed(runs[n].value, weight)]
  }

  lemma {:induction false} FancyAddAt(scores: seq<real>, runs: Numbers, weight: real, b: nat)
    requires forall i :: 0 <= i < |runs| ==> runs[i].key < |scores|
    requires StrictKeys(runs) && b < |scores|
    ensures FancyAdd(scores, runs, weight)[b] == scores[b] + Weighed(Get(runs, b, 0.0), weight)
  {
    if runs != [] {
      var n := |runs| - 1;
      FancyAddAt(scores, runs[..n], weight, b);
      GetSnoc(runs, b);
    }
  }

  lemma {:induction false} GetSnoc(d: Numbers, key: nat)
    requires StrictKeys(d) && d != []
    ensures Get(d, key, 0.0) == if d[|d| - 1].key == key then d[|d| - 1].value else Get(d[..|d| - 1], key, 0.0)
  {
    if |d| > 1 {
      assert d[1..][..|d| - 2] == d[..|d| - 1][1..];
      GetSnoc(d[1..], key);
    }
  }

  /** The largest value of a column in a block; zero when the block holds none. */
  function BlockMax(p: PostingList, shift: nat, b: nat): real {
    if p == [] then 0.0
    else
      var rest, x := BlockMax(p[..|p| - 1], shift, b), p[|p| - 1];
      if ShiftRight(x.document, shift) == b && rest < x.impact then x.impact else rest
  }

  lemma {:induction false} BlockMaxFacts(p: PostingList, shift: nat, b: nat)
    ensures BlockMax(p, shift, b) >= 0.0
    ensures forall x :: x in p && ShiftRight(x.document, shift) == b ==> x.impact <= BlockMax(p, shift, b)
    ensures BlockMax(p, shift, b) == 0.0 || exists x ::
      x in p && ShiftRight(x.document, shift) == b && x.impact == BlockMax(p, shift, b)
  {
    if p != [] {
      BlockMaxFacts(p[..|p| - 1], shift, b);
      LastSplit(p);
      assert p[|p| - 1] in p;
    }
  }

  lemma RunOfBlock(p: PostingList, shift: nat, b: nat)
    requires AscendingRows(p) && forall i :: 0 <= i < |p| ==> p[i].impact >= 0.0
    ensures Get(Runs(p, shift), b, 0.0) == BlockMax(p, shift, b)
  {
    RunsHoldMaxima(p, shift);
    BlockMaxFacts(p, shift, b);
    var runs, entries := Runs(p, shift), BlockEntries(p, shift);
    if x :| x in p && ShiftRight(x.document, shift) == b {
      EntryIn(p, shift, x);
      assert HasKey(runs, b);
      var y :| y in runs && y.key == b;
      RunIsMax(p, shift, y);
      var i :| 0 <= i < |runs| && runs[i] == y;
      GetAt(runs, i, 0.0);
    } else {
      if Get(runs, b, 0.0) != 0.0 {
        var i := EntryOf(runs, b, 0.0);
        RunIsMax(p, shift, runs[i]);
      }
    }
  }

  lemma EntryIn(p: PostingList, shift: nat, x: Posting)
    requires x in p
    ensures BlockEntry(x, shift) in BlockEntries(p, shift)
  {
    var i :| 0 <= i < |p| && p[i] == x;
    assert BlockEntries(p, shift)[i] == BlockEntry(x, shift);
  }

  /** A run of a block carries the largest value some posting of the block has. */
  lemma RunIsMax(p: PostingList, shift: nat, y: Entry<nat, real>)
    requires AscendingRows(p) && y in Runs(p, shift)
    ensures exists x :: x in p && ShiftRight(x.document, shift) == y.key && x.impact == y.value
    ensures forall x :: x in p && ShiftRight(x.document, shift) == y.key ==> x.impact <= y.value
  {
    RunsHoldMaxima(p, shift);
    var entries := BlockEntries(p, shift);
    assert IsMaxAt(entries, y.key, y.value);
    var i :| 0 <= i < |entries| && entries[i] == Entry(y.key, y.value);
    assert p[i] in p;
    forall x | x in p && ShiftRight(x.document, shift) == y.key ensures x.impact <= y.value {
      EntryIn(p, shift, x);
    }
  }

  lemma RunsInRange(p: PostingList, shift: nat, blockCount: nat)
    requires AscendingRows(p) && forall i :: 0 <= i < |p| ==> ShiftRight(p[i].document, shift) < blockCount
    ensures forall i :: 0 <= i < |Runs(p, shift)| ==> Runs(p, shift)[i].key < blockCount
  {
    forall i | 0 <= i < |Runs(p, shift)| ensures Runs(p, shift)[i].key < blockCount {
      RunIsMax(p, shift, Runs(p, shift)[i]);
    }
  }

  /** Nonnegative columns with ascending rows whose blocks all fit. */
  ghost predicate Blocked(corpus: Corpus, shift: nat, blockCount: nat) {
    corpus.Valid() && forall t :: 0 <= t < |corpus.columns| ==> BlockedColumn(corpus.columns[t], shift, blockCount)
  }

  ghost predicate BlockedColumn(p: PostingList, shift: nat, blockCount: nat) {
    AscendingRows(p) && forall i :: 0 <= i < |p| ==> ShiftRight(p[i].document, shift) < blockCount && p[i].impact >= 0.0
  }

  /** Query terms are columns; their weights are any numbers. */
  ghost predicate TermsExist(corpus: Corpus, query: Query) {
    forall q :: 0 <= q < |query| ==> query[q].termId < |corpus.columns|
  }

  function BlockTerm(p: PostingList, weight: real, shift: nat, b: nat): real {
    if weight > 0.0 then Weighed(BlockMax(p, shift, b), weight) else 0.0
  }

  /** The sum over the query's terms of positive weight times the term's largest value in the block. */
  function BlockScore(corpus: Corpus, query: Query, shift: nat, b: nat): real
    requires TermsExist(corpus, query)
  {
    if query == [] then 0.0
    else
      var n := |query| - 1;
      BlockScore(corpus, query[..n], shift, b) + BlockTerm(corpus.columns[query[n].termId], query[n].weight, shift, b)
  }

  lemma AddedTerm(scores: seq<real>, p: PostingList, weight: real, shift: nat, b: nat)
    requires BlockedColumn(p, shift, |scores|) && b < |scores| && weight > 0.0
    ensures forall i :: 0 <= i < |Runs(p, shift)| ==> Runs(p, shift)[i].key < |scores|
    ensures FancyAdd(scores, Runs(p, shift), weight)[b] == scores[b] + BlockTerm(p, weight, shift, b)
  {
    RunsInRange(p, shift, |scores|);
    RunsHoldMaxima(p, shift);
    FancyAddAt(scores, Runs(p, shift), weight, b);
    RunOfBlock(p, shift, b);
  }

  lemma EmptyTerm(weight: real, shift: nat, b: nat)
    ensures BlockTerm([], weight, shift, b) == 0.0
  {
  }

  method AccumulateBlockMaxima(corpus: Corpus, query: Query, blockCount: nat, shift: nat) returns (scores: seq<real>)
    requires Blocked(corpus, shift, blockCount) && TermsExist(corpus, query)
    ensures |scores| == blockCount
    ensures forall b :: 0 <= b < blockCount ==> scores[b] == BlockScore(corpus, query, shift, b)
  {
    scores := seq(blockCount, _ => 0.0);
    for n := 0 to |query|
      invariant |scores| == blockCount
      invariant forall b :: 0 <= b < blockCount ==> scores[b] == BlockScore(corpus, query[..n], shift, b)
    {
      assert query[..n + 1][..n] == query[..n];
      var p, weight := corpus.columns[query[n].termId], query[n].weight;
      ghost var before := scores;
      if |p| == 0 || weight <= 0.0 {
      } else {
        RunsInRange(p, shift, blockCount);
        scores := FancyAdd(scores, Runs(p, shift), weight);
      }
      forall b | 0 <= b < blockCount ensures scores[b] == before[b] + BlockTerm(p, weight, shift, b) {
        if |p| > 0 && weight > 0.0 {
          AddedTerm(before, p, weight, shift, b);
        } else if |p| == 0 {
          EmptyTerm(weight, shift, b);
        }
      }
    }
    assert query[..|query|] == query;
  }

  // ----- safety of the block scores -----

  lemma TermCovers(p: PostingList, weight: real, shift: nat, d: nat)
    requires DistinctDocuments(p) && forall i :: 0 <= i < |p| ==> p[i].impact >= 0.0
    ensures weight * Impact(p, d) <= BlockTerm(p, weight, shift, ShiftRight(d, shift))
  {
    MaxCovers(p, shift, d);
    WeightedAtMost(weight, Impact(p, d), BlockMax(p, shift, ShiftRight(d, shift)));
  }

  lemma MaxCovers(p: PostingList, shift: nat, d: nat)
    requires DistinctDocuments(p) && forall i :: 0 <= i < |p| ==> p[i].impact >= 0.0
    ensures 0.0 <= Impact(p, d) <= BlockMax(p, shift, ShiftRight(d, shift))
  {
    BlockMaxFacts(p, shift, ShiftRight(d, shift));
    if i :| 0 <= i < |p| && p[i].document == d {
      assert p[i] in p;
      ImpactBeforeAt(p, |p|, i);
    } else {
      ImpactBeforeAbsent(p, |p|, d);
    }
  }

  lemma WeightedAtMost(weight: real, x: real, y: real)
    requires 0.0 <= x <= y
    ensures weight > 0.0 ==> weight * x <= Weighed(y, weight)
    ensures weight <= 0.0 ==> weight * x <= 0.0
  {
    if weight > 0.0 {
      assert (y - x) * weight >= 0.0;
    }
  }

  /** Theorem: a block's score is at least the exact score of every document in it, whatever the weights. */
  lemma {:induction false} BlockScoreCovers(corpus: Corpus, query: Query, shift: nat, d: nat)
    requires corpus.Valid() && TermsExist(corpus, query)
    ensures Score(corpus, query, d) <= BlockScore(corpus, query, shift, ShiftRight(d, shift))
  {
    if query != [] {
      var n := |query| - 1;
      BlockScoreCovers(corpus, query[..n], shift, d);
      assert ValidColumn(corpus.columns[query[n].termId], corpus.documentCount);
      TermCovers(corpus.columns[query[n].termId], query[n].weight, shift, d);
    }
  }

  // ----- block candidates -----

  /** `ceil(documents / size)`. */
  function CeilDivide(documents: nat, size: nat): nat
    requires size > 0
  {
    (documents + size - 1) / size
  }

  lemma CeilDivideZero(documents: nat, size: nat)
    requires size > 0
    ensures CeilDivide(documents, size) == 0 <==> documents == 0
  {
    if documents > 0 {
      var x := documents + size - 1;
      assert x == size * (x / size) + x % size;
    }
  }

  lemma {:induction false} ShiftLeftIsProduct(x: nat, shift: nat)
    ensures ShiftLeft(x, shift) == x * ShiftLeft(1, shift)
  {
    if shift > 0 {
      ShiftLeftIsProduct(x, shift - 1);
      Doubled(x, ShiftLeft(1, shift - 1));
    }
  }

  lemma Doubled(x: nat, y: nat)
    ensures 2 * (x * y) == x * (2 * y)
  {
  }

  lemma CeilDivideCovers(documents: nat, size: nat)
    requires size > 0
    ensures documents <= CeilDivide(documents, size) * size
  {
    var x := documents + size - 1;
    assert x == size * (x / size) + x % size;
  }

  /** The block count of the corpus leaves room for every document's block. */
  lemma BlockCountCovers(documentCount: nat, shift: nat, d: nat)
    requires d < documentCount
    ensures ShiftLeft(1, shift) > 0
    ensures ShiftRight(d, shift) < CeilDivide(documentCount, ShiftLeft(1, shift))
  {
    var size, b := ShiftLeft(1, shift), ShiftRight(d, shift);
    BlockSizePositive(shift);
    BlockRange(d, shift, b);
    ShiftLeftIsProduct(b, shift);
    CeilDivideCovers(documentCount, size);
    ProductMonotone(CeilDivide(documentCount, size), b, size);
  }

  function TargetBlocks(blocks: nat, target: nat, shift: nat): nat {
    BlockSizePositive(shift);
    Min(blocks, CeilDivide(target, ShiftLeft(1, shift)))
  }

  /** `np.flatnonzero(scores > 0)` among the first `n` blocks. */
  function PositiveBlocks(scores: seq<real>, n: nat): (r: seq<nat>)
    requires n <= |scores|
    ensures forall b: nat :: b in r <==> b < n && scores[b] > 0.0
    ensures forall i :: 0 <= i < |r| ==> r[i] < n
    ensures Distinct(r)
  {
    if n == 0 then []
    else if scores[n - 1] > 0.0 then PositiveBlocks(scores, n - 1) + [n - 1]
    else PositiveBlocks(scores, n - 1)
  }

  /** `arange(lo, hi)`. */
  function Range(lo: nat, hi: nat): (r: seq<nat>)
    ensures forall d: nat :: d in r <==> lo <= d < hi
    ensures Distinct(r)
    decreases hi - lo
  {
    if hi <= lo then []
    else
      var front := Range(lo, hi - 1);
      assert hi - 1 !in front;
      front + [hi - 1]
  }

  /** The documents of a block. */
  function BlockDocumentIds(b: nat, shift: nat, documentCount: nat): (r: seq<nat>)
    ensures Distinct(r) && forall d: nat :: d in r <==> d < documentCount && ShiftRight(d, shift) == b
  {
    assert forall d: nat :: ShiftRight(d, shift) == b <==> ShiftLeft(b, shift) <= d < ShiftLeft(b + 1, shift) by {
      forall d: nat ensures ShiftRight(d, shift) == b <==> ShiftLeft(b, shift) <= d < ShiftLeft(b + 1, shift) {
        BlockRange(d, shift, b);
      }
    }
    Range(ShiftLeft(b, shift), Min(ShiftLeft(b + 1, shift), documentCount))
  }

  /** The documents of several blocks, block after block. */
  function Opened(blocks: seq<nat>, shift: nat, documentCount: nat): (r: seq<nat>)
    requires Distinct(blocks)
    ensures Distinct(r) && forall d: nat :: d in r <==> d < documentCount && ShiftRight(d, shift) in blocks
  {
    if blocks == [] then []
    else
      var n := |blocks| - 1;
      LastSplit(blocks);
      var front, last := Opened(blocks[..n], shift, documentCount), BlockDocumentIds(blocks[n], shift, documentCount);
      DisjointConcat(front, last);
      front + last
  }

  lemma DisjointConcat(xs: seq<nat>, ys: seq<nat>)
    requires Distinct(xs) && Distinct(ys) && forall d: nat :: !(d in xs && d in ys)
    ensures Distinct(xs + ys)
  {
    var s := xs + ys;
    forall i, j | 0 <= i < j < |s| ensures s[i] != s[j] {
      assert i < |xs| ==> s[i] in xs;
      assert j >= |xs| ==> s[j] in ys;
    }
  }

  /** The positive blocks selected: all of them, or the best `count` when there are more. */
  ghost predicate SelectsBest(scores: seq<real>, count: nat, selected: seq<nat>) {
    && Distinct(selected)
    && (forall b :: b in selected ==> b < |scores| && scores[b] > 0.0)
    && |selected| == Min(count, |PositiveBlocks(scores, |scores|)|)
    && (count > 0 ==>
        forall b: nat, c: nat :: b < |scores| && b !in selected && c in selected ==> scores[b] <= scores[c])
    && (|selected| < count ==> forall b: nat :: b < |scores| && b !in selected ==> scores[b] <= 0.0)
  }

  lemma PositiveSelectsBest(scores: seq<real>, count: nat)
    requires |PositiveBlocks(scores, |scores|)| <= count
    ensures SelectsBest(scores, count, PositiveBlocks(scores, |scores|))
  {
  }

  lemma GatherMember(positive: seq<nat>, ids: seq<nat>, b: nat) returns (i: nat)
    requires forall i :: 0 <= i < |ids| ==> ids[i] < |positive|
    requires b in Gather(positive, ids)
    ensures i in ids && i < |positive| && positive[i] == b
  {
    var j :| 0 <= j < |ids| && Gather(positive, ids)[j] == b;
    i := ids[j];
  }

  lemma UnselectedScore(scores: seq<real>, positive: seq<nat>, local: seq<nat>, b: nat, c: nat)
    requires positive == PositiveBlocks(scores, |scores|) && forall i :: 0 <= i < |local| ==> local[i] < |positive|
    requires forall i: nat, j: nat :: i < |positive| && i !in local && j in local ==>
      Gather(scores, positive)[i] <= Gather(scores, positive)[j]
    requires b < |scores| && b !in Gather(positive, local) && c in Gather(positive, local)
    ensures c < |scores| && scores[c] > 0.0 && scores[b] <= scores[c]
  {
    var j := GatherMember(positive, local, c);
    assert positive[j] in positive;
    if b in positive {
      var i := IndexIn(positive, b);
      if i in local {
        Gathers(positive, local, i);
        assert false;
      }
      assert Gather(scores, positive)[i] <= Gather(scores, positive)[j];
    }
  }

  lemma CutSelectsBest(scores: seq<real>, count: nat, part: seq<nat>)
    requires count < |PositiveBlocks(scores, |scores|)|
    requires IsPartition(Gather(scores, PositiveBlocks(scores, |scores|)), count, part)
    ensures SelectsBest(scores, count,
      Gather(
        PositiveBlocks(scores, |scores|),
        TopkOffsets(Gather(scores, PositiveBlocks(scores, |scores|)), count, part)))
  {
    var positive := PositiveBlocks(scores, |scores|);
    var local := TopkOffsets(Gather(scores, positive), count, part);
    var selected := Gather(positive, local);
    RankedIsDistinct(Gather(scores, positive), local);
    GatherDistinct(positive, local);
    forall b | b in selected ensures b < |scores| && scores[b] > 0.0 {
      var j := GatherMember(positive, local, b);
      assert positive[j] in positive;
    }
    forall b: nat, c: nat | b < |scores| && b !in selected && c in selected ensures scores[b] <= scores[c] {
      UnselectedScore(scores, positive, local, b, c);
    }
  }

  /**
   `part` is whatever `argpartition` returns when there are more positive blocks than wanted. The candidates are
   the documents of the selected blocks, each once.
   */
  method BlockCandidates(scores: seq<real>, documentCount: nat, target: nat, shift: nat, part: seq<nat>)
    returns (documents: seq<nat>, selected: seq<nat>)
    requires TargetBlocks(|scores|, target, shift) < |PositiveBlocks(scores, |scores|)| ==>
      IsPartition(Gather(scores, PositiveBlocks(scores, |scores|)), TargetBlocks(|scores|, target, shift), part)
    ensures SelectsBest(scores, TargetBlocks(|scores|, target, shift), selected)
    ensures Distinct(documents)
    ensures forall d: nat :: d in documents <==> d < documentCount && ShiftRight(d, shift) in selected
    ensures target == 0 ==> documents == []
    ensures documents == Opened(selected, shift, documentCount)
  {
    var count := TargetBlocks(|scores|, target, shift);
    var positive := PositiveBlocks(scores, |scores|);
    BlockSizePositive(shift);
    CeilDivideZero(target, ShiftLeft(1, shift));
    if count == 0 || |positive| == 0 {
      return [], [];
    }
    if |positive| > count {
      CutSelectsBest(scores, count, part);
      selected := Gather(positive, TopkOffsets(Gather(scores, positive), count, part));
    } else {
      PositiveSelectsBest(scores, count);
      selected := positive;
    }
    documents := Opened(selected, shift, documentCount);
  }

  /**
   Theorem: a document left out never outscores the bound of a selected block, and when fewer blocks than wanted
   were positive a document left out scores nothing.
   */
  lemma ExcludedIsOutscored(corpus: Corpus, query: Query, shift: nat, scores: seq<real>, count: nat,
                            documents: seq<nat>, selected: seq<nat>, d: nat, c: nat)
    requires corpus.Valid() && TermsExist(corpus, query) && count > 0
    requires forall b :: 0 <= b < |scores| ==> scores[b] == BlockScore(corpus, query, shift, b)
    requires SelectsBest(scores, count, selected)
    requires forall d: nat :: d in documents <==> d < corpus.documentCount && ShiftRight(d, shift) in selected
    requires d < corpus.documentCount && d !in documents && ShiftRight(d, shift) < |scores|
    ensures c in selected ==> Score(corpus, query, d) <= scores[c]
    ensures |selected| < count ==> Score(corpus, query, d) <= 0.0
  {
    BlockScoreCovers(corpus, query, shift, d);
  }

  // ----- one query -----

  ghost predicate AllAscendingRows(corpus: Corpus) {
    forall t :: 0 <= t < |corpus.columns| ==> AscendingRows(corpus.columns[t])
  }

  lemma AllBlocked(corpus: Corpus, shift: nat, blockCount: nat)
    requires corpus.Valid() && AllAscendingRows(corpus) && ShiftLeft(1, shift) > 0
    requires blockCount == CeilDivide(corpus.documentCount, ShiftLeft(1, shift))
    ensures Blocked(corpus, shift, blockCount)
  {
    forall t | 0 <= t < |corpus.columns| ensures BlockedColumn(corpus.columns[t], shift, blockCount) {
      var p := corpus.columns[t];
      assert ValidColumn(p, corpus.documentCount);
      forall i | 0 <= i < |p| ensures ShiftRight(p[i].document, shift) < blockCount && p[i].impact >= 0.0 {
        BlockCountCovers(corpus.documentCount, shift, p[i].document);
      }
    }
  }

  function BlockScores(corpus: Corpus, query: Query, shift: nat, blockCount: nat): (r: seq<real>)
    requires TermsExist(corpus, query)
    ensures |r| == blockCount && forall b :: 0 <= b < |r| ==> r[b] == BlockScore(corpus, query, shift, b)
  {
    seq(blockCount, b requires 0 <= b => BlockScore(corpus, query, shift, b))
  }

  /** `d` scores at most any selected block, and nothing when fewer blocks were positive than wanted. */
  ghost predicate Outscored(corpus: Corpus, query: Query, shift: nat, count: nat, selected: seq<nat>, d: nat)
    requires TermsExist(corpus, query)
  {
    && (forall c: nat :: c in selected ==> Score(corpus, query, d) <= BlockScore(corpus, query, shift, c))
    && (|selected| < count ==> Score(corpus, query, d) <= 0.0)
  }

  /** The candidates are the documents of the best positive blocks by block score, and none other matters more. */
  ghost predicate FromBestBlocks(
      corpus: Corpus, query: Query, shift: nat, blockCount: nat, count: nat, selected: seq<nat>, candidates: seq<nat>)
    requires TermsExist(corpus, query)
  {
    && SelectsBest(BlockScores(corpus, query, shift, blockCount), count, selected)
    && Distinct(candidates)
    && (forall d: nat :: d in candidates <==> d < corpus.documentCount && ShiftRight(d, shift) in selected)
    && (forall d: nat :: d < corpus.documentCount && d !in candidates ==>
          Outscored(corpus, query, shift, count, selected, d))
  }

  /**
   What a caller can see when the completion is certainly exact: enough candidates, and a last completed document that
   scores at least some selected block, or at least zero when fewer blocks were positive than wanted.
   */
  ghost predicate Certified(
      corpus: Corpus, query: Query, shift: nat, count: nat, selected: seq<nat>, completed: seq<nat>, k: nat)
    requires TermsExist(corpus, query)
  {
    && |completed| == Min(k, corpus.documentCount)
    && (forall c: nat :: c in completed ==>
          || (|selected| < count && Score(corpus, query, c) >= 0.0)
          || exists b: nat :: b in selected && Score(corpus, query, c) >= BlockScore(corpus, query, shift, b))
  }

  /** Theorem: a certified completion has the reference scores, position by position. */
  lemma CertifiedIsExact(
      corpus: Corpus, query: Query, shift: nat, blockCount: nat, count: nat, selected: seq<nat>,
      candidates: seq<nat>, completed: seq<nat>, k: nat)
    requires TermsExist(corpus, query) && k > 0
    requires FromBestBlocks(corpus, query, shift, blockCount, count, selected, candidates)
    requires IsCompletion(Scores(corpus, query), candidates, k, completed)
    requires Certified(corpus, query, shift, count, selected, completed, k)
    ensures SameScores(Scores(corpus, query), completed, TopK(Scores(corpus, query), k))
  {
    var exact := Scores(corpus, query);
    forall d: nat, c: nat | d < |exact| && d !in candidates && c in completed
      ensures c < |exact| && exact[d] <= exact[c]
    {
      assert exact[d] == Score(corpus, query, d) && Outscored(corpus, query, shift, count, selected, d);
    }
    CompletionIsCut(exact, candidates, k, completed);
  }

  lemma ExcludedDocument(
      corpus: Corpus, query: Query, shift: nat, scores: seq<real>, count: nat, selected: seq<nat>,
      candidates: seq<nat>, d: nat)
    requires corpus.Valid() && TermsExist(corpus, query) && count > 0
    requires forall b :: 0 <= b < |scores| ==> scores[b] == BlockScore(corpus, query, shift, b)
    requires SelectsBest(scores, count, selected)
    requires forall d: nat :: d in candidates <==> d < corpus.documentCount && ShiftRight(d, shift) in selected
    requires d < corpus.documentCount && d !in candidates && ShiftRight(d, shift) < |scores|
    ensures Outscored(corpus, query, shift, count, selected, d)
  {
    ExcludedIsOutscored(corpus, query, shift, scores, count, candidates, selected, d, 0);
    forall c: nat | c in selected ensures Score(corpus, query, d) <= BlockScore(corpus, query, shift, c) {
      ExcludedIsOutscored(corpus, query, shift, scores, count, candidates, selected, d, c);
    }
  }

  /** The wanted number of blocks is positive whenever there is a document. */
  lemma SomeBlocksWanted(documentCount: nat, shift: nat, target: nat, blockCount: nat)
    requires ShiftLeft(1, shift) > 0 && blockCount == CeilDivide(documentCount, ShiftLeft(1, shift))
    requires target > 0 && documentCount > 0
    ensures TargetBlocks(blockCount, target, shift) > 0
  {
    CeilDivideZero(target, ShiftLeft(1, shift));
    CeilDivideZero(documentCount, ShiftLeft(1, shift));
  }

  lemma SelectedAreBest(
      corpus: Corpus, query: Query, shift: nat, scores: seq<real>, count: nat, selected: seq<nat>,
      candidates: seq<nat>)
    requires corpus.Valid() && TermsExist(corpus, query) && (corpus.documentCount > 0 ==> count > 0)
    requires scores == BlockScores(corpus, query, shift, |scores|)
    requires forall d: nat :: d < corpus.documentCount ==> ShiftRight(d, shift) < |scores|
    requires SelectsBest(scores, count, selected) && Distinct(candidates)
    requires forall d: nat :: d in candidates <==> d < corpus.documentCount && ShiftRight(d, shift) in selected
    ensures FromBestBlocks(corpus, query, shift, |scores|, count, selected, candidates)
  {
    forall d: nat | d < corpus.documentCount && d !in candidates
      ensures Outscored(corpus, query, shift, count, selected, d)
    {
      ExcludedDocument(corpus, query, shift, scores, count, selected, candidates, d);
    }
  }

  /** How many blocks a corpus has. */
  function BlockCount(documentCount: nat, shift: nat): nat {
    BlockSizePositive(shift);
    CeilDivide(documentCount, ShiftLeft(1, shift))
  }

  /** The candidates of one query: block scores, the best blocks, their documents. */
  method QueryCandidates(corpus: Corpus, query: Query, shift: nat, target: nat)
    returns (candidates: seq<nat>, selected: seq<nat>)
    requires corpus.Valid() && AllAscendingRows(corpus) && TermsExist(corpus, query) && target > 0
    ensures FromBestBlocks(
      corpus, query, shift, BlockCount(corpus.documentCount, shift),
      TargetBlocks(BlockCount(corpus.documentCount, shift), target, shift), selected, candidates)
  {
    BlockSizePositive(shift);
    var blockCount := BlockCount(corpus.documentCount, shift);
    AllBlocked(corpus, shift, blockCount);
    var scores := AccumulateBlockMaxima(corpus, query, blockCount, shift);
    var positive, wanted := PositiveBlocks(scores, |scores|), TargetBlocks(blockCount, target, shift);
    var part := [];
    if wanted < |positive| {
      part := Argpartition(Gather(scores, positive), wanted);
    }
    candidates, selected := BlockCandidates(scores, corpus.documentCount, target, shift, part);
    assert scores == BlockScores(corpus, query, shift, blockCount);
    if corpus.documentCount > 0 { SomeBlocksWanted(corpus.documentCount, shift, target, blockCount); }
    forall d: nat | d < corpus.documentCount ensures ShiftRight(d, shift) < blockCount {
      BlockCountCovers(corpus.documentCount, shift, d);
    }
    SelectedAreBest(corpus, query, shift, scores, wanted, selected, candidates);
  }

  /**
   Theorem: one query at one depth. No document outside the candidates scores above a selected block, the completed
   list is the best of the candidates, and whenever it is certified it has the reference scores.
   */
  method EvaluateBlocks(corpus: Corpus, query: Query, shift: nat, k: nat, multiplier: nat)
    returns (completed: seq<nat>, candidates: seq<nat>, selected: seq<nat>, count: nat)
    requires corpus.Valid() && AllAscendingRows(corpus) && TermsExist(corpus, query) && k > 0 && multiplier > 0
    ensures count == TargetBlocks(BlockCount(corpus.documentCount, shift), k * multiplier, shift)
    ensures FromBestBlocks(
      corpus, query, shift, BlockCount(corpus.documentCount, shift), count, selected, candidates)
    ensures IsCompletion(Scores(corpus, query), candidates, k, completed)
    ensures Certified(corpus, query, shift, count, selected, completed, k) ==>
      SameScores(Scores(corpus, query), completed, TopK(Scores(corpus, query), k))
  {
    var exact := Scores(corpus, query);
    candidates, selected := QueryCandidates(corpus, query, shift, k * multiplier);
    count := TargetBlocks(BlockCount(corpus.documentCount, shift), k * multiplier, shift);
    assert forall i :: 0 <= i < |candidates| ==> candidates[i] in candidates;
    completed := CompleteCandidates(exact, candidates, k);
    if Certified(corpus, query, shift, count, selected, completed, k) {
      CertifiedIsExact(
        corpus, query, shift, BlockCount(corpus.documentCount, shift), count, selected, candidates, completed, k);
    }
  }
}
