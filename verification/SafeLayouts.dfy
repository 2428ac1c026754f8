/**
 Laying out one term's documents in blocks and bounding each block for a query, by coordinate maxima or by a
 centroid ball, so that evaluating the blocks against the k-th score loses no top document with an active term.
 */
module SafeLayouts {
  import opened Arithmetic
  import opened Sums
  import opened Tables
  import opened KeyedSums
  import opened CentroidBall
  import opened CohesiveBlocks
  import opened Partitions
  import opened Completion

  // ----- cutting the documents of a term -----

  /** Consecutive blocks of `size` documents; the last may be shorter. */
  function Chunks(ordered: seq<nat>, size: nat): (r: seq<seq<nat>>)
    requires size > 0
    ensures forall b :: 0 <= b < |r| ==> 0 < |r[b]| <= size
  {
    if ordered == [] then []
    else if |ordered| <= size then [ordered]
    else [ordered[..size]] + Chunks(ordered[size..], size)
  }

  lemma NextBlock(i: nat, size: nat)
    requires size > 0 && i >= size
    ensures BlockOf(i, size) == BlockOf(i - size, size) + 1
  {
    var q, r := (i - size) / size, (i - size) % size;
    assert i == (q + 1) * size + r;
    QuotientUnique(i, size, q + 1, r);
  }

  lemma FirstBlock(i: nat, size: nat)
    requires i < size
    ensures BlockOf(i, size) == 0
  {
    QuotientUnique(i, size, 0, i);
  }

  /** The document at position `i` lies in the block `i // size`. */
  lemma {:induction false} ChunkOf(ordered: seq<nat>, size: nat, i: nat)
    requires size > 0 && i < |ordered|
    ensures BlockOf(i, size) < |Chunks(ordered, size)|
    ensures ordered[i] in Chunks(ordered, size)[BlockOf(i, size)]
    decreases |ordered|
  {
    if i < size {
      FirstBlock(i, size);
      if |ordered| > size { assert ordered[..size][i] == ordered[i]; }
    } else {
      NextBlock(i, size);
      ChunkOf(ordered[size..], size, i - size);
    }
  }

  // ----- coordinate maxima -----

  /** The stored columns of one document. */
  ghost predicate ValidRow(r: Numbers, dimension: nat) {
    DistinctKeys(r) && forall j :: 0 <= j < |r| ==> r[j].key < dimension && r[j].value >= 0.0
  }

  ghost predicate ValidRows(rows: seq<Numbers>, dimension: nat) {
    forall d :: 0 <= d < |rows| ==> ValidRow(rows[d], dimension)
  }

  ghost predicate InRows(rows: seq<Numbers>, ordered: seq<nat>) {
    forall i :: 0 <= i < |ordered| ==> ordered[i] < |rows|
  }

  function RowCells(r: Numbers, row: nat): (cells: seq<Cell>)
    ensures |cells| == |r| && forall j :: 0 <= j < |r| ==> cells[j] == Cell(row, r[j].key, r[j].value)
  {
    seq(|r|, j requires 0 <= j < |r| => Cell(row, r[j].key, r[j].value))
  }

  /** The cells of `documents[ordered]`, whose rows are positions in `ordered`. */
  function SelectedCells(rows: seq<Numbers>, ordered: seq<nat>): seq<Cell>
    requires forall i :: 0 <= i < |ordered| ==> ordered[i] < |rows|
  {
    if ordered == [] then []
    else
      var n := |ordered| - 1;
      SelectedCells(rows, ordered[..n]) + RowCells(rows[ordered[n]], n)
  }

  ghost predicate CellsBelow(cells: seq<Cell>, n: nat) {
    forall i :: 0 <= i < |cells| ==> cells[i].row < n
  }

  lemma AppendedCells(front: seq<Cell>, r: Numbers, n: nat, dimension: nat)
    requires ValidCells(front, dimension) && NonNegativeCells(front) && CellsBelow(front, n) && ValidRow(r, dimension)
    ensures ValidCells(front + RowCells(r, n), dimension) && NonNegativeCells(front + RowCells(r, n))
    ensures CellsBelow(front + RowCells(r, n), n + 1)
  {
    var last := RowCells(r, n);
    var cells := front + last;
    forall i, j | 0 <= i < j < |cells| && cells[i].row == cells[j].row ensures cells[i].column != cells[j].column {
      if i < |front| {
        assert j < |front|;
      } else {
        assert cells[i] == last[i - |front|] && cells[j] == last[j - |front|];
      }
    }
  }

  lemma {:induction false} SelectedAreValid(rows: seq<Numbers>, ordered: seq<nat>, dimension: nat)
    requires ValidRows(rows, dimension) && InRows(rows, ordered)
    ensures ValidCells(SelectedCells(rows, ordered), dimension) && NonNegativeCells(SelectedCells(rows, ordered))
    ensures CellsBelow(SelectedCells(rows, ordered), |ordered|)
  {
    if ordered != [] {
      var n := |ordered| - 1;
      SelectedAreValid(rows, ordered[..n], dimension);
      AppendedCells(SelectedCells(rows, ordered[..n]), rows[ordered[n]], n, dimension);
    }
  }

  /** The products of one document with the query. */
  function Products(r: Numbers, query: seq<real>): Numbers
    requires forall j :: 0 <= j < |r| ==> r[j].key < |query|
  {
    if r == [] then []
    else [Entry(r[0].key, Weight(query, Cell(0, r[0].key, r[0].value)))] + Products(r[1..], query)
  }

  /** The exact score of one document. */
  function RowDot(r: Numbers, query: seq<real>): real
    requires forall j :: 0 <= j < |r| ==> r[j].key < |query|
  {
    SumValues(Products(r, query))
  }

  lemma {:induction false} WeightedConcat(a: seq<Cell>, b: seq<Cell>, query: seq<real>, row: nat)
    requires (forall c :: c in a ==> c.column < |query|) && (forall c :: c in b ==> c.column < |query|)
    ensures forall c :: c in a + b ==> c.column < |query|
    ensures WeightedRow(a + b, query, row) == WeightedRow(a, query, row) + WeightedRow(b, query, row)
  {
    if a == [] {
      assert a + b == b;
    } else {
      assert a == [a[0]] + a[1..];
      assert (a + b)[1..] == a[1..] + b;
      WeightedConcat(a[1..], b, query, row);
    }
  }

  lemma {:induction false} NothingInRow(cells: seq<Cell>, query: seq<real>, row: nat)
    requires (forall c :: c in cells ==> c.column < |query|) && forall i :: 0 <= i < |cells| ==> cells[i].row != row
    ensures WeightedRow(cells, query, row) == []
  {
    if cells != [] { NothingInRow(cells[1..], query, row); }
  }

  lemma SameWeight(query: seq<real>, a: Cell, b: Cell)
    requires a.column == b.column < |query| && a.value == b.value
    ensures Weight(query, a) == Weight(query, b)
  {
  }

  lemma {:induction false} WholeRow(r: Numbers, cells: seq<Cell>, query: seq<real>, row: nat)
    requires |cells| == |r|
    requires forall j :: 0 <= j < |r| ==> r[j].key < |query| && cells[j] == Cell(row, r[j].key, r[j].value)
    ensures WeightedRow(cells, query, row) == Products(r, query)
  {
    if r != [] {
      WholeRow(r[1..], cells[1..], query, row);
      SameWeight(query, cells[0], Cell(0, r[0].key, r[0].value));
    }
  }

  /** Row `i` of the selected documents is document `ordered[i]`. */
  lemma {:induction false} SelectedRow(rows: seq<Numbers>, ordered: seq<nat>, query: seq<real>, i: nat)
    requires ValidRows(rows, |query|) && InRows(rows, ordered) && i < |ordered|
    ensures forall c :: c in SelectedCells(rows, ordered) ==> c.column < |query|
    ensures RowScore(SelectedCells(rows, ordered), query, i) == RowDot(rows[ordered[i]], query)
  {
    var n := |ordered| - 1;
    var front, last := SelectedCells(rows, ordered[..n]), RowCells(rows[ordered[n]], n);
    SelectedAreValid(rows, ordered, |query|);
    SelectedAreValid(rows, ordered[..n], |query|);
    WeightedConcat(front, last, query, i);
    if i < n {
      SelectedRow(rows, ordered[..n], query, i);
      NothingInRow(last, query, i);
      assert WeightedRow(front, query, i) + [] == WeightedRow(front, query, i);
    } else {
      NothingInRow(front, query, i);
      WholeRow(rows[ordered[n]], last, query, i);
      assert [] + Products(rows[ordered[n]], query) == Products(rows[ordered[n]], query);
    }
  }

  ghost predicate RowScores(scores: seq<real>, rows: seq<Numbers>, query: seq<real>)
    requires ValidRows(rows, |query|)
  {
    |scores| == |rows| && forall d :: 0 <= d < |rows| ==> scores[d] == RowDot(rows[d], query)
  }

  lemma MaximaBoundDocument(
      rows: seq<Numbers>, ordered: seq<nat>, blockSize: nat, query: seq<real>, maxima: seq<Cell>, i: nat)
    requires blockSize > 0 && NonNegative(query) && i < |ordered|
    requires ValidRows(rows, |query|) && InRows(rows, ordered)
    requires HoldsGroupMaxima(maxima, SelectedCells(rows, ordered), blockSize)
    ensures forall c :: c in maxima ==> c.column < |query|
    ensures RowDot(rows[ordered[i]], query) <= RowScore(maxima, query, BlockOf(i, blockSize))
  {
    var cells := SelectedCells(rows, ordered);
    SelectedAreValid(rows, ordered, |query|);
    SummaryColumns(cells, maxima, blockSize, |query|);
    SelectedRow(rows, ordered, query, i);
    CoordinateMaxCovers(cells, maxima, query, blockSize, i);
  }

  /** Each block's bound is the query on the block's maxima, which `summary` holds. */
  ghost predicate BoundByMaxima(
      layout: TermLayout, summary: seq<Cell>, rows: seq<Numbers>, ordered: seq<nat>, blockSize: nat, query: seq<real>)
  {
    && blockSize > 0 && InRows(rows, ordered)
    && HoldsGroupMaxima(summary, SelectedCells(rows, ordered), blockSize)
    && (forall c :: c in summary ==> c.column < |query|)
    && layout.documents == ordered && layout.blockSize == blockSize
    && |layout.bounds| == |Chunks(ordered, blockSize)|
    && forall b :: 0 <= b < |layout.bounds| ==> layout.bounds[b] == RowScore(summary, query, b)
  }

  /** The blocks of a term bounded by their coordinate maxima. */
  method CoordinateLayout(
      rows: seq<Numbers>, ordered: seq<nat>, blockSize: nat, query: seq<real>, ghost scores: seq<real>)
    returns (layout: TermLayout, ghost summary: seq<Cell>)
    requires blockSize > 0 && |query| > 0 && NonNegative(query)
    requires ValidRows(rows, |query|) && InRows(rows, ordered) && RowScores(scores, rows, query)
    ensures BoundByMaxima(layout, summary, rows, ordered, blockSize, query)
    ensures SafeLayout(layout, scores)
  {
    var cells := SelectedCells(rows, ordered);
    SelectedAreValid(rows, ordered, |query|);
    var maxima := SparseGroupMaxima(cells, blockSize, |query|);
    SummaryColumns(cells, maxima, blockSize, |query|);
    summary := maxima;
    var count := |Chunks(ordered, blockSize)|;
    layout := TermLayout(ordered, blockSize, seq(count, b requires 0 <= b < count => RowScore(maxima, query, b)));
    MaximaAreSafe(rows, ordered, blockSize, query, maxima, layout, scores);
  }

  lemma MaximaAreSafe(
      rows: seq<Numbers>, ordered: seq<nat>, blockSize: nat, query: seq<real>, maxima: seq<Cell>,
      layout: TermLayout, scores: seq<real>)
    requires blockSize > 0 && NonNegative(query)
    requires ValidRows(rows, |query|) && InRows(rows, ordered) && RowScores(scores, rows, query)
    requires BoundByMaxima(layout, maxima, rows, ordered, blockSize, query)
    ensures SafeLayout(layout, scores)
  {
    forall i | 0 <= i < |ordered|
      ensures BlockOf(i, blockSize) < |layout.bounds|
      ensures scores[ordered[i]] <= layout.bounds[BlockOf(i, blockSize)]
    {
      ChunkOf(ordered, blockSize, i);
      MaximaBoundDocument(rows, ordered, blockSize, query, maxima, i);
    }
  }

  /** A safe layout for each of the first terms. */
  ghost predicate LaidOut(layouts: seq<TermLayout>, terms: seq<seq<nat>>, scores: seq<real>, n: nat) {
    && |layouts| == n <= |terms|
    && forall s :: 0 <= s < n ==> SafeLayout(layouts[s], scores) && layouts[s].documents == terms[s]
  }

  ghost predicate AllBoundByMaxima(
      layouts: seq<TermLayout>, summaries: seq<seq<Cell>>, rows: seq<Numbers>, terms: seq<seq<nat>>, blockSize: nat,
      query: seq<real>, n: nat)
  {
    && |layouts| == |summaries| == n <= |terms|
    && forall t :: 0 <= t < n ==> BoundByMaxima(layouts[t], summaries[t], rows, terms[t], blockSize, query)
  }

  function ExactScores(rows: seq<Numbers>, query: seq<real>): (r: seq<real>)
    requires ValidRows(rows, |query|)
    ensures RowScores(r, rows, query)
  {
    seq(|rows|, d requires 0 <= d < |rows| => assert ValidRow(rows[d], |query|); RowDot(rows[d], query))
  }

  method CoordinateLayouts(
      rows: seq<Numbers>, query: seq<real>, terms: seq<seq<nat>>, blockSize: nat, ghost scores: seq<real>)
    returns (layouts: seq<TermLayout>, ghost summaries: seq<seq<Cell>>)
    requires blockSize > 0 && |query| > 0 && NonNegative(query)
    requires ValidRows(rows, |query|) && (forall t :: 0 <= t < |terms| ==> InRows(rows, terms[t]))
    requires RowScores(scores, rows, query)
    ensures LaidOut(layouts, terms, scores, |terms|)
    ensures AllBoundByMaxima(layouts, summaries, rows, terms, blockSize, query, |terms|)
  {
    layouts, summaries := [], [];
    for t := 0 to |terms|
      invariant LaidOut(layouts, terms, scores, t)
      invariant AllBoundByMaxima(layouts, summaries, rows, terms, blockSize, query, t)
    {
      var layout;
      ghost var summary;
      layout, summary := CoordinateLayout(rows, terms[t], blockSize, query, scores);
      layouts, summaries := layouts + [layout], summaries + [summary];
    }
  }

  /** Every top document of a term is a candidate. */
  ghost predicate KeepsTop(top: seq<nat>, terms: seq<seq<nat>>, candidates: set<nat>) {
    forall d, t :: d in top && 0 <= t < |terms| && d in terms[t] ==> d in candidates
  }

  /** Keeping every document of the layouts is keeping every document of the terms. */
  method EvaluateLaidOut(
      scores: seq<real>, k: nat, part: seq<nat>, layouts: seq<TermLayout>, ghost terms: seq<seq<nat>>)
    returns (coverage: real, candidates: set<nat>)
    requires scores != [] && k > 0 && IsPartition(scores, Min(k, |scores|), part)
    requires LaidOut(layouts, terms, scores, |terms|)
    ensures Evaluates(scores, TopkOffsets(scores, k, part), layouts, candidates, coverage)
    ensures KeepsTop(TopkOffsets(scores, k, part), terms, candidates) && coverage == 1.0
  {
    coverage, candidates := ActiveTopKCoverage(scores, k, part, layouts);
    forall d, t | d in TopkOffsets(scores, k, part) && 0 <= t < |terms| && d in terms[t] ensures d in candidates {
      assert d in layouts[t].documents;
    }
  }

  /**
   Theorem: with coordinate maxima one query keeps every top document that has an active term. The candidates are
   the documents of the blocks whose bound, the query on the block's maxima, passes against the last top document.
   */
  method EvaluateCoordinateMax(
      rows: seq<Numbers>, query: seq<real>, k: nat, part: seq<nat>, terms: seq<seq<nat>>, blockSize: nat)
    returns (coverage: real, candidates: set<nat>, ghost layouts: seq<TermLayout>, ghost summaries: seq<seq<Cell>>)
    requires rows != [] && k > 0 && blockSize > 0 && |query| > 0 && NonNegative(query)
    requires ValidRows(rows, |query|) && forall t :: 0 <= t < |terms| ==> InRows(rows, terms[t])
    requires IsPartition(ExactScores(rows, query), Min(k, |rows|), part)
    ensures AllBoundByMaxima(layouts, summaries, rows, terms, blockSize, query, |terms|)
    ensures Evaluates(
      ExactScores(rows, query), TopkOffsets(ExactScores(rows, query), k, part), layouts, candidates, coverage)
    ensures KeepsTop(TopkOffsets(ExactScores(rows, query), k, part), terms, candidates) && coverage == 1.0
  {
    var scores := ExactScores(rows, query);
    var laidOut;
    laidOut, summaries := CoordinateLayouts(rows, query, terms, blockSize, scores);
    layouts := laidOut;
    coverage, candidates := EvaluateLaidOut(scores, k, part, laidOut, terms);
  }

  // ----- centroid balls -----

  ghost predicate IsSquareRoot(root: real -> real) {
    forall x: real :: x >= 0.0 ==> IsRoot(root(x), x)
  }

  ghost predicate ValidVectors(vectors: seq<Vector>, dimension: nat) {
    forall d :: 0 <= d < |vectors| ==> |vectors[d]| == dimension
  }

  ghost predicate InVectors(vectors: seq<Vector>, ordered: seq<nat>) {
    forall i :: 0 <= i < |ordered| ==> ordered[i] < |vectors|
  }

  function ColumnValues(documents: seq<Vector>, column: nat): seq<real>
    requires forall i :: 0 <= i < |documents| ==> column < |documents[i]|
  {
    seq(|documents|, i requires 0 <= i < |documents| => documents[i][column])
  }

  /** The mean document of a block. */
  function Mean(documents: seq<Vector>, dimension: nat): (c: Vector)
    requires |documents| > 0 && forall i :: 0 <= i < |documents| ==> |documents[i]| == dimension
    ensures |c| == dimension
  {
    seq(dimension, j requires 0 <= j < dimension => Sum(ColumnValues(documents, j)) / |documents| as real)
  }

  /** A block's ball around its mean; `kept` says which coordinates of the mean are stored. */
  function BallOf(documents: seq<Vector>, dimension: nat, kept: seq<bool>, root: real -> real): (ball: Ball)
    requires |documents| > 0 && forall i :: 0 <= i < |documents| ==> |documents[i]| == dimension
    requires |kept| == dimension
    ensures |ball.centroid| == dimension && ball.kept == kept
  {
    var centroid := Mean(documents, dimension);
    Ball(
      centroid, kept,
      root(DroppedSquared(centroid, kept)),
      root(AtLeastZero(MaxOrZero(Distances(documents, centroid)))))
  }

  lemma BallEncloses(documents: seq<Vector>, dimension: nat, kept: seq<bool>, root: real -> real)
    requires |documents| > 0 && (forall i :: 0 <= i < |documents| ==> |documents[i]| == dimension)
    requires |kept| == dimension && IsSquareRoot(root)
    ensures Encloses(BallOf(documents, dimension, kept, root), documents)
  {
  }

  lemma {:induction false} ChunkMembers(ordered: seq<nat>, size: nat, b: nat)
    requires size > 0 && b < |Chunks(ordered, size)|
    ensures forall d :: d in Chunks(ordered, size)[b] ==> d in ordered
    decreases |ordered|
  {
    if b > 0 { ChunkMembers(ordered[size..], size, b - 1); }
  }

  lemma ChunkInVectors(vectors: seq<Vector>, ordered: seq<nat>, size: nat, b: nat)
    requires size > 0 && InVectors(vectors, ordered) && b < |Chunks(ordered, size)|
    ensures InVectors(vectors, Chunks(ordered, size)[b])
  {
    ChunkMembers(ordered, size, b);
    var chunk := Chunks(ordered, size)[b];
    forall i | 0 <= i < |chunk| ensures chunk[i] < |vectors| {
      assert chunk[i] in ordered;
    }
  }

  /** The ball of block `b` of a term. */
  function BlockBall(
      vectors: seq<Vector>, dimension: nat, ordered: seq<nat>, blockSize: nat, kept: seq<seq<bool>>, root: real -> real,
      b: nat): (ball: Ball)
    requires blockSize > 0 && ValidVectors(vectors, dimension) && InVectors(vectors, ordered)
    requires ValidMask(kept, ordered, blockSize, dimension) && b < |kept|
    ensures |ball.centroid| == dimension && ball.kept == kept[b]
  {
    ChunkInVectors(vectors, ordered, blockSize, b);
    BallOf(Gather(vectors, Chunks(ordered, blockSize)[b]), dimension, kept[b], root)
  }

  /** For each block, which coordinates it stores. */
  ghost predicate ValidMask(kept: seq<seq<bool>>, ordered: seq<nat>, blockSize: nat, dimension: nat)
    requires blockSize > 0
  {
    |kept| == |Chunks(ordered, blockSize)| && forall b :: 0 <= b < |kept| ==> |kept[b]| == dimension
  }

  /** One ball per block, in a loop over the blocks; each holds all documents of its block. */
  method CentroidBalls(
      vectors: seq<Vector>, dimension: nat, ordered: seq<nat>, blockSize: nat, kept: seq<seq<bool>>, root: real -> real)
    returns (balls: seq<Ball>)
    requires blockSize > 0 && ValidVectors(vectors, dimension) && InVectors(vectors, ordered) && IsSquareRoot(root)
    requires ValidMask(kept, ordered, blockSize, dimension)
    ensures |balls| == |kept|
    ensures forall b :: 0 <= b < |balls| ==>
      balls[b] == BlockBall(vectors, dimension, ordered, blockSize, kept, root, b)
    ensures forall b :: 0 <= b < |balls| ==> HoldsBlock(balls[b], vectors, Chunks(ordered, blockSize)[b])
  {
    var chunks := Chunks(ordered, blockSize);
    balls := [];
    for b := 0 to |chunks|
      invariant |balls| == b
      invariant forall a :: 0 <= a < b ==> balls[a] == BlockBall(vectors, dimension, ordered, blockSize, kept, root, a)
      invariant forall a :: 0 <= a < b ==> HoldsBlock(balls[a], vectors, chunks[a])
    {
      BlockBallHolds(vectors, dimension, ordered, blockSize, kept, root, b);
      balls := balls + [BlockBall(vectors, dimension, ordered, blockSize, kept, root, b)];
    }
  }

  ghost predicate HoldsBlock(ball: Ball, vectors: seq<Vector>, chunk: seq<nat>) {
    InVectors(vectors, chunk) && Encloses(ball, Gather(vectors, chunk))
  }

  lemma BlockBallHolds(
      vectors: seq<Vector>, dimension: nat, ordered: seq<nat>, blockSize: nat, kept: seq<seq<bool>>, root: real -> real,
      b: nat)
    requires blockSize > 0 && ValidVectors(vectors, dimension) && InVectors(vectors, ordered) && IsSquareRoot(root)
    requires ValidMask(kept, ordered, blockSize, dimension) && b < |kept|
    ensures HoldsBlock(
      BlockBall(vectors, dimension, ordered, blockSize, kept, root, b), vectors, Chunks(ordered, blockSize)[b])
  {
    ChunkInVectors(vectors, ordered, blockSize, b);
    BallEncloses(Gather(vectors, Chunks(ordered, blockSize)[b]), dimension, kept[b], root);
  }

  ghost predicate DotScores(scores: seq<real>, vectors: seq<Vector>, query: Vector)
    requires ValidVectors(vectors, |query|)
  {
    |scores| == |vectors| && forall d :: 0 <= d < |vectors| ==> scores[d] == Score(query, vectors[d])
  }

  lemma BallCoversMember(
      ball: Ball, vectors: seq<Vector>, ids: seq<nat>, query: Vector, root: real -> real, d: nat)
    requires ValidVectors(vectors, |query|) && InVectors(vectors, ids) && d in ids && IsSquareRoot(root)
    requires Encloses(ball, Gather(vectors, ids)) && |query| == |ball.centroid|
    ensures d < |vectors|
    ensures Score(query, vectors[d]) <= BallScore(ball, query, root)
  {
    var i :| 0 <= i < |ids| && ids[i] == d;
    NormNonNegative(query);
    BallCoversBlock(
      ball, Gather(vectors, ids), query, root(Dot(query, query)), root(DroppedSquared(query, ball.kept)), i);
  }

  /** The bound of a ball for a query, with the script's two norms. */
  function BallScore(ball: Ball, query: Vector, root: real -> real): real
    requires |query| == |ball.centroid| == |ball.kept|
  {
    BallBound(ball, query, root(Dot(query, query)), root(DroppedSquared(query, ball.kept)))
  }

  /** Each block's bound is that of the ball around its mean document. */
  ghost predicate BoundByBalls(
      layout: TermLayout, vectors: seq<Vector>, ordered: seq<nat>, blockSize: nat, kept: seq<seq<bool>>, query: Vector,
      root: real -> real)
  {
    && blockSize > 0 && ValidVectors(vectors, |query|) && InVectors(vectors, ordered)
    && ValidMask(kept, ordered, blockSize, |query|)
    && layout.documents == ordered && layout.blockSize == blockSize
    && |layout.bounds| == |kept|
    && forall b :: 0 <= b < |layout.bounds| ==>
         layout.bounds[b] == BallScore(BlockBall(vectors, |query|, ordered, blockSize, kept, root, b), query, root)
  }

  /** The blocks of a term bounded by their balls. */
  method BallLayout(
      vectors: seq<Vector>, ordered: seq<nat>, blockSize: nat, kept: seq<seq<bool>>, query: Vector, root: real -> real,
      ghost scores: seq<real>)
    returns (layout: TermLayout)
    requires blockSize > 0 && ValidVectors(vectors, |query|) && InVectors(vectors, ordered) && IsSquareRoot(root)
    requires ValidMask(kept, ordered, blockSize, |query|) && DotScores(scores, vectors, query)
    ensures BoundByBalls(layout, vectors, ordered, blockSize, kept, query, root)
    ensures SafeLayout(layout, scores)
  {
    var balls := CentroidBalls(vectors, |query|, ordered, blockSize, kept, root);
    var bounds := seq(|balls|, b requires 0 <= b < |balls| && |balls[b].centroid| == |query| == |balls[b].kept| =>
      BallScore(balls[b], query, root));
    layout := TermLayout(ordered, blockSize, bounds);
    BallsAreSafe(vectors, ordered, blockSize, kept, query, root, layout, scores);
  }

  lemma BallsAreSafe(
      vectors: seq<Vector>, ordered: seq<nat>, blockSize: nat, kept: seq<seq<bool>>, query: Vector, root: real -> real,
      layout: TermLayout, scores: seq<real>)
    requires BoundByBalls(layout, vectors, ordered, blockSize, kept, query, root) && IsSquareRoot(root)
    requires DotScores(scores, vectors, query)
    ensures SafeLayout(layout, scores)
  {
    forall i | 0 <= i < |ordered|
      ensures BlockOf(i, blockSize) < |layout.bounds|
      ensures scores[ordered[i]] <= layout.bounds[BlockOf(i, blockSize)]
    {
      ChunkOf(ordered, blockSize, i);
      var b := BlockOf(i, blockSize);
      BlockBallHolds(vectors, |query|, ordered, blockSize, kept, root, b);
      BallCoversMember(
        BlockBall(vectors, |query|, ordered, blockSize, kept, root, b), vectors, Chunks(ordered, blockSize)[b], query,
        root, ordered[i]);
    }
  }

  function DenseScores(vectors: seq<Vector>, query: Vector): (r: seq<real>)
    requires ValidVectors(vectors, |query|)
    ensures DotScores(r, vectors, query)
  {
    seq(|vectors|, d requires 0 <= d < |vectors| => Score(query, vectors[d]))
  }

  /** For each term, which coordinates each of its blocks stores. */
  ghost predicate ValidMasks(kept: seq<seq<seq<bool>>>, terms: seq<seq<nat>>, blockSize: nat, dimension: nat)
    requires blockSize > 0
  {
    |kept| == |terms| && forall t :: 0 <= t < |terms| ==> ValidMask(kept[t], terms[t], blockSize, dimension)
  }

  ghost predicate AllBoundByBalls(
      layouts: seq<TermLayout>, vectors: seq<Vector>, terms: seq<seq<nat>>, blockSize: nat, kept: seq<seq<seq<bool>>>,
      query: Vector, root: real -> real, n: nat)
  {
    && |layouts| == n <= |terms| == |kept|
    && forall t :: 0 <= t < n ==> BoundByBalls(layouts[t], vectors, terms[t], blockSize, kept[t], query, root)
  }

  lemma AppendBound(
      layouts: seq<TermLayout>, layout: TermLayout, vectors: seq<Vector>, terms: seq<seq<nat>>, blockSize: nat,
      kept: seq<seq<seq<bool>>>, query: Vector, root: real -> real, n: nat)
    requires AllBoundByBalls(layouts, vectors, terms, blockSize, kept, query, root, n) && n < |terms|
    requires BoundByBalls(layout, vectors, terms[n], blockSize, kept[n], query, root)
    ensures AllBoundByBalls(layouts + [layout], vectors, terms, blockSize, kept, query, root, n + 1)
  {
  }

  method BallLayouts(
      vectors: seq<Vector>, query: Vector, terms: seq<seq<nat>>, blockSize: nat, kept: seq<seq<seq<bool>>>,
      root: real -> real, ghost scores: seq<real>)
    returns (layouts: seq<TermLayout>)
    requires blockSize > 0 && ValidVectors(vectors, |query|) && IsSquareRoot(root)
    requires forall t :: 0 <= t < |terms| ==> InVectors(vectors, terms[t])
    requires ValidMasks(kept, terms, blockSize, |query|) && DotScores(scores, vectors, query)
    ensures LaidOut(layouts, terms, scores, |terms|)
    ensures AllBoundByBalls(layouts, vectors, terms, blockSize, kept, query, root, |terms|)
  {
    layouts := [];
    for t := 0 to |terms|
      invariant LaidOut(layouts, terms, scores, t)
      invariant AllBoundByBalls(layouts, vectors, terms, blockSize, kept, query, root, t)
    {
      var layout := BallLayout(vectors, terms[t], blockSize, kept[t], query, root, scores);
      AppendBound(layouts, layout, vectors, terms, blockSize, kept, query, root, t);
      layouts := layouts + [layout];
    }
  }

  /**
   Theorem: with centroid balls one query keeps every top document that has an active term, whatever coordinates
   are stored. The candidates are the documents of the blocks whose ball's bound passes against the last top document.
   */
  method EvaluateCentroidBall(
      vectors: seq<Vector>, query: Vector, k: nat, part: seq<nat>, terms: seq<seq<nat>>, blockSize: nat,
      kept: seq<seq<seq<bool>>>, root: real -> real)
    returns (coverage: real, candidates: set<nat>, ghost layouts: seq<TermLayout>)
    requires vectors != [] && k > 0 && blockSize > 0 && ValidVectors(vectors, |query|) && IsSquareRoot(root)
    requires forall t :: 0 <= t < |terms| ==> InVectors(vectors, terms[t])
    requires ValidMasks(kept, terms, blockSize, |query|)
    requires IsPartition(DenseScores(vectors, query), Min(k, |vectors|), part)
    ensures AllBoundByBalls(layouts, vectors, terms, blockSize, kept, query, root, |terms|)
    ensures Evaluates(
      DenseScores(vectors, query), TopkOffsets(DenseScores(vectors, query), k, part), layouts, candidates, coverage)
    ensures KeepsTop(TopkOffsets(DenseScores(vectors, query), k, part), terms, candidates) && coverage == 1.0
  {
    var scores := DenseScores(vectors, query);
    var laidOut := BallLayouts(vectors, query, terms, blockSize, kept, root, scores);
    layouts := laidOut;
    coverage, candidates := EvaluateLaidOut(scores, k, part, laidOut, terms);
  }
}
