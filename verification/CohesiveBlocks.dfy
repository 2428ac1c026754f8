/**
 The safe block bounds of the cohesive layout: coordinate maxima, built by one sort and one segment reduction, and
 the centroid ball; and the evaluation that keeps the blocks whose bound can reach the k-th score.
 */
module CohesiveBlocks {
  import opened Arithmetic
  import opened Ranking
  import opened Tables
  import opened KeyedSums
  import opened CentroidBall
  import opened Partitions

  // ----- coordinate maxima -----

  /** One stored entry of the selected rows. */
  datatype Cell = Cell(row: nat, column: nat, value: real)

  function BlockOf(row: nat, blockSize: nat): nat
    requires blockSize > 0
  {
    row / blockSize
  }

  function CellKey(block: nat, column: nat, dimension: nat): nat {
    column + block * dimension
  }

  /** The key decodes uniquely. */
  lemma KeyDecodes(block: nat, column: nat, dimension: nat)
    requires column < dimension
    ensures CellKey(block, column, dimension) / dimension == block
    ensures CellKey(block, column, dimension) % dimension == column
  {
    QuotientUnique(CellKey(block, column, dimension), dimension, block, column);
  }

  ghost predicate HasKey(d: Numbers, key: nat) {
    exists x :: x in d && x.key == key
  }

  /** `value` is the largest value stored under `key`. */
  ghost predicate IsMaxAt(entries: Numbers, key: nat, value: real) {
    Entry(key, value) in entries && forall x :: x in entries && x.key == key ==> x.value <= value
  }

  ghost predicate StrictKeys(d: Numbers) {
    forall i, j :: 0 <= i < j < |d| ==> d[i].key < d[j].key
  }

  /** `d` holds, under strictly ascending keys, the maximum of every key of `entries` and nothing else. */
  ghost predicate HoldsMaxima(d: Numbers, entries: Numbers) {
    && StrictKeys(d)
    && (forall x :: x in d ==> IsMaxAt(entries, x.key, x.value))
    && (forall x :: x in entries ==> HasKey(d, x.key))
  }

  /** The step of `np.maximum.reduceat`: a new run starts, or the last maximum is raised. */
  function Reduced(d: Numbers, e: Entry<nat, real>): Numbers {
    if d == [] || d[|d| - 1].key != e.key then d + [e]
    else
      var last := d[|d| - 1];
      d[..|d| - 1] + [Entry(e.key, if last.value < e.value then e.value else last.value)]
  }

  lemma NewRunHolds(d: Numbers, entries: Numbers, e: Entry<nat, real>)
    requires HoldsMaxima(d, entries) && forall x :: x in d ==> x.key < e.key
    ensures HoldsMaxima(d + [e], entries + [e])
  {
    var more, r := entries + [e], d + [e];
    forall x | x in entries ensures x.key != e.key {
      assert HasKey(d, x.key);
    }
    assert forall x :: x in more <==> x in entries || x == e;
    assert forall x :: x in r <==> x in d || x == e;
    assert StrictKeys(r) by {
      assert forall i :: 0 <= i < |d| ==> d[i] in d;
    }
    forall x | x in more ensures HasKey(r, x.key) {
      assert x in entries ==> HasKey(d, x.key);
    }
  }

  lemma SameKeysStayStrict(d: Numbers, r: Numbers)
    requires StrictKeys(d) && |r| == |d| && forall i :: 0 <= i < |d| ==> r[i].key == d[i].key
    ensures StrictKeys(r)
  {
  }

  lemma RaisedRunHolds(front: Numbers, last: Entry<nat, real>, entries: Numbers, e: Entry<nat, real>)
    requires HoldsMaxima(front + [last], entries) && last.key == e.key
    ensures HoldsMaxima(front + [Entry(e.key, if last.value < e.value then e.value else last.value)], entries + [e])
  {
    var top := Entry(e.key, if last.value < e.value then e.value else last.value);
    var d, r, more := front + [last], front + [top], entries + [e];
    assert forall x :: x in more <==> x in entries || x == e;
    assert forall x :: x in d <==> x in front || x == last;
    assert forall x :: x in r <==> x in front || x == top;
    SameKeysStayStrict(d, r);
    forall x | x in front ensures IsMaxAt(more, x.key, x.value) {
      assert IsMaxAt(entries, x.key, x.value);
    }
    assert IsMaxAt(entries, last.key, last.value);
    forall x | x in more ensures HasKey(r, x.key) {
      if x in entries {
        assert HasKey(d, x.key);
        var y :| y in d && y.key == x.key;
        assert y in front || x.key == top.key;
      } else {
        assert top in r;
      }
    }
  }

  lemma ReducedHolds(d: Numbers, entries: Numbers, e: Entry<nat, real>)
    requires HoldsMaxima(d, entries) && forall x :: x in entries ==> x.key <= e.key
    ensures HoldsMaxima(Reduced(d, e), entries + [e])
  {
    if d == [] {
      NewRunHolds(d, entries, e);
    } else {
      var last := d[|d| - 1];
      LastSplit(d);
      assert IsMaxAt(entries, last.key, last.value);
      if last.key == e.key {
        RaisedRunHolds(d[..|d| - 1], last, entries, e);
      } else {
        forall x | x in d ensures x.key < e.key {
          var i :| 0 <= i < |d| && d[i] == x;
          assert i < |d| - 1 ==> d[i].key < last.key;
        }
        NewRunHolds(d, entries, e);
      }
    }
  }

  function KeyedCell(c: Cell, blockSize: nat, dimension: nat): Entry<nat, real>
    requires blockSize > 0
  {
    Entry(CellKey(BlockOf(c.row, blockSize), c.column, dimension), c.value)
  }

  function KeyedCells(cells: seq<Cell>, blockSize: nat, dimension: nat): (r: Numbers)
    requires blockSize > 0
    ensures |r| == |cells|
    ensures forall i :: 0 <= i < |r| ==> r[i] == KeyedCell(cells[i], blockSize, dimension)
  {
    seq(|cells|, i requires 0 <= i < |cells| => KeyedCell(cells[i], blockSize, dimension))
  }

  lemma MaximaOfPermutation(d: Numbers, a: Numbers, b: Numbers)
    requires HoldsMaxima(d, a) && forall x :: x in a <==> x in b
    ensures HoldsMaxima(d, b)
  {
    forall x | x in d ensures IsMaxAt(b, x.key, x.value) {
      assert IsMaxAt(a, x.key, x.value);
    }
  }

  lemma SortedPrefixBelow(ordered: Numbers, i: nat)
    requires i < |ordered| && SortedBy(ordered, (e: Entry<nat, real>) => e.key as real)
    ensures forall x :: x in ordered[..i] ==> x.key <= ordered[i].key
  {
    var key := (e: Entry<nat, real>) => e.key as real;
    forall x | x in ordered[..i] ensures x.key <= ordered[i].key {
      var j :| 0 <= j < i && ordered[j] == x;
      assert key(ordered[j]) <= key(ordered[i]);
    }
  }

  method ReduceRuns(keyed: Numbers) returns (summary: Numbers)
    ensures HoldsMaxima(summary, keyed)
  {
    var key := (e: Entry<nat, real>) => e.key as real;
    var ordered := SortBy(keyed, key);
    SortByFacts(keyed, key);
    SortByMembers(keyed, key);
    summary := [];
    for i := 0 to |ordered|
      invariant HoldsMaxima(summary, ordered[..i])
    {
      SortedPrefixBelow(ordered, i);
      assert ordered[..i + 1] == ordered[..i] + [ordered[i]];
      ReducedHolds(summary, ordered[..i], ordered[i]);
      summary := Reduced(summary, ordered[i]);
    }
    assert ordered[..|ordered|] == ordered;
    MaximaOfPermutation(summary, ordered, keyed);
  }

  // ----- the decoded summary -----

  function Decoded(e: Entry<nat, real>, dimension: nat): Cell
    requires dimension > 0
  {
    Cell(e.key / dimension, e.key % dimension, e.value)
  }

  function DecodedAll(d: Numbers, dimension: nat): (r: seq<Cell>)
    requires dimension > 0
    ensures |r| == |d| && forall i :: 0 <= i < |r| ==> r[i] == Decoded(d[i], dimension)
  {
    seq(|d|, i requires 0 <= i < |d| => Decoded(d[i], dimension))
  }

  ghost predicate NonNegativeCells(cells: seq<Cell>) {
    forall i :: 0 <= i < |cells| ==> cells[i].value >= 0.0
  }

  /** Documents as the scripts store them: columns in range, one cell per row and column. */
  ghost predicate ValidCells(cells: seq<Cell>, dimension: nat) {
    && (forall i :: 0 <= i < |cells| ==> cells[i].column < dimension)
    && (forall i, j :: 0 <= i < j < |cells| && cells[i].row == cells[j].row ==> cells[i].column != cells[j].column)
  }

  /** `value` is the largest value of `column` in the documents of `block`. */
  ghost predicate IsGroupMax(cells: seq<Cell>, blockSize: nat, block: nat, column: nat, value: real)
    requires blockSize > 0
  {
    && (exists c :: c in cells && BlockOf(c.row, blockSize) == block && c.column == column && c.value == value)
    && (forall c :: c in cells && BlockOf(c.row, blockSize) == block && c.column == column ==> c.value <= value)
  }

  ghost predicate HasCell(summary: seq<Cell>, block: nat, column: nat) {
    exists x :: x in summary && x.row == block && x.column == column
  }

  /** One summary cell per block and column that occurs, holding the maximum. */
  ghost predicate HoldsGroupMaxima(summary: seq<Cell>, cells: seq<Cell>, blockSize: nat)
    requires blockSize > 0
  {
    && (forall i, j :: 0 <= i < j < |summary| ==>
          summary[i].row != summary[j].row || summary[i].column != summary[j].column)
    && (forall x :: x in summary ==> IsGroupMax(cells, blockSize, x.row, x.column, x.value))
    && (forall c :: c in cells ==> HasCell(summary, BlockOf(c.row, blockSize), c.column))
  }

  lemma SameKey(a: Cell, b: Cell, blockSize: nat, dimension: nat)
    requires blockSize > 0 && a.column < dimension && b.column < dimension
    ensures KeyedCell(a, blockSize, dimension).key == KeyedCell(b, blockSize, dimension).key <==>
      BlockOf(a.row, blockSize) == BlockOf(b.row, blockSize) && a.column == b.column
    ensures Decoded(KeyedCell(a, blockSize, dimension), dimension)
         == Cell(BlockOf(a.row, blockSize), a.column, a.value)
  {
    KeyDecodes(BlockOf(a.row, blockSize), a.column, dimension);
    KeyDecodes(BlockOf(b.row, blockSize), b.column, dimension);
  }

  /** A maximum under a key is the maximum of the block and column the key decodes to. */
  lemma KeyMaxIsGroupMax(cells: seq<Cell>, blockSize: nat, dimension: nat, e: Entry<nat, real>) returns (c: Cell)
    requires blockSize > 0 && ValidCells(cells, dimension)
    requires IsMaxAt(KeyedCells(cells, blockSize, dimension), e.key, e.value)
    ensures c in cells && e == KeyedCell(c, blockSize, dimension)
    ensures c.column < dimension
    ensures Decoded(e, dimension) == Cell(BlockOf(c.row, blockSize), c.column, e.value)
    ensures IsGroupMax(cells, blockSize, BlockOf(c.row, blockSize), c.column, e.value)
  {
    var keyed := KeyedCells(cells, blockSize, dimension);
    var i :| 0 <= i < |keyed| && keyed[i] == Entry(e.key, e.value);
    c := cells[i];
    SameKey(c, c, blockSize, dimension);
    forall x | x in cells && BlockOf(x.row, blockSize) == BlockOf(c.row, blockSize) && x.column == c.column
      ensures x.value <= e.value
    {
      var j :| 0 <= j < |cells| && cells[j] == x;
      SameKey(c, x, blockSize, dimension);
      assert keyed[j] in keyed;
    }
  }

  lemma SummaryCellsDistinct(cells: seq<Cell>, blockSize: nat, dimension: nat, d: Numbers, i: nat, j: nat)
    requires blockSize > 0 && dimension > 0 && ValidCells(cells, dimension)
    requires HoldsMaxima(d, KeyedCells(cells, blockSize, dimension)) && i < j < |d|
    ensures var a, b := Decoded(d[i], dimension), Decoded(d[j], dimension);
      a.row != b.row || a.column != b.column
  {
    assert d[i] in d && d[j] in d;
    assert d[i].key < d[j].key;
    var a := KeyMaxIsGroupMax(cells, blockSize, dimension, d[i]);
    var b := KeyMaxIsGroupMax(cells, blockSize, dimension, d[j]);
    SameKey(a, b, blockSize, dimension);
  }

  lemma SummaryHasCell(cells: seq<Cell>, blockSize: nat, dimension: nat, d: Numbers, c: Cell)
    requires blockSize > 0 && dimension > 0 && ValidCells(cells, dimension)
    requires HoldsMaxima(d, KeyedCells(cells, blockSize, dimension)) && c in cells
    ensures HasCell(DecodedAll(d, dimension), BlockOf(c.row, blockSize), c.column)
  {
    var keyed, summary := KeyedCells(cells, blockSize, dimension), DecodedAll(d, dimension);
    var i :| 0 <= i < |cells| && cells[i] == c;
    assert keyed[i] in keyed && HasKey(d, keyed[i].key);
    var x :| x in d && x.key == keyed[i].key;
    var j :| 0 <= j < |d| && d[j] == x;
    var a := KeyMaxIsGroupMax(cells, blockSize, dimension, x);
    SameKey(a, c, blockSize, dimension);
    assert summary[j] in summary;
  }

  /** Sort by key, reduce each run to its maximum, decode the keys: the naive per-block, per-column maximum. */
  method SparseGroupMaxima(cells: seq<Cell>, blockSize: nat, dimension: nat) returns (summary: seq<Cell>)
    requires blockSize > 0 && dimension > 0 && ValidCells(cells, dimension)
    ensures HoldsGroupMaxima(summary, cells, blockSize)
  {
    var maxima := ReduceRuns(KeyedCells(cells, blockSize, dimension));
    summary := DecodedAll(maxima, dimension);
    forall i, j | 0 <= i < j < |summary|
      ensures summary[i].row != summary[j].row || summary[i].column != summary[j].column
    {
      SummaryCellsDistinct(cells, blockSize, dimension, maxima, i, j);
    }
    forall x | x in summary ensures IsGroupMax(cells, blockSize, x.row, x.column, x.value) {
      var i :| 0 <= i < |summary| && summary[i] == x;
      assert maxima[i] in maxima;
      var c := KeyMaxIsGroupMax(cells, blockSize, dimension, maxima[i]);
    }
    forall c | c in cells ensures HasCell(summary, BlockOf(c.row, blockSize), c.column) {
      SummaryHasCell(cells, blockSize, dimension, maxima, c);
    }
  }

  // ----- what the maxima bound -----

  function Weight(query: seq<real>, c: Cell): real
    requires c.column < |query|
  {
    query[c.column] * c.value
  }

  lemma WeightMonotone(query: seq<real>, a: Cell, b: Cell)
    requires a.column == b.column < |query| && query[a.column] >= 0.0 && a.value <= b.value
    ensures Weight(query, a) <= Weight(query, b)
  {
  }

  lemma WeightNonNegative(query: seq<real>, c: Cell)
    requires c.column < |query| && query[c.column] >= 0.0 && c.value >= 0.0
    ensures Weight(query, c) >= 0.0
  {
  }

  /** The weighted cells of one row, under their columns. */
  function WeightedRow(cells: seq<Cell>, query: seq<real>, row: nat): Numbers
    requires forall c :: c in cells ==> c.column < |query|
  {
    if cells == [] then []
    else
      var rest := WeightedRow(cells[1..], query, row);
      assert cells[0] in cells;
      if cells[0].row == row then [Entry(cells[0].column, Weight(query, cells[0]))] + rest else rest
  }

  /** `(matrix @ query)[row]`, of the documents or of their summary. */
  function RowScore(cells: seq<Cell>, query: seq<real>, row: nat): real
    requires forall c :: c in cells ==> c.column < |query|
  {
    SumValues(WeightedRow(cells, query, row))
  }

  ghost predicate OnePerColumn(cells: seq<Cell>, row: nat) {
    forall i, j :: 0 <= i < j < |cells| && cells[i].row == row && cells[j].row == row ==>
      cells[i].column != cells[j].column
  }

  /** Reading a weighted row back gives the weighted cell of the column, or nothing. */
  lemma {:induction false} WeightedRowGet(cells: seq<Cell>, query: seq<real>, row: nat, column: nat)
    requires (forall c :: c in cells ==> c.column < |query|) && OnePerColumn(cells, row)
    ensures DistinctKeys(WeightedRow(cells, query, row))
    ensures HasKey(WeightedRow(cells, query, row), column) <==> HasCell(cells, row, column)
    ensures forall c :: c in cells && c.row == row && c.column == column ==>
      Get(WeightedRow(cells, query, row), column, 0.0) == Weight(query, c)
    ensures !HasCell(cells, row, column) ==> Get(WeightedRow(cells, query, row), column, 0.0) == 0.0
  {
    if cells != [] {
      assert cells == [cells[0]] + cells[1..];
      WeightedRowGet(cells[1..], query, row, column);
      WeightedRowGet(cells[1..], query, row, cells[0].column);
    }
  }

  lemma {:induction false} WeightedRowAt(cells: seq<Cell>, query: seq<real>, row: nat, o: nat) returns (c: Cell)
    requires (forall c :: c in cells ==> c.column < |query|) && o < |WeightedRow(cells, query, row)|
    ensures c in cells && c.row == row
    ensures WeightedRow(cells, query, row)[o] == Entry(c.column, Weight(query, c))
  {
    assert cells == [cells[0]] + cells[1..];
    if cells[0].row == row && o == 0 {
      c := cells[0];
    } else {
      c := WeightedRowAt(cells[1..], query, row, if cells[0].row == row then o - 1 else o);
    }
  }

  /** In the column of one of the block's cells, the summary's weighted maximum is at least the weighted cell. */
  lemma SummaryAtLeast(cells: seq<Cell>, summary: seq<Cell>, query: seq<real>, blockSize: nat, c: Cell)
    requires blockSize > 0 && ValidCells(cells, |query|) && NonNegative(query)
    requires HoldsGroupMaxima(summary, cells, blockSize) && c in cells
    requires forall x :: x in summary ==> x.column < |query|
    ensures Get(WeightedRow(summary, query, BlockOf(c.row, blockSize)), c.column, 0.0) >= Weight(query, c)
  {
    var block := BlockOf(c.row, blockSize);
    assert HasCell(summary, block, c.column);
    var x :| x in summary && x.row == block && x.column == c.column;
    WeightedRowGet(summary, query, block, c.column);
    assert IsGroupMax(cells, blockSize, block, c.column, x.value);
    WeightMonotone(query, c, x);
  }

  lemma SummaryNonNegative(
      cells: seq<Cell>, summary: seq<Cell>, query: seq<real>, blockSize: nat, block: nat, column: nat)
    requires blockSize > 0 && ValidCells(cells, |query|) && NonNegativeCells(cells) && NonNegative(query)
    requires HoldsGroupMaxima(summary, cells, blockSize)
    requires forall x :: x in summary ==> x.column < |query|
    ensures Get(WeightedRow(summary, query, block), column, 0.0) >= 0.0
  {
    WeightedRowGet(summary, query, block, column);
    if HasCell(summary, block, column) {
      var x :| x in summary && x.row == block && x.column == column;
      assert IsGroupMax(cells, blockSize, block, column, x.value);
      WeightNonNegative(query, x);
    }
  }

  lemma SummaryColumns(cells: seq<Cell>, summary: seq<Cell>, blockSize: nat, dimension: nat)
    requires blockSize > 0 && ValidCells(cells, dimension) && HoldsGroupMaxima(summary, cells, blockSize)
    ensures forall x :: x in summary ==> x.column < dimension
  {
    forall x | x in summary ensures x.column < dimension {
      assert IsGroupMax(cells, blockSize, x.row, x.column, x.value);
    }
  }

  /** Theorem: a block's coordinate maxima bound every document of the block, for any nonnegative query. */
  lemma CoordinateMaxCovers(cells: seq<Cell>, summary: seq<Cell>, query: seq<real>, blockSize: nat, row: nat)
    requires blockSize > 0 && ValidCells(cells, |query|) && NonNegativeCells(cells) && NonNegative(query)
    requires HoldsGroupMaxima(summary, cells, blockSize)
    ensures forall c :: c in cells + summary ==> c.column < |query|
    ensures RowScore(cells, query, row) <= RowScore(summary, query, BlockOf(row, blockSize))
  {
    SummaryColumns(cells, summary, blockSize, |query|);
    var items, bounds := WeightedRow(cells, query, row), WeightedRow(summary, query, BlockOf(row, blockSize));
    WeightedRowGet(cells, query, row, 0);
    WeightedRowGet(summary, query, BlockOf(row, blockSize), 0);
    forall k ensures Get(bounds, k, 0.0) >= 0.0 {
      SummaryNonNegative(cells, summary, query, blockSize, BlockOf(row, blockSize), k);
    }
    forall o | 0 <= o < |items| ensures Get(bounds, items[o].key, 0.0) >= items[o].value {
      var c := WeightedRowAt(cells, query, row, o);
      SummaryAtLeast(cells, summary, query, blockSize, c);
    }
    KeyedSumCovers(bounds, items);
  }

  // ----- the centroid ball of a block -----

  /** `max(values, initial=0.0)`. */
  function MaxOrZero(values: seq<real>): real {
    if values == [] then 0.0
    else
      var rest := MaxOrZero(values[1..]);
      if rest < values[0] then values[0] else rest
  }

  lemma {:induction false} MaxOrZeroCovers(values: seq<real>, i: nat)
    requires i < |values|
    ensures values[i] <= MaxOrZero(values)
  {
    if i > 0 { MaxOrZeroCovers(values[1..], i - 1); }
  }

  function Distances(documents: seq<Vector>, centroid: Vector): (r: seq<real>)
    requires forall i :: 0 <= i < |documents| ==> |documents[i]| == |centroid|
    ensures |r| == |documents|
    ensures forall i :: 0 <= i < |r| ==>
      r[i] == DistanceSquared(documents[i], centroid)
  {
    seq(|documents|, i requires 0 <= i < |documents| => DistanceSquared(documents[i], centroid))
  }

  /** What a block stores: its centroid, the coordinates kept, the norm dropped, the radius. */
  datatype Ball = Ball(centroid: Vector, kept: seq<bool>, residualNorm: real, radius: real)

  ghost predicate Encloses(ball: Ball, documents: seq<Vector>) {
    && |ball.kept| == |ball.centroid|
    && (forall i :: 0 <= i < |documents| ==> |documents[i]| == |ball.centroid|)
    && IsRoot(ball.residualNorm, DroppedSquared(ball.centroid, ball.kept))
    && IsRoot(ball.radius, AtLeastZero(MaxOrZero(Distances(documents, ball.centroid))))
  }

  /** The bound of a block for a query, from the query's norm and its norm off the kept coordinates. */
  function BallBound(ball: Ball, query: Vector, queryNorm: real, queryResidual: real): real
    requires |query| == |ball.centroid| == |ball.kept|
  {
    BallValue(query, ball.centroid, ball.kept, queryNorm, queryResidual, ball.residualNorm, ball.radius)
  }

  ghost predicate QueryNorms(ball: Ball, query: Vector, queryNorm: real, queryResidual: real)
    requires |query| == |ball.centroid| == |ball.kept|
  {
    && IsRoot(queryNorm, Dot(query, query))
    && IsRoot(queryResidual, DroppedSquared(query, ball.kept))
  }

  /** Theorem: the ball of a block bounds every document of the block. */
  lemma BallCoversBlock(ball: Ball, documents: seq<Vector>, query: Vector, queryNorm: real, queryResidual: real, i: nat)
    requires Encloses(ball, documents) && i < |documents| && |query| == |ball.centroid|
    requires QueryNorms(ball, query, queryNorm, queryResidual)
    ensures Score(query, documents[i]) <= BallBound(ball, query, queryNorm, queryResidual)
  {
    var distances := Distances(documents, ball.centroid);
    MaxOrZeroCovers(distances, i);
    RootWeakens(ball.radius, DistanceSquared(documents[i], ball.centroid), AtLeastZero(MaxOrZero(distances)));
    CentroidBallCovers(
      query, documents[i], ball.centroid, ball.kept, queryNorm, queryResidual, ball.residualNorm, ball.radius);
  }

  // ----- which blocks an evaluation keeps -----

  /** The blocks of one query term: its documents in some order, cut every `blockSize`, and a bound per block. */
  datatype TermLayout = TermLayout(documents: seq<nat>, blockSize: nat, bounds: seq<real>)

  /** Every position has a block with a bound. */
  ghost predicate Sized(layout: TermLayout) {
    layout.blockSize > 0 && forall i :: 0 <= i < |layout.documents| ==> BlockOf(i, layout.blockSize) < |layout.bounds|
  }

  /** Every bound is at least the score of each document in its block. */
  ghost predicate SafeLayout(layout: TermLayout, scores: seq<real>) {
    && Sized(layout)
    && forall i :: 0 <= i < |layout.documents| ==>
         layout.documents[i] < |scores| && scores[layout.documents[i]] <= layout.bounds[BlockOf(i, layout.blockSize)]
  }

  predicate Keeps(bound: real, threshold: real) {
    var magnitude := if threshold < 0.0 then -threshold else threshold;
    bound + 0.000001 * (if magnitude < 1.0 then 1.0 else magnitude) >= threshold
  }

  /** Document `d` lies in a kept block among the first `n` positions of the term. */
  ghost predicate KeptBefore(layout: TermLayout, threshold: real, n: nat, d: nat)
    requires Sized(layout) && n <= |layout.documents|
  {
    exists i :: 0 <= i < n && layout.documents[i] == d && Keeps(layout.bounds[BlockOf(i, layout.blockSize)], threshold)
  }

  /** The documents of the kept blocks of one term. */
  method KeptDocuments(layout: TermLayout, threshold: real) returns (kept: set<nat>)
    requires Sized(layout)
    ensures forall d :: d in kept <==> KeptBy(layout, threshold, d)
  {
    kept := {};
    for i := 0 to |layout.documents|
      invariant forall d :: d in kept <==> KeptBefore(layout, threshold, i, d)
    {
      var keep := Keeps(layout.bounds[BlockOf(i, layout.blockSize)], threshold);
      forall d ensures KeptBefore(layout, threshold, i + 1, d) <==>
        KeptBefore(layout, threshold, i, d) || (keep && d == layout.documents[i])
      {
      }
      if keep {
        kept := kept + {layout.documents[i]};
      }
    }
  }

  /** Some term keeps a block that holds `d`. */
  ghost predicate KeptSomewhere(layouts: seq<TermLayout>, threshold: real, d: nat) {
    exists t :: 0 <= t < |layouts| && KeptBy(layouts[t], threshold, d)
  }

  ghost predicate KeptBy(layout: TermLayout, threshold: real, d: nat) {
    Sized(layout) && KeptBefore(layout, threshold, |layout.documents|, d)
  }

  /** A safe bound keeps every document that reaches the threshold. */
  lemma ReachingIsKept(layout: TermLayout, scores: seq<real>, threshold: real, d: nat)
    requires SafeLayout(layout, scores) && d in layout.documents && scores[d] >= threshold
    ensures KeptBy(layout, threshold, d)
  {
    var i :| 0 <= i < |layout.documents| && layout.documents[i] == d;
    assert Keeps(layout.bounds[BlockOf(i, layout.blockSize)], threshold);
  }

  method CandidateDocuments(threshold: real, layouts: seq<TermLayout>) returns (candidates: set<nat>)
    requires forall t :: 0 <= t < |layouts| ==> Sized(layouts[t])
    ensures forall d :: d in candidates <==> KeptSomewhere(layouts, threshold, d)
  {
    candidates := {};
    for t := 0 to |layouts|
      invariant forall d :: d in candidates <==>
        exists s :: 0 <= s < t && KeptBy(layouts[s], threshold, d)
    {
      var kept := KeptDocuments(layouts[t], threshold);
      candidates := candidates + kept;
    }
  }

  /** Document `d` has an active term. */
  predicate IsActive(layouts: seq<TermLayout>, d: nat) {
    exists t :: 0 <= t < |layouts| && d in layouts[t].documents
  }

  /** How many of the first `n` top documents are active, and how many of those are candidates. */
  function ActiveCount(top: seq<nat>, layouts: seq<TermLayout>, n: nat): nat
    requires n <= |top|
  {
    if n == 0 then 0 else ActiveCount(top, layouts, n - 1) + if IsActive(layouts, top[n - 1]) then 1 else 0
  }

  function CoveredCount(top: seq<nat>, layouts: seq<TermLayout>, candidates: set<nat>, n: nat): nat
    requires n <= |top|
  {
    if n == 0 then 0
    else
      var last := if IsActive(layouts, top[n - 1]) && top[n - 1] in candidates then 1 else 0;
      CoveredCount(top, layouts, candidates, n - 1) + last
  }

  /** The share of the active top documents that are candidates; one when none is active. */
  function Coverage(top: seq<nat>, candidates: set<nat>, layouts: seq<TermLayout>): real {
    var active := ActiveCount(top, layouts, |top|);
    if active == 0 then 1.0 else CoveredCount(top, layouts, candidates, |top|) as real / active as real
  }

  method CoverageOf(top: seq<nat>, candidates: set<nat>, layouts: seq<TermLayout>) returns (coverage: real)
    ensures coverage == Coverage(top, candidates, layouts)
  {
    var active, covered := 0, 0;
    for i := 0 to |top|
      invariant active == ActiveCount(top, layouts, i)
      invariant covered == CoveredCount(top, layouts, candidates, i)
    {
      if IsActive(layouts, top[i]) {
        active := active + 1;
        if top[i] in candidates { covered := covered + 1; }
      }
    }
    coverage := if active != 0 then covered as real / active as real else 1.0;
  }

  lemma {:induction false} CountsCompare(top: seq<nat>, candidates: set<nat>, layouts: seq<TermLayout>, n: nat)
    requires n <= |top|
    ensures CoveredCount(top, layouts, candidates, n) <= ActiveCount(top, layouts, n)
    ensures CoveredCount(top, layouts, candidates, n) == ActiveCount(top, layouts, n)
        <==> forall i :: 0 <= i < n && IsActive(layouts, top[i]) ==> top[i] in candidates
  {
    if n > 0 { CountsCompare(top, candidates, layouts, n - 1); }
  }

  /** The coverage is one exactly when no active top document is missed. */
  lemma CoveredWhenKept(top: seq<nat>, candidates: set<nat>, layouts: seq<TermLayout>)
    ensures Coverage(top, candidates, layouts) == 1.0
        <==> forall i :: 0 <= i < |top| && IsActive(layouts, top[i]) ==> top[i] in candidates
  {
    CountsCompare(top, candidates, layouts, |top|);
    var active := ActiveCount(top, layouts, |top|);
    if active > 0 { ShareIsOne(CoveredCount(top, layouts, candidates, |top|), active); }
  }

  /** The score of the last top document, which the bounds are held against. */
  function LastScore(scores: seq<real>, top: seq<nat>): real
    requires Ranked(scores, top) && top != []
  {
    scores[top[|top| - 1]]
  }

  lemma LastIsLowest(scores: seq<real>, r: seq<nat>, d: nat)
    requires Ranked(scores, r) && d in r
    ensures d < |scores| && scores[d] >= LastScore(scores, r)
  {
    var i :| 0 <= i < |r| && r[i] == d;
    assert i < |r| - 1 ==> Outranks(scores, r[i], r[|r| - 1]);
  }

  /** The candidates are what the layouts keep against the last top document, and the coverage is theirs. */
  ghost predicate Evaluates(
      scores: seq<real>, top: seq<nat>, layouts: seq<TermLayout>, candidates: set<nat>, coverage: real)
  {
    && Ranked(scores, top) && top != []
    && (forall d :: d in candidates <==> KeptSomewhere(layouts, LastScore(scores, top), d))
    && coverage == Coverage(top, candidates, layouts)
  }

  /**
   `active_topk_coverage` of one query: the share of the top documents with an active term that lie in a kept
   block. With safe bounds it is one, whichever of tied documents `part` put among the top.
   */
  method ActiveTopKCoverage(scores: seq<real>, k: nat, part: seq<nat>, layouts: seq<TermLayout>)
    returns (coverage: real, candidates: set<nat>)
    requires scores != [] && k > 0 && IsPartition(scores, Min(k, |scores|), part)
    requires forall t :: 0 <= t < |layouts| ==> SafeLayout(layouts[t], scores)
    ensures Evaluates(scores, TopkOffsets(scores, k, part), layouts, candidates, coverage)
    ensures forall d, t :: d in TopkOffsets(scores, k, part) && 0 <= t < |layouts| && d in layouts[t].documents ==>
      d in candidates
    ensures coverage == 1.0
  {
    var top := TopkOffsets(scores, k, part);
    var threshold := LastScore(scores, top);
    candidates := CandidateDocuments(threshold, layouts);
    forall d, t | d in top && 0 <= t < |layouts| && d in layouts[t].documents ensures d in candidates {
      LastIsLowest(scores, top, d);
      ReachingIsKept(layouts[t], scores, threshold, d);
    }
    coverage := CoverageOf(top, candidates, layouts);
    ActiveAreCovered(top, candidates, layouts);
  }

  lemma ActiveAreCovered(top: seq<nat>, candidates: set<nat>, layouts: seq<TermLayout>)
    requires forall d, t :: d in top && 0 <= t < |layouts| && d in layouts[t].documents ==> d in candidates
    ensures Coverage(top, candidates, layouts) == 1.0
  {
    CoveredWhenKept(top, candidates, layouts);
    forall i | 0 <= i < |top| && IsActive(layouts, top[i]) ensures top[i] in candidates {
      assert top[i] in top;
    }
  }
}
