/**
 Expanding an encoded query over the fields of a document. Every atom is repeated once a field at an address
 that tells atom and field apart; one client then merges equal addresses, the other leaves them side by side.
 */
module QueryExpansion {
  import opened Results
  import opened Arithmetic
  import opened Tables

  datatype Weighted = Weighted(id: nat, weight: real)

  // ----- addresses -----

  datatype Layout = Layout(lexical: nat, semantic: nat, fields: nat) {
    function Atoms(): nat { lexical + semantic }

    function Size(): nat { fields * Atoms() }

    function Address(atom: nat, field: nat): nat
      requires atom < Atoms()
    {
      if atom < lexical then field * lexical + atom
      else lexical * fields + field * semantic + (atom - lexical)
    }

    /** The atom an address stands for. */
    function AtomAt(id: nat): nat
      requires id < Size()
    {
      if id < lexical * fields then
        SomeLexical(lexical, fields, id);
        id % lexical
      else
        SomeSemantic(lexical, semantic, fields, id);
        lexical + (id - lexical * fields) % semantic
    }

    /** The field an address stands for. */
    function FieldAt(id: nat): nat
      requires id < Size()
    {
      if id < lexical * fields then
        SomeLexical(lexical, fields, id);
        id / lexical
      else
        SomeSemantic(lexical, semantic, fields, id);
        (id - lexical * fields) / semantic
    }
  }

  lemma SomeLexical(lexical: nat, fields: nat, id: nat)
    requires id < lexical * fields
    ensures lexical > 0
  {
  }

  lemma Split(fields: nat, lexical: nat, semantic: nat)
    ensures fields * (lexical + semantic) == lexical * fields + semantic * fields
  {
  }

  lemma SomeSemantic(lexical: nat, semantic: nat, fields: nat, id: nat)
    requires lexical * fields <= id < fields * (lexical + semantic)
    ensures semantic > 0 && id - lexical * fields < semantic * fields
  {
    Split(fields, lexical, semantic);
    SomeLexical(semantic, fields, id - lexical * fields);
  }

  /** A row-major index determines its row and column. */
  lemma RowMajor(width: nat, rows: nat, row: nat, column: nat)
    requires column < width && row < rows
    ensures row * width + column < width * rows
    ensures (row * width + column) / width == row && (row * width + column) % width == column
  {
    ProductMonotone(row + 1, rows, width);
    QuotientUnique(row * width + column, width, row, column);
  }

  lemma RowOf(width: nat, rows: nat, x: nat)
    requires width > 0 && x < width * rows
    ensures x / width < rows && x % width < width && (x / width) * width + x % width == x
  {
    var q := x / width;
    assert x == q * width + x % width;
    ProductMonotone(rows, q, width);
  }

  /** Theorem: an atom and a field give an address in range, and the address gives them back. */
  lemma AddressDecodes(l: Layout, atom: nat, field: nat)
    requires atom < l.Atoms() && field < l.fields
    ensures l.Address(atom, field) < l.Size()
    ensures l.AtomAt(l.Address(atom, field)) == atom && l.FieldAt(l.Address(atom, field)) == field
  {
    Split(l.fields, l.lexical, l.semantic);
    if atom < l.lexical {
      RowMajor(l.lexical, l.fields, field, atom);
    } else {
      RowMajor(l.semantic, l.fields, field, atom - l.lexical);
    }
  }

  /** Theorem: every address in range is the address of an atom in a field, so the map is onto. */
  lemma AddressIsOnto(l: Layout, id: nat)
    requires id < l.Size()
    ensures l.AtomAt(id) < l.Atoms() && l.FieldAt(id) < l.fields
    ensures l.Address(l.AtomAt(id), l.FieldAt(id)) == id
  {
    if id < l.lexical * l.fields {
      SomeLexical(l.lexical, l.fields, id);
      RowOf(l.lexical, l.fields, id);
    } else {
      SomeSemantic(l.lexical, l.semantic, l.fields, id);
      RowOf(l.semantic, l.fields, id - l.lexical * l.fields);
    }
  }

  lemma AddressesDiffer(l: Layout, a: nat, f: nat, b: nat, g: nat)
    requires a < l.Atoms() && b < l.Atoms() && f < l.fields && g < l.fields
    ensures l.Address(a, f) == l.Address(b, g) <==> a == b && f == g
  {
    AddressDecodes(l, a, f);
    AddressDecodes(l, b, g);
  }

  // ----- weights by address -----

  /** The weight `xs` puts on the addresses `lo .. hi - 1`. */
  function WeightIn(xs: seq<Weighted>, lo: nat, hi: nat): real {
    if xs == [] then 0.0
    else WeightIn(xs[..|xs| - 1], lo, hi) + Within(xs[|xs| - 1], lo, hi)
  }

  function Within(x: Weighted, lo: nat, hi: nat): real {
    if lo <= x.id < hi then x.weight else 0.0
  }

  lemma WeightSnoc(xs: seq<Weighted>, x: Weighted, lo: nat, hi: nat)
    ensures WeightIn(xs + [x], lo, hi) == WeightIn(xs, lo, hi) + Within(x, lo, hi)
  {
    assert (xs + [x])[..|xs|] == xs;
  }

  lemma {:induction false} WeightConcat(xs: seq<Weighted>, ys: seq<Weighted>, lo: nat, hi: nat)
    ensures WeightIn(xs + ys, lo, hi) == WeightIn(xs, lo, hi) + WeightIn(ys, lo, hi)
  {
    if ys == [] {
      assert xs + ys == xs;
    } else {
      var n := |ys| - 1;
      WeightConcat(xs, ys[..n], lo, hi);
      assert xs + ys == (xs + ys[..n]) + [ys[n]];
      WeightSnoc(xs + ys[..n], ys[n], lo, hi);
    }
  }

  function ById(): Weighted -> real {
    (x: Weighted) => x.id as real
  }

  lemma {:induction false} WeightInserted(xs: seq<Weighted>, x: Weighted, lo: nat, hi: nat)
    ensures WeightIn(InsertBy(xs, x, ById()), lo, hi) == WeightIn(xs, lo, hi) + Within(x, lo, hi)
  {
    WeightSnoc([], x, lo, hi);
    if xs == [] || x.id < xs[0].id {
      WeightConcat([x], xs, lo, hi);
    } else {
      WeightInserted(xs[1..], x, lo, hi);
      WeightConcat([xs[0]], InsertBy(xs[1..], x, ById()), lo, hi);
      WeightConcat([xs[0]], xs[1..], lo, hi);
      assert xs == [xs[0]] + xs[1..];
    }
  }

  /** Sorting moves no weight. */
  lemma {:induction false} WeightSorted(xs: seq<Weighted>, lo: nat, hi: nat)
    ensures WeightIn(SortBy(xs, ById()), lo, hi) == WeightIn(xs, lo, hi)
  {
    if xs != [] {
      var n := |xs| - 1;
      WeightSorted(xs[..n], lo, hi);
      WeightInserted(SortBy(xs[..n], ById()), xs[n], lo, hi);
    }
  }

  // ----- expansion -----

  /** One atom in the first `n` fields. */
  function Spread(l: Layout, atom: nat, weight: real, n: nat): seq<Weighted>
    requires atom < l.Atoms()
  {
    if n == 0 then [] else Spread(l, atom, weight, n - 1) + [Weighted(l.Address(atom, n - 1), weight)]
  }

  predicate InContract(l: Layout, atoms: seq<int>) {
    forall i :: 0 <= i < |atoms| ==> 0 <= atoms[i] < l.Atoms()
  }

  /** The first `n` atoms, each in every field. */
  function Expanded(l: Layout, atoms: seq<int>, weights: seq<real>, n: nat): seq<Weighted>
    requires InContract(l, atoms) && n <= |atoms| == |weights|
  {
    if n == 0 then []
    else Expanded(l, atoms, weights, n - 1) + Spread(l, atoms[n - 1], weights[n - 1], l.fields)
  }

  /** The weight the query gives an atom, summed over its occurrences. */
  function AtomWeight(atoms: seq<int>, weights: seq<real>, n: nat, atom: nat): real
    requires n <= |atoms| == |weights|
  {
    if n == 0 then 0.0
    else AtomWeight(atoms, weights, n - 1, atom) + if atoms[n - 1] == atom then weights[n - 1] else 0.0
  }

  function TotalWeight(weights: seq<real>, n: nat): real
    requires n <= |weights|
  {
    if n == 0 then 0.0 else TotalWeight(weights, n - 1) + weights[n - 1]
  }

  lemma {:induction false} SpreadWeight(l: Layout, atom: nat, weight: real, n: nat, a: nat, f: nat)
    requires atom < l.Atoms() && a < l.Atoms() && f < l.fields && n <= l.fields
    ensures WeightIn(Spread(l, atom, weight, n), l.Address(a, f), l.Address(a, f) + 1)
         == if a == atom && f < n then weight else 0.0
  {
    if n > 0 {
      SpreadWeight(l, atom, weight, n - 1, a, f);
      AddressesDiffer(l, atom, n - 1, a, f);
      WeightSnoc(
        Spread(l, atom, weight, n - 1), Weighted(l.Address(atom, n - 1), weight),
        l.Address(a, f), l.Address(a, f) + 1);
    }
  }

  /** `n * weight`. */
  function Times(n: nat, weight: real): real {
    n as real * weight
  }

  lemma TimesNext(n: nat, weight: real)
    ensures Times(n + 1, weight) == Times(n, weight) + weight
  {
  }

  lemma TimesSum(n: nat, x: real, y: real)
    ensures Times(n, x + y) == Times(n, x) + Times(n, y)
  {
  }

  lemma {:induction false} SpreadTotal(l: Layout, atom: nat, weight: real, n: nat)
    requires atom < l.Atoms() && n <= l.fields
    ensures WeightIn(Spread(l, atom, weight, n), 0, l.Size()) == Times(n, weight)
  {
    if n > 0 {
      SpreadTotal(l, atom, weight, n - 1);
      AddressDecodes(l, atom, n - 1);
      TimesNext(n - 1, weight);
      WeightSnoc(Spread(l, atom, weight, n - 1), Weighted(l.Address(atom, n - 1), weight), 0, l.Size());
    }
  }

  /** An address carries the weight of its atom. */
  lemma {:induction false} ExpandedWeight(l: Layout, atoms: seq<int>, weights: seq<real>, n: nat, a: nat, f: nat)
    requires InContract(l, atoms) && n <= |atoms| == |weights| && a < l.Atoms() && f < l.fields
    ensures WeightIn(Expanded(l, atoms, weights, n), l.Address(a, f), l.Address(a, f) + 1)
         == AtomWeight(atoms, weights, n, a)
  {
    if n > 0 {
      ExpandedWeight(l, atoms, weights, n - 1, a, f);
      SpreadWeight(l, atoms[n - 1], weights[n - 1], l.fields, a, f);
      WeightConcat(Expanded(l, atoms, weights, n - 1), Spread(l, atoms[n - 1], weights[n - 1], l.fields),
                   l.Address(a, f), l.Address(a, f) + 1);
    }
  }

  /** The expansion carries the query's weight once a field. */
  lemma {:induction false} ExpandedTotal(l: Layout, atoms: seq<int>, weights: seq<real>, n: nat)
    requires InContract(l, atoms) && n <= |atoms| == |weights|
    ensures WeightIn(Expanded(l, atoms, weights, n), 0, l.Size()) == Times(l.fields, TotalWeight(weights, n))
  {
    if n > 0 {
      ExpandedTotal(l, atoms, weights, n - 1);
      SpreadTotal(l, atoms[n - 1], weights[n - 1], l.fields);
      TimesSum(l.fields, TotalWeight(weights, n - 1), weights[n - 1]);
      WeightConcat(Expanded(l, atoms, weights, n - 1), Spread(l, atoms[n - 1], weights[n - 1], l.fields), 0, l.Size());
    }
  }

  ghost predicate HasId(xs: seq<Weighted>, id: nat) {
    exists i :: 0 <= i < |xs| && xs[i].id == id
  }

  lemma HasIdConcat(xs: seq<Weighted>, ys: seq<Weighted>, id: nat)
    ensures HasId(xs + ys, id) <==> HasId(xs, id) || HasId(ys, id)
  {
    var s := xs + ys;
    if i :| 0 <= i < |xs| && xs[i].id == id { assert s[i].id == id; }
    if i :| 0 <= i < |ys| && ys[i].id == id { assert s[|xs| + i].id == id; }
    if i :| 0 <= i < |s| && s[i].id == id { assert i < |xs| || ys[i - |xs|].id == id; }
  }

  lemma HasIdOne(x: Weighted, id: nat)
    ensures HasId([x], id) <==> x.id == id
  {
    assert [x][0] == x;
  }

  lemma {:induction false} SpreadIds(l: Layout, atom: nat, weight: real, n: nat, id: nat)
    requires atom < l.Atoms() && n <= l.fields
    ensures HasId(Spread(l, atom, weight, n), id)
        <==> id < l.Size() && l.AtomAt(id) == atom && l.FieldAt(id) < n
  {
    if id < l.Size() { AddressIsOnto(l, id); }
    if n > 0 {
      SpreadIds(l, atom, weight, n - 1, id);
      AddressDecodes(l, atom, n - 1);
      HasIdOne(Weighted(l.Address(atom, n - 1), weight), id);
      HasIdConcat(Spread(l, atom, weight, n - 1), [Weighted(l.Address(atom, n - 1), weight)], id);
    }
  }

  /** The addresses used are those of the query's atoms, in every field. */
  lemma {:induction false} ExpandedIds(l: Layout, atoms: seq<int>, weights: seq<real>, n: nat, id: nat)
    requires InContract(l, atoms) && n <= |atoms| == |weights|
    ensures HasId(Expanded(l, atoms, weights, n), id) <==> id < l.Size() && l.AtomAt(id) in atoms[..n]
  {
    if id < l.Size() { AddressIsOnto(l, id); }
    if n > 0 {
      ExpandedIds(l, atoms, weights, n - 1, id);
      SpreadIds(l, atoms[n - 1], weights[n - 1], l.fields, id);
      HasIdConcat(Expanded(l, atoms, weights, n - 1), Spread(l, atoms[n - 1], weights[n - 1], l.fields), id);
      assert atoms[..n] == atoms[..n - 1] + [atoms[n - 1]];
    }
  }

  // ----- sorting and merging -----

  ghost predicate DistinctIds(xs: seq<Weighted>) {
    forall i, j :: 0 <= i < j < |xs| ==> xs[i].id != xs[j].id
  }

  ghost predicate AscendingIds(xs: seq<Weighted>) {
    forall i, j :: 0 <= i < j < |xs| ==> xs[i].id < xs[j].id
  }

  ghost predicate NonDecreasing(xs: seq<Weighted>) {
    forall i, j :: 0 <= i < j < |xs| ==> xs[i].id <= xs[j].id
  }

  lemma SortedById(xs: seq<Weighted>)
    ensures NonDecreasing(SortBy(xs, ById()))
    ensures forall id: nat :: HasId(SortBy(xs, ById()), id) <==> HasId(xs, id)
  {
    SortByFacts(xs, ById());
    SortByMembers(xs, ById());
    var s := SortBy(xs, ById());
    forall i, j | 0 <= i < j < |s| ensures s[i].id <= s[j].id {
      assert ById()(s[i]) <= ById()(s[j]);
    }
    forall id: nat ensures HasId(s, id) <==> HasId(xs, id) {
      SameMembersSameIds(s, xs, id);
      SameMembersSameIds(xs, s, id);
    }
  }

  lemma SameMembersSameIds(xs: seq<Weighted>, ys: seq<Weighted>, id: nat)
    requires forall x :: x in xs ==> x in ys
    ensures HasId(xs, id) ==> HasId(ys, id)
  {
    if i :| 0 <= i < |xs| && xs[i].id == id {
      assert xs[i] in ys;
    }
  }

  /** `merged` sums the runs of equal ids of `xs`. */
  ghost predicate Merges(merged: seq<Weighted>, xs: seq<Weighted>) {
    && AscendingIds(merged)
    && (forall lo, hi: nat :: WeightIn(merged, lo, hi) == WeightIn(xs, lo, hi))
    && (forall id: nat :: HasId(merged, id) <==> HasId(xs, id))
    && (AscendingIds(xs) ==> merged == xs)
  }

  /** The lists a merge has built from a prefix, whose last id is the largest so far. */
  ghost predicate MergesSoFar(merged: seq<Weighted>, xs: seq<Weighted>, n: nat) {
    n <= |xs| && Merges(merged, xs[..n]) && (merged == [] <==> n == 0)
    && (n > 0 ==> merged[|merged| - 1].id == xs[n - 1].id)
  }

  lemma MergeSame(merged: seq<Weighted>, xs: seq<Weighted>, n: nat)
    requires MergesSoFar(merged, xs, n) && n < |xs| && merged != [] && merged[|merged| - 1].id == xs[n].id
    ensures MergesSoFar(
      merged[..|merged| - 1] + [Weighted(xs[n].id, merged[|merged| - 1].weight + xs[n].weight)], xs, n + 1)
  {
    var m := |merged| - 1;
    var x := Weighted(xs[n].id, merged[m].weight + xs[n].weight);
    var more := merged[..m] + [x];
    assert xs[..n + 1] == xs[..n] + [xs[n]];
    LastSplit(merged);
    forall lo, hi: nat ensures WeightIn(more, lo, hi) == WeightIn(xs[..n + 1], lo, hi) {
      WeightSnoc(merged[..m], x, lo, hi);
      WeightSnoc(merged[..m], merged[m], lo, hi);
      WeightSnoc(xs[..n], xs[n], lo, hi);
    }
    forall id: nat ensures HasId(more, id) <==> HasId(xs[..n + 1], id) {
      HasIdConcat(merged[..m], [x], id);
      HasIdConcat(merged[..m], [merged[m]], id);
      HasIdConcat(xs[..n], [xs[n]], id);
      HasIdOne(x, id);
      HasIdOne(merged[m], id);
      HasIdOne(xs[n], id);
    }
    assert xs[..n + 1][n - 1].id == xs[..n + 1][n].id;
  }

  lemma MergeNew(merged: seq<Weighted>, xs: seq<Weighted>, n: nat)
    requires MergesSoFar(merged, xs, n) && n < |xs| && NonDecreasing(xs)
    requires merged == [] || merged[|merged| - 1].id != xs[n].id
    ensures MergesSoFar(merged + [xs[n]], xs, n + 1)
  {
    var more := merged + [xs[n]];
    assert xs[..n + 1] == xs[..n] + [xs[n]];
    assert n > 0 ==> xs[n - 1].id <= xs[n].id;
    forall lo, hi: nat ensures WeightIn(more, lo, hi) == WeightIn(xs[..n + 1], lo, hi) {
      WeightSnoc(merged, xs[n], lo, hi);
      WeightSnoc(xs[..n], xs[n], lo, hi);
    }
    forall id: nat ensures HasId(more, id) <==> HasId(xs[..n + 1], id) {
      HasIdConcat(merged, [xs[n]], id);
      HasIdConcat(xs[..n], [xs[n]], id);
    }
    if AscendingIds(xs[..n + 1]) {
      forall i, j | 0 <= i < j < n ensures xs[..n][i].id < xs[..n][j].id {
        assert xs[..n + 1][i].id < xs[..n + 1][j].id;
      }
    }
  }

  method MergeRuns(xs: seq<Weighted>) returns (merged: seq<Weighted>)
    requires NonDecreasing(xs)
    ensures Merges(merged, xs)
  {
    merged := [];
    assert xs[..0] == [];
    for n := 0 to |xs|
      invariant MergesSoFar(merged, xs, n)
    {
      if merged != [] && merged[|merged| - 1].id == xs[n].id {
        MergeSame(merged, xs, n);
        merged := merged[..|merged| - 1] + [Weighted(xs[n].id, merged[|merged| - 1].weight + xs[n].weight)];
      } else {
        MergeNew(merged, xs, n);
        merged := merged + [xs[n]];
      }
    }
    assert xs[..|xs|] == xs;
  }

  /** The entry of an ascending list carries all the weight of its id. */
  lemma {:induction false} EntryWeight(xs: seq<Weighted>, n: nat, i: nat)
    requires AscendingIds(xs) && n <= |xs| && i < |xs|
    ensures WeightIn(xs[..n], xs[i].id, xs[i].id + 1) == if i < n then xs[i].weight else 0.0
  {
    if n > 0 {
      EntryWeight(xs, n - 1, i);
      assert xs[..n] == xs[..n - 1] + [xs[n - 1]];
      WeightSnoc(xs[..n - 1], xs[n - 1], xs[i].id, xs[i].id + 1);
    }
  }

  // ----- the entries of one address -----

  function OnlyAt(x: Weighted, id: nat): seq<Weighted> {
    if x.id == id then [x] else []
  }

  /** The entries at one address, in their order. */
  function WithId(xs: seq<Weighted>, id: nat): seq<Weighted> {
    if xs == [] then [] else WithId(xs[..|xs| - 1], id) + OnlyAt(xs[|xs| - 1], id)
  }

  lemma WithIdSnoc(xs: seq<Weighted>, x: Weighted, id: nat)
    ensures WithId(xs + [x], id) == WithId(xs, id) + OnlyAt(x, id)
  {
    assert (xs + [x])[..|xs|] == xs;
  }

  lemma Associative(a: seq<Weighted>, b: seq<Weighted>, c: seq<Weighted>)
    ensures (a + b) + c == a + (b + c)
  {
  }

  lemma {:induction false} WithIdConcat(xs: seq<Weighted>, ys: seq<Weighted>, id: nat)
    ensures WithId(xs + ys, id) == WithId(xs, id) + WithId(ys, id)
  {
    if ys == [] {
      assert xs + ys == xs;
    } else {
      var n := |ys| - 1;
      WithIdConcat(xs, ys[..n], id);
      assert xs + ys == (xs + ys[..n]) + [ys[n]];
      WithIdSnoc(xs + ys[..n], ys[n], id);
      Associative(WithId(xs, id), WithId(ys[..n], id), OnlyAt(ys[n], id));
    }
  }

  lemma {:induction false} WithIdAbsent(xs: seq<Weighted>, id: nat)
    ensures WithId(xs, id) == [] <==> !HasId(xs, id)
  {
    if xs != [] {
      var n := |xs| - 1;
      WithIdAbsent(xs[..n], id);
      LastSplit(xs);
      HasIdConcat(xs[..n], [xs[n]], id);
      HasIdOne(xs[n], id);
    }
  }

  lemma PushFront(xs: seq<Weighted>, x: Weighted, id: nat)
    requires !HasId(xs, x.id)
    ensures WithId([x] + xs, id) == WithId(xs, id) + OnlyAt(x, id)
  {
    WithIdSnoc([], x, id);
    WithIdConcat([x], xs, id);
    WithIdAbsent(xs, x.id);
  }

  lemma PushBehind(xs: seq<Weighted>, more: seq<Weighted>, x: Weighted, id: nat)
    requires xs != [] && WithId(more, id) == WithId(xs[1..], id) + OnlyAt(x, id)
    ensures WithId([xs[0]] + more, id) == WithId(xs, id) + OnlyAt(x, id)
  {
    WithIdConcat([xs[0]], more, id);
    WithIdConcat([xs[0]], xs[1..], id);
    assert xs == [xs[0]] + xs[1..];
    Associative(WithId([xs[0]], id), WithId(xs[1..], id), OnlyAt(x, id));
  }

  lemma {:induction false} InsertIsStable(xs: seq<Weighted>, x: Weighted, id: nat)
    requires NonDecreasing(xs)
    ensures WithId(InsertBy(xs, x, ById()), id) == WithId(xs, id) + OnlyAt(x, id)
  {
    if xs == [] || x.id < xs[0].id {
      PushFront(xs, x, id);
    } else {
      InsertIsStable(xs[1..], x, id);
      PushBehind(xs, InsertBy(xs[1..], x, ById()), x, id);
    }
  }

  /** Sorting keeps the entries of every address in their order. */
  lemma {:induction false} SortIsStable(xs: seq<Weighted>, id: nat)
    ensures WithId(SortBy(xs, ById()), id) == WithId(xs, id)
  {
    if xs != [] {
      var n := |xs| - 1;
      SortIsStable(xs[..n], id);
      SortedById(xs[..n]);
      InsertIsStable(SortBy(xs[..n], ById()), xs[n], id);
    }
  }

  /** What one weighted atom of the query puts at an address of `atom`. */
  function Occurrence(found: int, weight: real, atom: nat, id: nat): seq<Weighted> {
    if found == atom then [Weighted(id, weight)] else []
  }

  /** The occurrences of an atom among the first `n` of the query, in query order, put at one address. */
  function Occurrences(atoms: seq<int>, weights: seq<real>, n: nat, atom: nat, id: nat): seq<Weighted>
    requires n <= |atoms| == |weights|
  {
    if n == 0 then []
    else Occurrences(atoms, weights, n - 1, atom, id) + Occurrence(atoms[n - 1], weights[n - 1], atom, id)
  }

  lemma {:induction false} SpreadAt(l: Layout, atom: nat, weight: real, n: nat, a: nat, f: nat)
    requires atom < l.Atoms() && a < l.Atoms() && f < l.fields && n <= l.fields
    ensures WithId(Spread(l, atom, weight, n), l.Address(a, f))
         == if f < n then Occurrence(atom, weight, a, l.Address(a, f)) else []
  {
    if n > 0 {
      SpreadAt(l, atom, weight, n - 1, a, f);
      AddressesDiffer(l, atom, n - 1, a, f);
      WithIdSnoc(Spread(l, atom, weight, n - 1), Weighted(l.Address(atom, n - 1), weight), l.Address(a, f));
    }
  }

  lemma {:induction false} ExpandedAt(l: Layout, atoms: seq<int>, weights: seq<real>, n: nat, a: nat, f: nat)
    requires InContract(l, atoms) && n <= |atoms| == |weights| && a < l.Atoms() && f < l.fields
    ensures WithId(Expanded(l, atoms, weights, n), l.Address(a, f))
         == Occurrences(atoms, weights, n, a, l.Address(a, f))
  {
    if n > 0 {
      ExpandedAt(l, atoms, weights, n - 1, a, f);
      var front, last := Expanded(l, atoms, weights, n - 1), Spread(l, atoms[n - 1], weights[n - 1], l.fields);
      SpreadAt(l, atoms[n - 1], weights[n - 1], l.fields, a, f);
      WithIdConcat(front, last, l.Address(a, f));
    }
  }

  /**
   What the unmerged expansion is, in terms of the query alone: addresses in range and ascending, and at every
   address the occurrences of its atom in query order.
   */
  ghost predicate IsUnmerged(l: Layout, atoms: seq<int>, weights: seq<real>, r: seq<Weighted>) {
    && |atoms| == |weights| && NonDecreasing(r)
    && (forall i :: 0 <= i < |r| ==> r[i].id < l.Size())
    && (forall id: nat :: id < l.Size() ==> WithId(r, id) == Occurrences(atoms, weights, |atoms|, l.AtomAt(id), id))
  }

  lemma SortedIsUnmerged(l: Layout, atoms: seq<int>, weights: seq<real>)
    requires |atoms| == |weights| && InContract(l, atoms)
    ensures IsUnmerged(l, atoms, weights, SortBy(Expanded(l, atoms, weights, |atoms|), ById()))
  {
    var expanded := Expanded(l, atoms, weights, |atoms|);
    var r := SortBy(expanded, ById());
    SortedById(expanded);
    forall i | 0 <= i < |r| ensures r[i].id < l.Size() {
      assert HasId(r, r[i].id);
      ExpandedIds(l, atoms, weights, |atoms|, r[i].id);
    }
    forall id: nat | id < l.Size()
      ensures WithId(r, id) == Occurrences(atoms, weights, |atoms|, l.AtomAt(id), id)
    {
      SortIsStable(expanded, id);
      AddressIsOnto(l, id);
      ExpandedAt(l, atoms, weights, |atoms|, l.AtomAt(id), l.FieldAt(id));
    }
  }

  /** The largest address of one list occurs in the other, so it is no larger than the other's. */
  lemma LastIsBelow(xs: seq<Weighted>, ys: seq<Weighted>)
    requires NonDecreasing(ys) && xs != [] && forall id: nat :: WithId(xs, id) == WithId(ys, id)
    ensures ys != [] && xs[|xs| - 1].id <= ys[|ys| - 1].id
  {
    var id := xs[|xs| - 1].id;
    assert WithId(xs, id) == WithId(ys, id);
    assert HasId(xs, id);
    WithIdAbsent(xs, id);
    WithIdAbsent(ys, id);
  }

  /** An ascending list is determined by what stands at every address. */
  lemma {:induction false} AscendingDetermined(xs: seq<Weighted>, ys: seq<Weighted>)
    requires NonDecreasing(xs) && NonDecreasing(ys) && forall id: nat :: WithId(xs, id) == WithId(ys, id)
    ensures xs == ys
    decreases |xs|
  {
    if ys != [] { LastIsBelow(ys, xs); }
    if xs != [] {
      LastIsBelow(xs, ys);
      var m, n := |xs| - 1, |ys| - 1;
      var x, y := xs[m], ys[n];
      assert WithId(xs, x.id) == WithId(ys, x.id);
      LastOf(WithId(xs[..m], x.id), x);
      LastOf(WithId(ys[..n], x.id), y);
      forall id: nat ensures WithId(xs[..m], id) == WithId(ys[..n], id) {
        assert WithId(xs, id) == WithId(ys, id);
        DropLast(WithId(xs[..m], id), WithId(ys[..n], id), OnlyAt(x, id));
      }
      AscendingDetermined(xs[..m], ys[..n]);
      LastSplit(xs);
      LastSplit(ys);
    }
  }

  lemma LastOf(front: seq<Weighted>, x: Weighted)
    ensures front + [x] != [] && (front + [x])[|front + [x]| - 1] == x
  {
  }

  lemma DropLast(a: seq<Weighted>, b: seq<Weighted>, tail: seq<Weighted>)
    requires a + tail == b + tail
    ensures a == b
  {
    assert a == (a + tail)[..|a|];
    assert b == (b + tail)[..|b|];
  }

  /** Theorem: the query leaves no choice in its unmerged expansion. */
  lemma UnmergedUnique(l: Layout, atoms: seq<int>, weights: seq<real>, r: seq<Weighted>, s: seq<Weighted>)
    requires IsUnmerged(l, atoms, weights, r) && IsUnmerged(l, atoms, weights, s)
    ensures r == s
  {
    forall id: nat ensures WithId(r, id) == WithId(s, id) {
      if id >= l.Size() {
        WithIdAbsent(r, id);
        WithIdAbsent(s, id);
      }
    }
    AscendingDetermined(r, s);
  }

  // ----- the two clients -----

  method ExpandAtoms(l: Layout, atoms: seq<int>, weights: seq<real>) returns (r: Result<seq<Weighted>>)
    ensures r.Ok? <==> |atoms| == |weights| && InContract(l, atoms)
    ensures r.Ok? ==> r.value == Expanded(l, atoms, weights, |atoms|)
  {
    if |atoms| != |weights| {
      return Error("encoder atom and weight arrays differ in length");
    }
    var expanded := [];
    for n := 0 to |atoms|
      invariant InContract(l, atoms[..n])
      invariant expanded == Expanded(l, atoms[..n], weights[..n], n)
    {
      var atom := atoms[n];
      if atom < 0 || atom >= l.Atoms() {
        return Error("encoder atom is outside the contract");
      }
      ghost var before := expanded;
      for field := 0 to l.fields
        invariant expanded == before + Spread(l, atom, weights[n], field)
      {
        expanded := expanded + [Weighted(l.Address(atom, field), weights[n])];
      }
      assert atoms[..n + 1] == atoms[..n] + [atom];
      ExpandedPrefix(l, atoms[..n], weights[..n], atoms[..n + 1], weights[..n + 1], n);
    }
    assert atoms[..|atoms|] == atoms && weights[..|atoms|] == weights;
    r := Ok(expanded);
  }

  lemma {:induction false} ExpandedPrefix(
      l: Layout, atoms: seq<int>, weights: seq<real>, more: seq<int>, moreWeights: seq<real>, n: nat)
    requires InContract(l, more) && atoms <= more && weights <= moreWeights
    requires n <= |atoms| == |weights| && |more| == |moreWeights|
    ensures InContract(l, atoms)
    ensures Expanded(l, atoms, weights, n) == Expanded(l, more, moreWeights, n)
  {
    assert forall i :: 0 <= i < |atoms| ==> atoms[i] == more[i];
    if n > 0 {
      ExpandedPrefix(l, atoms, weights, more, moreWeights, n - 1);
    }
  }

  /** The unmerged variant: sorted by address, equal addresses next to each other in input order. */
  method ExpandQueryUnmerged(l: Layout, atoms: seq<int>, weights: seq<real>) returns (r: Result<seq<Weighted>>)
    ensures r.Ok? <==> |atoms| == |weights| && InContract(l, atoms)
    ensures r.Ok? ==> IsUnmerged(l, atoms, weights, r.value)
    ensures r.Ok? ==> multiset(r.value) == multiset(Expanded(l, atoms, weights, |atoms|))
  {
    var expanded := ExpandAtoms(l, atoms, weights);
    if expanded.Error? {
      return Error(expanded.reason);
    }
    SortedIsUnmerged(l, atoms, weights);
    SortByFacts(expanded.value, ById());
    r := Ok(SortBy(expanded.value, ById()));
  }

  /** What the merged expansion is, in terms of the query alone. */
  ghost predicate IsExpansion(l: Layout, atoms: seq<int>, weights: seq<real>, r: seq<Weighted>) {
    && |atoms| == |weights| && AscendingIds(r)
    && (forall id: nat :: HasId(r, id) <==> id < l.Size() && l.AtomAt(id) in atoms)
    && (forall i :: 0 <= i < |r| ==>
         r[i].id < l.Size() && r[i].weight == AtomWeight(atoms, weights, |atoms|, l.AtomAt(r[i].id)))
    && WeightIn(r, 0, l.Size()) == Times(l.fields, TotalWeight(weights, |atoms|))
  }

  /**
   The merged variant: strictly ascending addresses, each carrying the summed weight of its atom, all of them
   together the query's weight once a field.
   */
  method ExpandQuery(l: Layout, atoms: seq<int>, weights: seq<real>) returns (r: Result<seq<Weighted>>)
    ensures r.Ok? <==> |atoms| == |weights| && InContract(l, atoms)
    ensures r.Ok? ==> IsExpansion(l, atoms, weights, r.value)
    ensures r.Ok? ==> Merges(r.value, SortBy(Expanded(l, atoms, weights, |atoms|), ById()))
  {
    var expanded := ExpandAtoms(l, atoms, weights);
    if expanded.Error? {
      return Error(expanded.reason);
    }
    var sorted := SortBy(expanded.value, ById());
    SortedById(expanded.value);
    var merged := MergeRuns(sorted);
    MergedIsExpansion(l, atoms, weights, merged);
    r := Ok(merged);
  }

  lemma SortedWeightOf(l: Layout, atoms: seq<int>, weights: seq<real>, a: nat, f: nat, id: nat)
    requires |atoms| == |weights| && InContract(l, atoms) && a < l.Atoms() && f < l.fields && id == l.Address(a, f)
    ensures WeightIn(SortBy(Expanded(l, atoms, weights, |atoms|), ById()), id, id + 1)
         == AtomWeight(atoms, weights, |atoms|, a)
  {
    WeightSorted(Expanded(l, atoms, weights, |atoms|), id, id + 1);
    ExpandedWeight(l, atoms, weights, |atoms|, a, f);
  }

  lemma SortedWeightAt(l: Layout, atoms: seq<int>, weights: seq<real>, id: nat)
    requires |atoms| == |weights| && InContract(l, atoms) && id < l.Size()
    ensures WeightIn(SortBy(Expanded(l, atoms, weights, |atoms|), ById()), id, id + 1)
         == AtomWeight(atoms, weights, |atoms|, l.AtomAt(id))
  {
    AddressIsOnto(l, id);
    SortedWeightOf(l, atoms, weights, l.AtomAt(id), l.FieldAt(id), id);
  }

  lemma MergedIdInRange(l: Layout, atoms: seq<int>, weights: seq<real>, merged: seq<Weighted>, i: nat)
    requires |atoms| == |weights| && InContract(l, atoms) && i < |merged|
    requires Merges(merged, SortBy(Expanded(l, atoms, weights, |atoms|), ById()))
    ensures merged[i].id < l.Size()
  {
    SortedById(Expanded(l, atoms, weights, |atoms|));
    ExpandedIds(l, atoms, weights, |atoms|, merged[i].id);
    assert HasId(merged, merged[i].id);
  }

  lemma EntryHasAll(xs: seq<Weighted>, i: nat)
    requires AscendingIds(xs) && i < |xs|
    ensures WeightIn(xs, xs[i].id, xs[i].id + 1) == xs[i].weight
  {
    assert xs[..|xs|] == xs;
    EntryWeight(xs, |xs|, i);
  }

  lemma MergedEntry(merged: seq<Weighted>, xs: seq<Weighted>, i: nat)
    requires Merges(merged, xs) && i < |merged|
    ensures merged[i].weight == WeightIn(xs, merged[i].id, merged[i].id + 1)
  {
    EntryHasAll(merged, i);
  }

  lemma CarriesAtomWeight(l: Layout, atoms: seq<int>, weights: seq<real>, xs: seq<Weighted>, x: Weighted)
    requires |atoms| == |weights| && InContract(l, atoms) && x.id < l.Size()
    requires xs == SortBy(Expanded(l, atoms, weights, |atoms|), ById()) && x.weight == WeightIn(xs, x.id, x.id + 1)
    ensures x.weight == AtomWeight(atoms, weights, |atoms|, l.AtomAt(x.id))
  {
    SortedWeightAt(l, atoms, weights, x.id);
  }

  lemma MergedTotal(l: Layout, atoms: seq<int>, weights: seq<real>, merged: seq<Weighted>)
    requires |atoms| == |weights| && InContract(l, atoms)
    requires Merges(merged, SortBy(Expanded(l, atoms, weights, |atoms|), ById()))
    ensures WeightIn(merged, 0, l.Size()) == Times(l.fields, TotalWeight(weights, |atoms|))
  {
    WeightSorted(Expanded(l, atoms, weights, |atoms|), 0, l.Size());
    ExpandedTotal(l, atoms, weights, |atoms|);
  }

  lemma MergedIds(l: Layout, atoms: seq<int>, weights: seq<real>, merged: seq<Weighted>)
    requires |atoms| == |weights| && InContract(l, atoms)
    requires Merges(merged, SortBy(Expanded(l, atoms, weights, |atoms|), ById()))
    ensures forall id: nat :: HasId(merged, id) <==> id < l.Size() && l.AtomAt(id) in atoms
  {
    SortedById(Expanded(l, atoms, weights, |atoms|));
    assert atoms[..|atoms|] == atoms;
    forall id: nat ensures HasId(merged, id) <==> id < l.Size() && l.AtomAt(id) in atoms {
      ExpandedIds(l, atoms, weights, |atoms|, id);
    }
  }

  lemma MergedIsExpansion(l: Layout, atoms: seq<int>, weights: seq<real>, merged: seq<Weighted>)
    requires |atoms| == |weights| && InContract(l, atoms)
    requires Merges(merged, SortBy(Expanded(l, atoms, weights, |atoms|), ById()))
    ensures IsExpansion(l, atoms, weights, merged)
  {
    var sorted := SortBy(Expanded(l, atoms, weights, |atoms|), ById());
    MergedIds(l, atoms, weights, merged);
    MergedTotal(l, atoms, weights, merged);
    forall i | 0 <= i < |merged|
      ensures merged[i].id < l.Size() && merged[i].weight == AtomWeight(atoms, weights, |atoms|, l.AtomAt(merged[i].id))
    {
      MergedIdInRange(l, atoms, weights, merged, i);
      MergedEntry(merged, sorted, i);
      CarriesAtomWeight(l, atoms, weights, sorted, merged[i]);
    }
  }

  // ----- when merging changes nothing -----

  ghost predicate DistinctAtoms(atoms: seq<int>, n: nat)
    requires n <= |atoms|
  {
    forall i, j :: 0 <= i < j < n ==> atoms[i] != atoms[j]
  }

  lemma DistinctConcat(xs: seq<Weighted>, ys: seq<Weighted>)
    ensures DistinctIds(xs + ys)
        <==> DistinctIds(xs) && DistinctIds(ys) && forall id: nat :: !(HasId(xs, id) && HasId(ys, id))
  {
    var s := xs + ys;
    if DistinctIds(s) {
      assert forall i :: 0 <= i < |xs| ==> s[i] == xs[i];
      forall i, j | 0 <= i < j < |ys| ensures ys[i].id != ys[j].id {
        assert s[|xs| + i].id != s[|xs| + j].id;
      }
      forall id: nat | HasId(xs, id) ensures !HasId(ys, id) {
        var i :| 0 <= i < |xs| && xs[i].id == id;
        forall j | 0 <= j < |ys| ensures ys[j].id != id {
          assert s[i].id != s[|xs| + j].id;
        }
      }
    }
    if DistinctIds(xs) && DistinctIds(ys) && forall id: nat :: !(HasId(xs, id) && HasId(ys, id)) {
      forall i, j | 0 <= i < j < |s| ensures s[i].id != s[j].id {
        if i < |xs| <= j {
          assert HasId(xs, xs[i].id) && !HasId(ys, xs[i].id);
          assert ys[j - |xs|] == s[j];
        }
      }
    }
  }

  lemma {:induction false} SpreadDistinct(l: Layout, atom: nat, weight: real, n: nat)
    requires atom < l.Atoms() && n <= l.fields
    ensures DistinctIds(Spread(l, atom, weight, n))
  {
    if n > 0 {
      SpreadDistinct(l, atom, weight, n - 1);
      AddressDecodes(l, atom, n - 1);
      var last := Weighted(l.Address(atom, n - 1), weight);
      forall id: nat | HasId([last], id) ensures !HasId(Spread(l, atom, weight, n - 1), id) {
        HasIdOne(last, id);
        SpreadIds(l, atom, weight, n - 1, id);
      }
      DistinctConcat(Spread(l, atom, weight, n - 1), [last]);
    }
  }

  /** Addresses repeat exactly when an atom does. */
  lemma {:induction false} ExpandedDistinct(l: Layout, atoms: seq<int>, weights: seq<real>, n: nat)
    requires InContract(l, atoms) && n <= |atoms| == |weights| && l.fields > 0
    ensures DistinctIds(Expanded(l, atoms, weights, n)) <==> DistinctAtoms(atoms, n)
  {
    if n > 0 {
      var front, last := Expanded(l, atoms, weights, n - 1), Spread(l, atoms[n - 1], weights[n - 1], l.fields);
      ExpandedDistinct(l, atoms, weights, n - 1);
      SpreadDistinct(l, atoms[n - 1], weights[n - 1], l.fields);
      DistinctConcat(front, last);
      forall id: nat ensures HasId(front, id) && HasId(last, id) ==> atoms[n - 1] in atoms[..n - 1] {
        ExpandedIds(l, atoms, weights, n - 1, id);
        SpreadIds(l, atoms[n - 1], weights[n - 1], l.fields, id);
      }
      var id := l.Address(atoms[n - 1], 0);
      AddressDecodes(l, atoms[n - 1], 0);
      ExpandedIds(l, atoms, weights, n - 1, id);
      SpreadIds(l, atoms[n - 1], weights[n - 1], l.fields, id);
      RepeatsLast(atoms, n - 1);
    }
  }

  lemma RepeatsLast(atoms: seq<int>, n: nat)
    requires n < |atoms|
    ensures DistinctAtoms(atoms, n + 1) <==> DistinctAtoms(atoms, n) && atoms[n] !in atoms[..n]
  {
    if atoms[n] in atoms[..n] {
      var i :| 0 <= i < n && atoms[..n][i] == atoms[n];
    }
    assert forall i :: 0 <= i < n ==> atoms[i] in atoms[..n];
  }

  lemma {:induction false} InsertAscending(xs: seq<Weighted>, x: Weighted)
    requires AscendingIds(xs) && !HasId(xs, x.id)
    ensures AscendingIds(InsertBy(xs, x, ById()))
  {
    if xs == [] || x.id < xs[0].id {
    } else {
      assert forall i :: 0 <= i < |xs| ==> xs[i].id != x.id;
      InsertAscending(xs[1..], x);
      var rest := InsertBy(xs[1..], x, ById());
      forall j | 0 <= j < |rest| ensures xs[0].id < rest[j].id {
        assert HasId(rest, rest[j].id);
        InsertedIds(xs[1..], x, rest[j].id);
        FirstIsLeast(xs, rest[j].id);
      }
    }
  }

  lemma FirstIsLeast(xs: seq<Weighted>, id: nat)
    requires AscendingIds(xs) && xs != []
    ensures HasId(xs[1..], id) ==> xs[0].id < id
  {
  }

  lemma {:induction false} SortAscending(xs: seq<Weighted>)
    requires DistinctIds(xs)
    ensures AscendingIds(SortBy(xs, ById()))
  {
    if xs != [] {
      var n := |xs| - 1;
      SortAscending(xs[..n]);
      SortedById(xs[..n]);
      assert !HasId(xs[..n], xs[n].id);
      InsertAscending(SortBy(xs[..n], ById()), xs[n]);
    }
  }

  lemma {:induction false} InsertKeepsRepeat(xs: seq<Weighted>, x: Weighted)
    requires !DistinctIds(xs) || HasId(xs, x.id)
    ensures !DistinctIds(InsertBy(xs, x, ById()))
  {
    if xs == [] {
    } else if x.id < xs[0].id {
      DistinctConcat([x], xs);
      HasIdOne(x, x.id);
    } else {
      var rest := InsertBy(xs[1..], x, ById());
      DistinctConcat([xs[0]], xs[1..]);
      DistinctConcat([xs[0]], rest);
      HasIdConcat([xs[0]], xs[1..], x.id);
      HasIdOne(xs[0], x.id);
      assert xs == [xs[0]] + xs[1..];
      forall id: nat ensures HasId(rest, id) <==> HasId(xs[1..], id) || id == x.id {
        InsertedIds(xs[1..], x, id);
      }
      if !DistinctIds(xs[1..]) || HasId(xs[1..], x.id) {
        InsertKeepsRepeat(xs[1..], x);
      }
    }
  }

  lemma {:induction false} InsertedIds(xs: seq<Weighted>, x: Weighted, id: nat)
    ensures HasId(InsertBy(xs, x, ById()), id) <==> HasId(xs, id) || id == x.id
  {
    HasIdOne(x, id);
    if xs == [] || x.id < xs[0].id {
      HasIdConcat([x], xs, id);
    } else {
      InsertedIds(xs[1..], x, id);
      HasIdConcat([xs[0]], InsertBy(xs[1..], x, ById()), id);
      HasIdConcat([xs[0]], xs[1..], id);
      assert xs == [xs[0]] + xs[1..];
    }
  }

  lemma {:induction false} SortKeepsRepeat(xs: seq<Weighted>)
    requires !DistinctIds(xs)
    ensures !DistinctIds(SortBy(xs, ById()))
  {
    if xs != [] {
      var n := |xs| - 1;
      var s := SortBy(xs[..n], ById());
      SortedById(xs[..n]);
      DistinctConcat(xs[..n], [xs[n]]);
      LastSplit(xs);
      if !DistinctIds(xs[..n]) {
        SortKeepsRepeat(xs[..n]);
      } else {
        var id: nat :| HasId(xs[..n], id) && HasId([xs[n]], id);
        HasIdOne(xs[n], id);
      }
      InsertKeepsRepeat(s, xs[n]);
    }
  }

  /** Theorem: the two variants agree exactly when no atom repeats (or there is no field to repeat it in). */
  lemma MergingMatters(
      l: Layout, atoms: seq<int>, weights: seq<real>, merged: seq<Weighted>, unmerged: seq<Weighted>)
    requires InContract(l, atoms) && IsUnmerged(l, atoms, weights, unmerged)
    requires Merges(merged, unmerged)
    ensures merged == unmerged <==> DistinctAtoms(atoms, |atoms|) || l.fields == 0
  {
    var expanded := Expanded(l, atoms, weights, |atoms|);
    SortedIsUnmerged(l, atoms, weights);
    UnmergedUnique(l, atoms, weights, unmerged, SortBy(expanded, ById()));
    if l.fields == 0 {
      NoFields(l, atoms, weights, |atoms|);
    } else {
      ExpandedDistinct(l, atoms, weights, |atoms|);
      if DistinctIds(expanded) {
        SortAscending(expanded);
      } else {
        SortKeepsRepeat(expanded);
      }
    }
  }

  lemma {:induction false} NoFields(l: Layout, atoms: seq<int>, weights: seq<real>, n: nat)
    requires InContract(l, atoms) && n <= |atoms| == |weights| && l.fields == 0
    ensures Expanded(l, atoms, weights, n) == []
  {
    if n > 0 { NoFields(l, atoms, weights, n - 1); }
  }
}
