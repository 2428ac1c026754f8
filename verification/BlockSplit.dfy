/**
 Cutting posting lists into document blocks: a block is the part of a list whose document ids agree once shifted
 right. Each block of each term is filed in a dictionary under its block id, with exact or 8-bit bounds.
 */
module BlockSplit {
  import opened Totals
  import opened Arithmetic
  import opened Results
  import opened Sums
  import opened Ranking
  import opened Postings
  import opened Quantization
  import opened Tables
  import opened Frontiers
  import opened BlockFrontiers
  import opened Hierarchy

  // ----- one list -----

  /** The postings of block `b`, in list order. */
  function InBlock(p: PostingList, shift: nat, b: nat): PostingList {
    if p == [] then []
    else if ShiftRight(p[0].document, shift) == b then [p[0]] + InBlock(p[1..], shift, b)
    else InBlock(p[1..], shift, b)
  }

  lemma {:induction false} InBlockMembers(p: PostingList, shift: nat, b: nat)
    ensures forall x :: x in InBlock(p, shift, b) <==> x in p && ShiftRight(x.document, shift) == b
  {
    if p != [] {
      InBlockMembers(p[1..], shift, b);
      assert p == [p[0]] + p[1..];
    }
  }

  lemma {:induction false} InBlockDistinct(p: PostingList, shift: nat, b: nat)
    requires DistinctDocuments(p)
    ensures DistinctDocuments(InBlock(p, shift, b))
  {
    if p != [] {
      InBlockDistinct(p[1..], shift, b);
      InBlockMembers(p[1..], shift, b);
      var rest := InBlock(p[1..], shift, b);
      forall j | 0 <= j < |rest| ensures rest[j].document != p[0].document {
        assert rest[j] in rest;
        var i :| 0 <= i < |p[1..]| && p[1..][i] == rest[j];
        assert p[i + 1] == rest[j];
      }
    }
  }

  ghost predicate AscendingIds(ids: seq<nat>) {
    forall i, j :: 0 <= i < j < |ids| ==> ids[i] < ids[j]
  }

  function InsertId(ids: seq<nat>, id: nat): (r: seq<nat>)
    requires AscendingIds(ids)
    ensures AscendingIds(r) && forall x :: x in r <==> x == id || x in ids
  {
    if ids == [] || id < ids[0] then [id] + ids
    else if id == ids[0] then ids
    else
      var t := InsertId(ids[1..], id);
      assert forall x :: x in ids <==> x == ids[0] || x in ids[1..];
      assert forall i :: 0 <= i < |t| ==> t[i] in t;
      [ids[0]] + t
  }

  /** `np.unique` of the block ids. */
  function BlockIds(p: PostingList, shift: nat): (ids: seq<nat>)
    ensures AscendingIds(ids)
    ensures forall b :: b in ids <==> exists i :: 0 <= i < |p| && ShiftRight(p[i].document, shift) == b
  {
    if p == [] then []
    else
      var n := |p| - 1;
      var rest := BlockIds(p[..n], shift);
      var ids := InsertId(rest, ShiftRight(p[n].document, shift));
      BlockIdsStep(p, p[..n], shift, rest, ids);
      ids
  }

  lemma BlockIdsStep(p: PostingList, front: PostingList, shift: nat, rest: seq<nat>, ids: seq<nat>)
    requires p != [] && front == p[..|p| - 1]
    requires forall b :: b in rest <==> exists i :: 0 <= i < |front| && ShiftRight(front[i].document, shift) == b
    requires forall b :: b in ids <==> b == ShiftRight(p[|p| - 1].document, shift) || b in rest
    ensures forall b :: b in ids <==> exists i :: 0 <= i < |p| && ShiftRight(p[i].document, shift) == b
  {
    var n := |front|;
    forall b | b in ids ensures exists i :: 0 <= i < |p| && ShiftRight(p[i].document, shift) == b {
      if b in rest {
        var i :| 0 <= i < n && ShiftRight(front[i].document, shift) == b;
        assert p[i] == front[i];
      } else {
        assert ShiftRight(p[n].document, shift) == b;
      }
    }
    forall i | 0 <= i < |p| ensures ShiftRight(p[i].document, shift) in ids {
      if i < n { assert front[i] == p[i]; }
    }
  }

  /** One block of a term. */
  function TermInBlock(t: TermBlock, shift: nat, b: nat): TermBlock
    requires DistinctDocuments(t.postings)
  {
    InBlockDistinct(t.postings, shift, b);
    t.(postings := ImpactOrder(InBlock(t.postings, shift, b)))
  }

  function SplitTermBlocks(t: TermBlock, shift: nat): (r: seq<TermBlock>)
    requires DistinctDocuments(t.postings)
    ensures |r| == |BlockIds(t.postings, shift)|
    ensures forall i :: 0 <= i < |r| ==> r[i] == TermInBlock(t, shift, BlockIds(t.postings, shift)[i])
  {
    var ids := BlockIds(t.postings, shift);
    seq(|ids|, i requires 0 <= i < |ids| => TermInBlock(t, shift, ids[i]))
  }

  /** A term whose postings are distinct, in range and nonnegative, in whatever order. */
  ghost predicate Splittable(t: TermBlock, count: nat) {
    && t.weight >= 0.0 && DistinctDocuments(t.postings)
    && forall i :: 0 <= i < |t.postings| ==> t.postings[i].document < count && t.postings[i].impact >= 0.0
  }

  /** `r` is the part of `t` that block `b` holds, in impact order. */
  ghost predicate IsPart(r: TermBlock, t: TermBlock, shift: nat, b: nat) {
    && r.termId == t.termId && r.weight == t.weight
    && DistinctDocuments(r.postings) && Descending(r.postings)
    && forall x :: x in r.postings <==> x in t.postings && ShiftRight(x.document, shift) == b
  }

  lemma TermInBlockIsPart(t: TermBlock, shift: nat, b: nat)
    requires DistinctDocuments(t.postings)
    ensures IsPart(TermInBlock(t, shift, b), t, shift, b)
  {
    InBlockDistinct(t.postings, shift, b);
    InBlockMembers(t.postings, shift, b);
  }

  lemma PartWellFormed(r: TermBlock, t: TermBlock, count: nat, shift: nat, b: nat)
    requires Splittable(t, count) && IsPart(r, t, shift, b) && r.postings != []
    ensures r.WellFormed(count)
  {
    forall i | 0 <= i < |r.postings|
      ensures r.postings[i].document < count && r.postings[i].impact >= 0.0
    {
      assert r.postings[i] in r.postings && r.postings[i] in t.postings;
    }
  }

  function TermTotal(t: TermBlock, d: nat): real {
    t.Mass(|t.postings|, d)
  }

  lemma PartImpact(r: TermBlock, t: TermBlock, shift: nat, d: nat)
    requires DistinctDocuments(t.postings) && IsPart(r, t, shift, ShiftRight(d, shift))
    ensures Impact(r.postings, d) == Impact(t.postings, d)
  {
    ImpactOfSame(r.postings, t.postings, d);
  }

  /** A term's block keeps the term's contribution to its own documents. */
  lemma PartTotal(r: TermBlock, t: TermBlock, shift: nat, d: nat)
    requires DistinctDocuments(t.postings) && IsPart(r, t, shift, ShiftRight(d, shift))
    ensures TermTotal(r, d) == TermTotal(t, d)
  {
    PartImpact(r, t, shift, d);
  }

  lemma PartHolds(r: TermBlock, t: TermBlock, shift: nat, b: nat, d: nat)
    requires IsPart(r, t, shift, b)
    ensures Holds(r.postings, d) <==> Holds(t.postings, d) && ShiftRight(d, shift) == b
  {
    if Holds(r.postings, d) {
      var i :| 0 <= i < |r.postings| && r.postings[i].document == d;
      assert r.postings[i] in r.postings;
      var j :| 0 <= j < |t.postings| && t.postings[j] == r.postings[i];
    }
    if Holds(t.postings, d) && ShiftRight(d, shift) == b {
      var j :| 0 <= j < |t.postings| && t.postings[j].document == d;
      assert t.postings[j] in r.postings;
      var i :| 0 <= i < |r.postings| && r.postings[i] == t.postings[j];
    }
  }

  // ----- all lists -----

  /** What `query_blocks` files under block `b`, said without the dictionary. */
  function BlockTerms(terms: seq<TermBlock>, shift: nat, b: nat): Block
    requires forall o :: 0 <= o < |terms| ==> DistinctDocuments(terms[o].postings)
  {
    if terms == [] then []
    else
      var n := |terms| - 1;
      var last := TermInBlock(terms[n], shift, b);
      BlockTerms(terms[..n], shift, b) + if last.postings == [] then [] else [last]
  }

  /** `quantize_impacts_up` applied to every term. */
  function BoundedTerm(t: TermBlock, bits: nat, ulp: real): TermBlock
    requires ulp > 0.0 && (bits == 8 || bits == 32)
    requires forall i :: 0 <= i < |t.postings| ==> t.postings[i].impact >= 0.0
  {
    t.(postings := QuantizeImpactsUp(t.postings, bits, ulp).value)
  }

  lemma BoundedTermFacts(t: TermBlock, count: nat, bits: nat, ulp: real)
    requires ulp > 0.0 && (bits == 8 || bits == 32) && t.WellFormed(count)
    ensures Bounds(BoundedTerm(t, bits, ulp), t)
  {
    if bits == 8 {
      ScalePositive(t.postings, ulp);
    }
  }

  lemma {:induction false} ImpactAtLeast(p: PostingList, q: PostingList, n: nat, d: nat)
    requires |p| == |q| && n <= |p|
    requires forall i :: 0 <= i < |p| ==> p[i].document == q[i].document && p[i].impact <= q[i].impact
    ensures ImpactBefore(p, n, d) <= ImpactBefore(q, n, d)
  {
    if n > 0 { ImpactAtLeast(p, q, n - 1, d); }
  }

  function BoundedTerms(terms: seq<TermBlock>, bits: nat, ulp: real): (r: seq<TermBlock>)
    requires ulp > 0.0 && (bits == 8 || bits == 32)
    requires forall o, i :: 0 <= o < |terms| && 0 <= i < |terms[o].postings| ==> terms[o].postings[i].impact >= 0.0
    ensures |r| == |terms| && forall o :: 0 <= o < |r| ==> r[o] == BoundedTerm(terms[o], bits, ulp)
  {
    seq(|terms|, o requires 0 <= o < |terms| => BoundedTerm(terms[o], bits, ulp))
  }

  /** What one block contributes under block id `b`. */
  function Filed(t: TermBlock, shift: nat, b: nat): Block
    requires DistinctDocuments(t.postings)
  {
    var r := TermInBlock(t, shift, b);
    if r.postings == [] then [] else [r]
  }

  lemma FiledWhenListed(t: TermBlock, shift: nat, b: nat)
    requires DistinctDocuments(t.postings)
    ensures b in BlockIds(t.postings, shift) <==> TermInBlock(t, shift, b).postings != []
    ensures forall x :: x in TermInBlock(t, shift, b).postings ==> ShiftRight(x.document, shift) == b
  {
    InBlockDistinct(t.postings, shift, b);
    InBlockMembers(t.postings, shift, b);
    var r := TermInBlock(t, shift, b).postings;
    if b in BlockIds(t.postings, shift) {
      var i :| 0 <= i < |t.postings| && ShiftRight(t.postings[i].document, shift) == b;
      assert t.postings[i] in t.postings && t.postings[i] in r;
    }
    if r != [] {
      assert r[0] in r;
      assert r[0] in t.postings;
    }
  }

  function FiledIf(t: TermBlock, shift: nat, b: nat, listed: seq<nat>): Block
    requires DistinctDocuments(t.postings)
  {
    if b in listed then [TermInBlock(t, shift, b)] else []
  }

  /** The blocks listed so far were filed, each under its own id. */
  ghost predicate FiledSoFar(blocks: BlockMap, more: BlockMap, t: TermBlock, shift: nat, listed: seq<nat>)
    requires DistinctDocuments(t.postings)
  {
    forall b :: Get(more, b, []) == Get(blocks, b, []) + FiledIf(t, shift, b, listed)
  }

  /** The inner loop of `query_blocks`: every block of one term goes to its block id. */
  method FileTerm(blocks: BlockMap, t: TermBlock, shift: nat) returns (more: BlockMap)
    requires DistinctKeys(blocks) && DistinctDocuments(t.postings)
    ensures DistinctKeys(more)
    ensures forall b :: Get(more, b, []) == Get(blocks, b, []) + Filed(t, shift, b)
  {
    more := blocks;
    var split := SplitTermBlocks(t, shift);
    ghost var ids := BlockIds(t.postings, shift);
    for i := 0 to |split|
      invariant DistinctKeys(more)
      invariant FiledSoFar(blocks, more, t, shift, ids[..i])
    {
      var block := split[i];
      FiledWhenListed(t, shift, ids[i]);
      assert block.postings[0] in block.postings;
      var id := ShiftRight(block.postings[0].document, shift);
      var value := Get(more, id, []) + [block];
      PutKeys(more, id, value);
      FileStep(blocks, more, t, shift, ids, i, value);
      more := Put(more, id, value);
    }
    forall b ensures Get(more, b, []) == Get(blocks, b, []) + Filed(t, shift, b) {
      FiledWhenListed(t, shift, b);
      assert ids[..|split|] == ids;
    }
  }

  lemma FileStep(
      blocks: BlockMap, more: BlockMap, t: TermBlock, shift: nat, ids: seq<nat>, i: nat, value: Block)
    requires DistinctDocuments(t.postings) && AscendingIds(ids) && i < |ids|
    requires FiledSoFar(blocks, more, t, shift, ids[..i])
    requires value == Get(more, ids[i], []) + [TermInBlock(t, shift, ids[i])]
    ensures FiledSoFar(blocks, Put(more, ids[i], value), t, shift, ids[..i + 1])
  {
    var listed, longer := ids[..i], ids[..i + 1];
    assert longer == listed + [ids[i]];
    assert ids[i] !in listed;
    forall b ensures Get(Put(more, ids[i], value), b, []) == Get(blocks, b, []) + FiledIf(t, shift, b, longer) {
      GetAfterPut(more, ids[i], value, b, []);
      assert Get(more, b, []) == Get(blocks, b, []) + FiledIf(t, shift, b, listed);
      if b == ids[i] {
        assert Get(more, b, []) == Get(blocks, b, []);
      } else {
        assert FiledIf(t, shift, b, longer) == FiledIf(t, shift, b, listed);
      }
    }
  }

  // ----- what the dictionary of blocks is worth -----

  ghost predicate AllSplittable(terms: seq<TermBlock>, count: nat) {
    forall o :: 0 <= o < |terms| ==> Splittable(terms[o], count)
  }

  lemma {:induction false} BlockTermsWellFormed(terms: seq<TermBlock>, count: nat, shift: nat, b: nat)
    requires AllSplittable(terms, count)
    ensures AllWellFormed(BlockTerms(terms, shift, b), count)
  {
    if terms != [] {
      BlockTermsWellFormed(terms[..|terms| - 1], count, shift, b);
      var t := terms[|terms| - 1];
      var last := TermInBlock(t, shift, b);
      TermInBlockIsPart(t, shift, b);
      if last.postings != [] { PartWellFormed(last, t, count, shift, b); }
    }
  }

  lemma {:induction false} BlockTermsIds(terms: seq<TermBlock>, shift: nat, b: nat, i: nat) returns (o: nat)
    requires forall o :: 0 <= o < |terms| ==> DistinctDocuments(terms[o].postings)
    requires i < |BlockTerms(terms, shift, b)|
    ensures o < |terms| && BlockTerms(terms, shift, b)[i].termId == terms[o].termId
  {
    var n := |terms| - 1;
    if i < |BlockTerms(terms[..n], shift, b)| {
      o := BlockTermsIds(terms[..n], shift, b, i);
    } else {
      o := n;
    }
  }

  lemma {:induction false} BlockTermsDistinct(terms: seq<TermBlock>, shift: nat, b: nat)
    requires forall o :: 0 <= o < |terms| ==> DistinctDocuments(terms[o].postings)
    requires DistinctTerms(terms)
    ensures DistinctTerms(BlockTerms(terms, shift, b))
  {
    if terms != [] {
      var n := |terms| - 1;
      BlockTermsDistinct(terms[..n], shift, b);
      var front, all := BlockTerms(terms[..n], shift, b), BlockTerms(terms, shift, b);
      forall i | 0 <= i < |front| ensures front[i].termId != terms[n].termId {
        var o := BlockTermsIds(terms[..n], shift, b, i);
      }
    }
  }

  lemma TotalMassSnoc(terms: seq<TermBlock>, t: TermBlock, d: nat)
    ensures TotalMass(terms + [t], d) == TotalMass(terms, d) + TermTotal(t, d)
  {
    assert TotalMasses(terms + [t], d) == TotalMasses(terms, d) + [TermTotal(t, d)];
    SumAppend(TotalMasses(terms, d), [TermTotal(t, d)]);
  }

  lemma EmptyTotal(t: TermBlock, d: nat)
    requires t.postings == []
    ensures TermTotal(t, d) == 0.0
  {
  }

  lemma BlockTermsMassStep(front: Block, last: TermBlock, block: Block, before: Block, t: TermBlock, d: nat)
    requires block == front + if last.postings == [] then [] else [last]
    requires TermTotal(last, d) == TermTotal(t, d)
    requires TotalMass(front, d) == TotalMass(before, d)
    ensures TotalMass(block, d) == TotalMass(before + [t], d)
  {
    TotalMassSnoc(before, t, d);
    if last.postings == [] {
      EmptyTotal(last, d);
      assert front + [] == front;
    } else {
      TotalMassSnoc(front, last, d);
    }
  }

  /** Splitting loses nothing: a document's total is the same in its block as in the whole lists. */
  lemma {:induction false} BlockTermsMass(terms: seq<TermBlock>, shift: nat, d: nat)
    requires forall o :: 0 <= o < |terms| ==> DistinctDocuments(terms[o].postings)
    ensures TotalMass(BlockTerms(terms, shift, ShiftRight(d, shift)), d) == TotalMass(terms, d)
  {
    if terms != [] {
      var n := |terms| - 1;
      var b := ShiftRight(d, shift);
      BlockTermsMass(terms[..n], shift, d);
      var last := TermInBlock(terms[n], shift, b);
      TermInBlockIsPart(terms[n], shift, b);
      PartTotal(last, terms[n], shift, d);
      BlockTermsMassStep(
        BlockTerms(terms[..n], shift, b), last, BlockTerms(terms, shift, b), terms[..n], terms[n], d);
      LastSplit(terms);
    }
  }

  lemma DocumentsOfSnoc(terms: seq<TermBlock>, t: TermBlock)
    ensures DocumentsOf(terms + [t]) == DocumentsOf(terms) + SetOf(PostingDocuments(t.postings))
  {
    DocumentsBeforeSame(terms, terms + [t], |terms|);
  }

  lemma {:induction false} DocumentsBeforeSame(a: seq<TermBlock>, b: seq<TermBlock>, n: nat)
    requires n <= |a| && n <= |b| && forall o :: 0 <= o < n ==> a[o] == b[o]
    ensures DocumentsBefore(a, n) == DocumentsBefore(b, n)
  {
    if n > 0 { DocumentsBeforeSame(a, b, n - 1); }
  }

  lemma {:induction false} BlockTermsDocuments(terms: seq<TermBlock>, shift: nat, b: nat, d: nat)
    requires forall o :: 0 <= o < |terms| ==> DistinctDocuments(terms[o].postings)
    ensures d in DocumentsOf(BlockTerms(terms, shift, b)) <==> d in DocumentsOf(terms) && ShiftRight(d, shift) == b
  {
    if terms != [] {
      var n := |terms| - 1;
      BlockTermsDocuments(terms[..n], shift, b, d);
      var last := TermInBlock(terms[n], shift, b);
      TermInBlockIsPart(terms[n], shift, b);
      PartHolds(last, terms[n], shift, b, d);
      HoldsDocument(last.postings, d);
      HoldsDocument(terms[n].postings, d);
      LastSplit(terms);
      DocumentsOfSnoc(terms[..n], terms[n]);
      var front := BlockTerms(terms[..n], shift, b);
      if last.postings == [] {
        assert front + [] == front;
      } else {
        DocumentsOfSnoc(front, last);
      }
    }
  }

  lemma ScaleImpacts(w: real, x: real, y: real)
    requires w >= 0.0 && x <= y
    ensures w * x <= w * y
  {
  }

  /** `r` bounds `t` from above, posting by posting. */
  ghost predicate Bounds(r: TermBlock, t: TermBlock) {
    && r.termId == t.termId && r.weight == t.weight && |r.postings| == |t.postings|
    && DistinctDocuments(r.postings)
    && forall i :: 0 <= i < |r.postings| ==>
         r.postings[i].document == t.postings[i].document && r.postings[i].impact >= t.postings[i].impact
  }

  lemma BoundsTotal(r: TermBlock, t: TermBlock, count: nat, d: nat)
    requires t.WellFormed(count) && Bounds(r, t)
    ensures TermTotal(t, d) <= TermTotal(r, d)
  {
    ImpactAtLeast(t.postings, r.postings, |t.postings|, d);
    ScaleImpacts(t.weight, Impact(t.postings, d), Impact(r.postings, d));
  }

  lemma BoundsSplittable(r: TermBlock, t: TermBlock, count: nat)
    requires t.WellFormed(count) && Bounds(r, t)
    ensures Splittable(r, count)
    ensures PostingDocuments(r.postings) == PostingDocuments(t.postings)
  {
  }

  /** Bounding only raises totals and moves no document. */
  lemma BoundedTermsFacts(terms: seq<TermBlock>, count: nat, bits: nat, ulp: real, d: nat)
    requires ulp > 0.0 && (bits == 8 || bits == 32) && AllWellFormed(terms, count)
    ensures var bounded := BoundedTerms(terms, bits, ulp);
      && AllSplittable(bounded, count)
      && TotalMass(terms, d) <= TotalMass(bounded, d)
      && DocumentsOf(bounded) == DocumentsOf(terms)
      && (DistinctTerms(terms) ==> DistinctTerms(bounded))
  {
    var bounded := BoundedTerms(terms, bits, ulp);
    forall o | 0 <= o < |terms|
      ensures Splittable(bounded[o], count) && bounded[o].termId == terms[o].termId
      ensures TermTotal(terms[o], d) <= TermTotal(bounded[o], d)
      ensures PostingDocuments(bounded[o].postings) == PostingDocuments(terms[o].postings)
    {
      BoundedTermFacts(terms[o], count, bits, ulp);
      BoundsTotal(bounded[o], terms[o], count, d);
      BoundsSplittable(bounded[o], terms[o], count);
    }
    TotalsCompare(terms, bounded, d);
    SameDocuments(terms, bounded, |terms|);
  }

  lemma TotalsCompare(a: seq<TermBlock>, b: seq<TermBlock>, d: nat)
    requires |a| == |b| && forall o :: 0 <= o < |a| ==> TermTotal(a[o], d) <= TermTotal(b[o], d)
    ensures TotalMass(a, d) <= TotalMass(b, d)
  {
    forall o | 0 <= o < |a| ensures TotalMasses(a, d)[o] <= TotalMasses(b, d)[o] {
      assert TermTotal(a[o], d) <= TermTotal(b[o], d);
    }
    SumMonotone(TotalMasses(a, d), TotalMasses(b, d));
  }

  lemma {:induction false} SameDocuments(a: seq<TermBlock>, b: seq<TermBlock>, n: nat)
    requires n <= |a| == |b|
    requires forall o :: 0 <= o < |a| ==> PostingDocuments(b[o].postings) == PostingDocuments(a[o].postings)
    ensures DocumentsBefore(a, n) == DocumentsBefore(b, n)
  {
    if n > 0 { SameDocuments(a, b, n - 1); }
  }

  /** The dictionary holds exactly the nonempty `BlockTerms` of the bounded terms. */
  ghost predicate HoldsBlocks(blocks: BlockMap, bounded: seq<TermBlock>, count: nat, shift: nat) {
    && AllSplittable(bounded, count) && DistinctKeys(blocks)
    && forall b :: Get(blocks, b, []) == BlockTerms(bounded, shift, b)
  }

  /** Main theorem of the split: whatever is safe for the whole lists is safe for the blocks, at u8 or f32 bounds. */
  lemma BlocksAreSafe(
      scores: seq<real>, seen: set<nat>, terms: seq<TermBlock>, bits: nat, ulp: real, shift: nat, blocks: BlockMap)
    requires ulp > 0.0 && (bits == 8 || bits == 32) && AllWellFormed(terms, |scores|)
    requires SafeBlocks(scores, seen, [terms])
    requires HoldsBlocks(blocks, BoundedTerms(terms, bits, ulp), |scores|, shift)
    ensures SafeBlocks(scores, seen, Values(blocks))
    ensures BlockDocuments(Values(blocks)) == DocumentsOf(terms)
    ensures forall i :: 0 <= i < |blocks| ==> AllWellFormed(Values(blocks)[i], |scores|)
    ensures DistinctTerms(terms) ==> forall x :: x in blocks ==> DistinctTerms(x.value)
  {
    var values := Values(blocks);
    forall i | 0 <= i < |blocks|
      ensures SafeBlock(scores, seen, values[i]) && AllWellFormed(values[i], |scores|)
      ensures DistinctTerms(terms) ==> DistinctTerms(blocks[i].value)
    {
      GetAt(blocks, i, []);
      EntryIsSafe(scores, seen, terms, bits, ulp, shift, blocks[i].key);
    }
    BlocksHoldDocuments(scores, terms, bits, ulp, shift, blocks);
    OneBlock(terms);
  }

  lemma BlocksHoldDocuments(
      scores: seq<real>, terms: seq<TermBlock>, bits: nat, ulp: real, shift: nat, blocks: BlockMap)
    requires ulp > 0.0 && (bits == 8 || bits == 32) && AllWellFormed(terms, |scores|)
    requires HoldsBlocks(blocks, BoundedTerms(terms, bits, ulp), |scores|, shift)
    ensures BlockDocuments(Values(blocks)) == DocumentsOf(terms)
  {
    BoundedTermsFacts(terms, |scores|, bits, ulp, 0);
    forall d ensures d in BlockDocuments(Values(blocks)) <==> d in DocumentsOf(terms) {
      BlockHolding(blocks, terms, BoundedTerms(terms, bits, ulp), |scores|, shift, d);
    }
  }

  lemma EntryIsSafe(
      scores: seq<real>, seen: set<nat>, terms: seq<TermBlock>, bits: nat, ulp: real, shift: nat, b: nat)
    requires ulp > 0.0 && (bits == 8 || bits == 32) && AllWellFormed(terms, |scores|)
    requires SafeBlocks(scores, seen, [terms])
    requires AllSplittable(BoundedTerms(terms, bits, ulp), |scores|)
    ensures var block := BlockTerms(BoundedTerms(terms, bits, ulp), shift, b);
      && SafeBlock(scores, seen, block) && AllWellFormed(block, |scores|)
      && (DistinctTerms(terms) ==> DistinctTerms(block))
  {
    var bounded := BoundedTerms(terms, bits, ulp);
    BoundedTermsFacts(terms, |scores|, bits, ulp, 0);
    BlockTermsWellFormed(bounded, |scores|, shift, b);
    if DistinctTerms(terms) { BlockTermsDistinct(bounded, shift, b); }
    BlockIsSafe(scores, seen, terms, bits, ulp, shift, b);
  }

  lemma BlockIsSafe(
      scores: seq<real>, seen: set<nat>, terms: seq<TermBlock>, bits: nat, ulp: real, shift: nat, b: nat)
    requires ulp > 0.0 && (bits == 8 || bits == 32) && AllWellFormed(terms, |scores|)
    requires SafeBlocks(scores, seen, [terms])
    requires AllSplittable(BoundedTerms(terms, bits, ulp), |scores|)
    ensures SafeBlock(scores, seen, BlockTerms(BoundedTerms(terms, bits, ulp), shift, b))
  {
    var bounded := BoundedTerms(terms, bits, ulp);
    var block := BlockTerms(bounded, shift, b);
    OneBlock(terms);
    assert SafeBlock(scores, seen, [terms][0]);
    forall d | d in DocumentsOf(block) && d !in seen && d < |scores| ensures scores[d] <= TotalMass(block, d) {
      BlockTermsDocuments(bounded, shift, b, d);
      BlockTermsMass(bounded, shift, d);
      BoundedTermsFacts(terms, |scores|, bits, ulp, d);
    }
  }

  lemma BlockHolding(
      blocks: BlockMap, terms: seq<TermBlock>, bounded: seq<TermBlock>, count: nat, shift: nat, d: nat)
    requires HoldsBlocks(blocks, bounded, count, shift) && DocumentsOf(bounded) == DocumentsOf(terms)
    ensures d in BlockDocuments(Values(blocks)) <==> d in DocumentsOf(terms)
  {
    var b := ShiftRight(d, shift);
    BlockTermsDocuments(bounded, shift, b, d);
    if d in DocumentsOf(terms) {
      assert Get(blocks, b, []) == BlockTerms(bounded, shift, b);
      var i := EntryOf(blocks, b, []);
      assert d in DocumentsOf(Values(blocks)[i]);
    }
    if d in BlockDocuments(Values(blocks)) {
      var i :| 0 <= i < |blocks| && d in DocumentsOf(Values(blocks)[i]);
      GetAt(blocks, i, []);
      BlockTermsDocuments(bounded, shift, blocks[i].key, d);
    }
  }

  // ----- how much there is to decode -----

  function BlockOf(shift: nat): Posting -> nat {
    (x: Posting) => ShiftRight(x.document, shift)
  }

  function Unit(): Posting -> nat {
    (x: Posting) => 1
  }

  /** All the postings of several terms, one list after the other. */
  function Flattened(terms: seq<TermBlock>): seq<Posting> {
    if terms == [] then [] else Flattened(terms[..|terms| - 1]) + terms[|terms| - 1].postings
  }

  lemma {:induction false} UnitTotal(p: PostingList)
    ensures Total(p, Unit()) == |p|
  {
    if p != [] { UnitTotal(p[..|p| - 1]); }
  }

  lemma {:induction false} InBlockSize(p: PostingList, shift: nat, b: nat)
    ensures |InBlock(p, shift, b)| == GroupTotal(p, BlockOf(shift), Unit(), b)
  {
    if p != [] {
      InBlockSize(p[1..], shift, b);
      GroupTotalOne(p[0], BlockOf(shift), Unit(), b);
      GroupTotalConcat([p[0]], p[1..], BlockOf(shift), Unit(), b);
      assert p == [p[0]] + p[1..];
    }
  }

  lemma {:induction false} FlattenedSize(terms: seq<TermBlock>)
    ensures Total(Flattened(terms), Unit()) == PostingCount(terms)
  {
    if terms != [] {
      var n := |terms| - 1;
      FlattenedSize(terms[..n]);
      TotalConcat(Flattened(terms[..n]), terms[n].postings, Unit());
      UnitTotal(terms[n].postings);
    }
  }

  lemma TermInBlockSize(t: TermBlock, shift: nat, b: nat)
    requires DistinctDocuments(t.postings)
    ensures |TermInBlock(t, shift, b).postings| == GroupTotal(t.postings, BlockOf(shift), Unit(), b)
  {
    InBlockDistinct(t.postings, shift, b);
    InBlockSize(t.postings, shift, b);
  }

  lemma AppendedSize(front: Block, last: TermBlock)
    ensures PostingCount(front + if last.postings == [] then [] else [last]) == PostingCount(front) + |last.postings|
  {
    if last.postings == [] {
      assert front + [] == front;
    } else {
      TotalConcat(front, [last], ListSize());
      TotalOne(last, ListSize());
    }
  }

  lemma {:induction false} BlockTermsSize(terms: seq<TermBlock>, shift: nat, b: nat)
    requires forall o :: 0 <= o < |terms| ==> DistinctDocuments(terms[o].postings)
    ensures PostingCount(BlockTerms(terms, shift, b)) == GroupTotal(Flattened(terms), BlockOf(shift), Unit(), b)
  {
    if terms != [] {
      var n := |terms| - 1;
      var last := TermInBlock(terms[n], shift, b);
      BlockTermsSize(terms[..n], shift, b);
      TermInBlockSize(terms[n], shift, b);
      GroupTotalConcat(Flattened(terms[..n]), terms[n].postings, BlockOf(shift), Unit(), b);
      AppendedSize(BlockTerms(terms[..n], shift, b), last);
    }
  }

  lemma {:induction false} SameSizes(a: seq<TermBlock>, b: seq<TermBlock>)
    requires |a| == |b| && forall o :: 0 <= o < |a| ==> |a[o].postings| == |b[o].postings|
    ensures PostingCount(a) == PostingCount(b)
  {
    if a != [] { SameSizes(a[..|a| - 1], b[..|b| - 1]); }
  }

  /** Splitting adds no postings, at either precision. */
  lemma BlocksAddNone(terms: seq<TermBlock>, count: nat, bits: nat, ulp: real, shift: nat, blocks: BlockMap)
    requires ulp > 0.0 && (bits == 8 || bits == 32) && AllWellFormed(terms, count)
    requires HoldsBlocks(blocks, BoundedTerms(terms, bits, ulp), count, shift)
    ensures BlockPostings(Values(blocks)) <= PostingCount(terms)
  {
    var bounded := BoundedTerms(terms, bits, ulp);
    forall i | 0 <= i < |blocks|
      ensures EntrySize()(blocks[i]) == GroupTotal(Flattened(bounded), BlockOf(shift), Unit(), blocks[i].key)
    {
      GetAt(blocks, i, []);
      BlockTermsSize(bounded, shift, blocks[i].key);
    }
    TableWithinTotal(blocks, EntrySize(), Flattened(bounded), BlockOf(shift), Unit());
    EntryPostings(blocks);
    FlattenedSize(bounded);
    forall o | 0 <= o < |terms| ensures |bounded[o].postings| == |terms[o].postings| {
      BoundedTermFacts(terms[o], count, bits, ulp);
      assert |PostingDocuments(bounded[o].postings)| == |PostingDocuments(terms[o].postings)|;
    }
    SameSizes(bounded, terms);
  }

  method QueryBlocks(terms: seq<TermBlock>, ghost count: nat, shift: nat, bits: nat, ulp: real)
    returns (blocks: Result<BlockMap>)
    requires ulp > 0.0 && AllWellFormed(terms, count)
    ensures blocks.Error? <==> terms != [] && bits != 8 && bits != 32
    ensures blocks.Ok? && terms == [] ==> blocks.value == []
    ensures blocks.Ok? && terms != [] ==> HoldsBlocks(blocks.value, BoundedTerms(terms, bits, ulp), count, shift)
  {
    if terms == [] { return Ok([]); }
    if bits != 8 && bits != 32 {
      return Error("frontier impact bits must be 8 or 32");
    }
    var result: BlockMap := [];
    ghost var bounded := BoundedTerms(terms, bits, ulp);
    BoundedTermsFacts(terms, count, bits, ulp, 0);
    NoBlocksYet(bounded, count, shift);
    for o := 0 to |terms|
      invariant HoldsBlocks(result, bounded[..o], count, shift)
    {
      ghost var before := result;
      result := FileTerm(result, BoundedTerm(terms[o], bits, ulp), shift);
      FileTermStep(before, result, bounded, o, count, shift);
    }
    WholePrefix(bounded);
    blocks := Ok(result);
  }

  lemma NoBlocksYet(bounded: seq<TermBlock>, count: nat, shift: nat)
    requires AllSplittable(bounded, count)
    ensures HoldsBlocks([], bounded[..0], count, shift)
  {
  }

  lemma WholePrefix(terms: seq<TermBlock>)
    ensures terms[..|terms|] == terms
  {
  }

  lemma PrefixSnoc(terms: seq<TermBlock>, o: nat)
    requires o < |terms|
    ensures terms[..o + 1][..o] == terms[..o] && terms[..o + 1][o] == terms[o]
  {
  }

  lemma FileTermStep(before: BlockMap, after: BlockMap, bounded: seq<TermBlock>, o: nat, count: nat, shift: nat)
    requires AllSplittable(bounded, count) && o < |bounded|
    requires HoldsBlocks(before, bounded[..o], count, shift) && DistinctKeys(after)
    requires forall b :: Get(after, b, []) == Get(before, b, []) + Filed(bounded[o], shift, b)
    ensures HoldsBlocks(after, bounded[..o + 1], count, shift)
  {
    var next := bounded[..o + 1];
    PrefixSnoc(bounded, o);
    forall b ensures Get(after, b, []) == BlockTerms(next, shift, b) {
      assert Get(before, b, []) == BlockTerms(bounded[..o], shift, b);
    }
  }
}
