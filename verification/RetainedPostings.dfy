/**
 Lossy postings by truncation. Each selected list keeps its best postings and remembers the largest impact it
 dropped; the global variant chooses one threshold for all lists and then meets its budget of postings exactly.
 */
module RetainedPostings {
  import opened Arithmetic
  import opened Ranking
  import opened Completion
  import opened Tables
  import opened Postings

  // ----- what a truncated list is worth -----

  /** A kept part of `p` and a bound on what was dropped. */
  datatype Truncated = Truncated(kept: PostingList, tail: real)

  ghost predicate Truncates(t: Truncated, p: PostingList) {
    && DistinctDocuments(t.kept)
    && (forall x :: x in t.kept ==> x in p)
    && (forall x :: x in p && x !in t.kept ==> x.impact <= t.tail)
    && (t.tail == 0.0 || exists x :: x in p && x !in t.kept && x.impact == t.tail)
    && t.tail >= 0.0
  }

  /** `values[omitted].max(initial=0.0)`. */
  function OmittedMax(p: PostingList, kept: PostingList): real {
    if p == [] then 0.0
    else
      var rest := OmittedMax(p[1..], kept);
      if p[0] !in kept && rest < p[0].impact then p[0].impact else rest
  }

  lemma {:induction false} OmittedMaxFacts(p: PostingList, kept: PostingList)
    ensures OmittedMax(p, kept) >= 0.0
    ensures forall x :: x in p && x !in kept ==> x.impact <= OmittedMax(p, kept)
    ensures OmittedMax(p, kept) == 0.0 || exists x :: x in p && x !in kept && x.impact == OmittedMax(p, kept)
  {
    if p != [] {
      OmittedMaxFacts(p[1..], kept);
      assert p == [p[0]] + p[1..];
    }
  }

  lemma KeptTruncates(p: PostingList, kept: PostingList)
    requires DistinctDocuments(kept) && forall x :: x in kept ==> x in p
    ensures Truncates(Truncated(kept, OmittedMax(p, kept)), p)
  {
    OmittedMaxFacts(p, kept);
  }

  /** `kept` holds `min(n, |p|)` postings of `p`, none with a smaller impact than a posting left out. */
  ghost predicate IsBestPart(kept: PostingList, p: PostingList, n: nat) {
    && DistinctDocuments(kept) && Descending(kept)
    && (forall x :: x in kept ==> x in p)
    && |kept| == (if n <= |p| then n else |p|)
    && (forall x, y :: x in p && x !in kept && y in kept ==> y.impact >= x.impact)
  }

  lemma PrefixIsBestPart(ordered: PostingList, p: PostingList, n: nat)
    requires DistinctDocuments(ordered) && Descending(ordered) && |ordered| == |p|
    requires forall x :: x in ordered <==> x in p
    ensures IsBestPart(if n <= |ordered| then ordered[..n] else ordered, p, n)
  {
    var r := if n <= |ordered| then ordered[..n] else ordered;
    forall x, y | x in p && x !in r && y in r ensures y.impact >= x.impact {
      assert x in ordered;
      var i :| 0 <= i < |ordered| && ordered[i] == x;
      var j :| 0 <= j < |r| && r[j] == y;
      NotInPrefix(ordered, |r|, i);
      assert ordered[j] == y;
    }
  }

  lemma NotInPrefix(s: PostingList, n: nat, i: nat)
    requires n <= |s| && i < |s| && s[i] !in s[..n]
    ensures i >= n
  {
    assert forall m :: 0 <= m < n ==> s[..n][m] == s[m] && s[..n][m] in s[..n];
  }

  /** `impact_order(p)[:n]`. */
  function Best(p: PostingList, n: nat): (r: PostingList)
    requires DistinctDocuments(p)
    ensures IsBestPart(r, p, n)
  {
    var ordered := ImpactOrder(p);
    PrefixIsBestPart(ordered, p, n);
    if n <= |ordered| then ordered[..n] else ordered
  }

  /** The fixed-size variant keeps the best `retainedCount` of every list. */
  ghost predicate RetainsBest(r: Truncated, p: PostingList, retainedCount: nat) {
    Truncates(r, p) && IsBestPart(r.kept, p, retainedCount)
  }

  /** One list cut to its best postings, with the largest impact dropped. */
  function Truncate(p: PostingList, n: nat): (r: Truncated)
    requires DistinctDocuments(p)
    ensures RetainsBest(r, p, n)
  {
    var kept := Best(p, n);
    KeptTruncates(p, kept);
    Truncated(kept, OmittedMax(p, kept))
  }

  method BuildRetained(columns: seq<PostingList>, retainedCount: nat) returns (r: seq<Truncated>)
    requires forall t :: 0 <= t < |columns| ==> DistinctDocuments(columns[t])
    ensures |r| == |columns|
    ensures forall t :: 0 <= t < |columns| ==> RetainsBest(r[t], columns[t], retainedCount)
  {
    r := [];
    for t := 0 to |columns|
      invariant |r| == t
      invariant forall s :: 0 <= s < t ==> RetainsBest(r[s], columns[s], retainedCount)
    {
      r := r + [Truncate(columns[t], retainedCount)];
    }
  }

  /** No posting left out is negative. */
  ghost predicate OmitsNoNegative(t: Truncated, p: PostingList) {
    forall x :: x in p && x !in t.kept ==> x.impact >= 0.0
  }

  /** Every posting left out is zero. */
  ghost predicate OmitsOnlyZeros(t: Truncated, p: PostingList) {
    forall x :: x in p && x !in t.kept ==> x.impact == 0.0
  }

  /** What truncation takes from a document is nothing, or the one posting of that document which was left out. */
  ghost predicate IsLoss(t: Truncated, p: PostingList, d: nat, loss: real) {
    loss == 0.0 || exists x :: x in p && x !in t.kept && x.document == d && x.impact == loss
  }

  lemma LossOfDocument(t: Truncated, p: PostingList, d: nat)
    requires DistinctDocuments(p) && Truncates(t, p)
    ensures IsLoss(t, p, d, Impact(p, d) - Impact(t.kept, d))
  {
    if i :| 0 <= i < |p| && p[i].document == d {
      ImpactBeforeAt(p, |p|, i);
      assert p[i] in p;
      if p[i] in t.kept {
        var j :| 0 <= j < |t.kept| && t.kept[j] == p[i];
        ImpactBeforeAt(t.kept, |t.kept|, j);
      } else {
        KeptAbsent(t, p, d, i);
      }
    } else {
      ImpactBeforeAbsent(p, |p|, d);
      forall j | 0 <= j < |t.kept| ensures t.kept[j].document != d {
        assert t.kept[j] in t.kept && t.kept[j] in p;
      }
      ImpactBeforeAbsent(t.kept, |t.kept|, d);
    }
  }

  lemma KeptAbsent(t: Truncated, p: PostingList, d: nat, i: nat)
    requires DistinctDocuments(p) && Truncates(t, p) && i < |p| && p[i].document == d && p[i] !in t.kept
    ensures Impact(t.kept, d) == 0.0
  {
    forall j | 0 <= j < |t.kept| ensures t.kept[j].document != d {
      assert t.kept[j] in t.kept;
      var m :| 0 <= m < |p| && p[m] == t.kept[j];
    }
    ImpactBeforeAbsent(t.kept, |t.kept|, d);
  }

  /** A posting left out is the loss of its document. */
  lemma LossOfPosting(t: Truncated, p: PostingList, x: Posting)
    requires DistinctDocuments(p) && Truncates(t, p) && x in p && x !in t.kept
    ensures Impact(p, x.document) - Impact(t.kept, x.document) == x.impact
  {
    var i :| 0 <= i < |p| && p[i] == x;
    ImpactBeforeAt(p, |p|, i);
    KeptAbsent(t, p, x.document, i);
  }

  /** A truncated list falls short by at most its tail, whatever the signs. */
  lemma KeptImpact(t: Truncated, p: PostingList, d: nat)
    requires DistinctDocuments(p) && Truncates(t, p)
    ensures Impact(p, d) <= Impact(t.kept, d) + t.tail
    ensures OmitsNoNegative(t, p) ==> Impact(t.kept, d) <= Impact(p, d)
    ensures OmitsOnlyZeros(t, p) ==> Impact(t.kept, d) == Impact(p, d)
  {
    LossOfDocument(t, p, d);
  }

  ghost predicate NeverAbove(t: Truncated, p: PostingList) {
    forall d: nat :: Impact(t.kept, d) <= Impact(p, d)
  }

  /** Theorem: truncation raises no document if and only if no posting left out is negative. */
  lemma RaisesNone(t: Truncated, p: PostingList)
    requires DistinctDocuments(p) && Truncates(t, p)
    ensures NeverAbove(t, p) <==> OmitsNoNegative(t, p)
  {
    if OmitsNoNegative(t, p) {
      forall d: nat ensures Impact(t.kept, d) <= Impact(p, d) {
        KeptImpact(t, p, d);
      }
    } else {
      var x :| x in p && x !in t.kept && x.impact < 0.0;
      LossOfPosting(t, p, x);
    }
  }

  // ----- the global threshold -----

  /** `np.concatenate` of the selected columns. */
  function AllImpacts(columns: seq<PostingList>): seq<real> {
    if columns == [] then [] else AllImpacts(columns[..|columns| - 1]) + Impacts(columns[|columns| - 1])
  }

  function AboveOf(threshold: real): real -> bool {
    v => v > threshold
  }

  function FromOf(threshold: real): real -> bool {
    v => v >= threshold
  }

  function StrictOf(threshold: real): Posting -> bool {
    (x: Posting) => x.impact > threshold
  }

  function EligibleOf(threshold: real): Posting -> bool {
    (x: Posting) => x.impact >= threshold
  }

  /** Fewer than `target` values exceed the threshold, and at least `target` reach it. */
  ghost predicate SplitsAt(values: seq<real>, threshold: real, target: nat) {
    CountIf(values, AboveOf(threshold)) < target <= CountIf(values, FromOf(threshold))
  }

  /** `np.partition(values, size - target)[size - target]`. */
  method SelectThreshold(values: seq<real>, target: nat) returns (threshold: real)
    requires 0 < target <= |values|
    ensures SplitsAt(values, threshold, target)
  {
    var key := (x: real) => x;
    var ordered := SortBy(values, key);
    SortByFacts(values, key);
    CountIfSortBy(values, key, FromOf(0.0));
    var offset := |values| - target;
    threshold := ordered[offset];
    CountIfSortBy(values, key, AboveOf(threshold));
    CountIfSortBy(values, key, FromOf(threshold));
    forall i | 0 <= i < |ordered|
      ensures (i <= offset ==> ordered[i] <= threshold) && (offset <= i ==> threshold <= ordered[i])
    {
      assert i < offset ==> key(ordered[i]) <= key(ordered[offset]);
      assert offset < i ==> key(ordered[offset]) <= key(ordered[i]);
    }
    CountIfBounds(ordered, AboveOf(threshold), offset + 1, offset + 1);
    CountIfBounds(ordered, FromOf(threshold), offset, |ordered|);
  }

  /** The postings that reach the threshold, in list order. */
  function Eligible(p: PostingList, threshold: real): (r: PostingList)
    ensures |r| == CountIf(p, EligibleOf(threshold))
    ensures forall x :: x in r <==> x in p && x.impact >= threshold
  {
    if p == [] then []
    else
      var n := |p| - 1;
      LastSplit(p);
      Eligible(p[..n], threshold) + if p[n].impact >= threshold then [p[n]] else []
  }

  lemma {:induction false} EligibleDistinct(p: PostingList, threshold: real)
    requires DistinctDocuments(p)
    ensures DistinctDocuments(Eligible(p, threshold))
  {
    if p != [] {
      var n := |p| - 1;
      EligibleDistinct(p[..n], threshold);
      var front := Eligible(p[..n], threshold);
      forall i | 0 <= i < |front| ensures front[i].document != p[n].document {
        assert front[i] in front;
        EarlierDiffers(p, n, front[i]);
      }
    }
  }

  lemma EarlierDiffers(p: PostingList, n: nat, x: Posting)
    requires DistinctDocuments(p) && n < |p| && x in p[..n]
    ensures x.document != p[n].document
  {
    var j :| 0 <= j < n && p[..n][j] == x;
    assert p[j] == x;
  }

  /** `eligible[order[:max_list_len]]`. */
  function Capped(p: PostingList, threshold: real, limit: nat): (r: PostingList)
    requires DistinctDocuments(p)
    ensures IsBestPart(r, Eligible(p, threshold), limit)
  {
    EligibleDistinct(p, threshold);
    Best(Eligible(p, threshold), limit)
  }

  // ----- totals over the lists -----

  function TotalSize(lists: seq<PostingList>): nat {
    if lists == [] then 0 else TotalSize(lists[..|lists| - 1]) + |lists[|lists| - 1]|
  }

  function TotalStrict(lists: seq<PostingList>, threshold: real): nat {
    if lists == [] then 0
    else TotalStrict(lists[..|lists| - 1], threshold) + CountIf(lists[|lists| - 1], StrictOf(threshold))
  }

  /** What the per-list cap leaves: the sum of `min(eligible, limit)`. */
  function TotalCapped(columns: seq<PostingList>, threshold: real, limit: nat): nat {
    if columns == [] then 0
    else
      TotalCapped(columns[..|columns| - 1], threshold, limit)
      + Min(CountIf(columns[|columns| - 1], EligibleOf(threshold)), limit)
  }

  lemma {:induction false} CountImpacts(p: PostingList, threshold: real)
    ensures CountIf(Impacts(p), AboveOf(threshold)) == CountIf(p, StrictOf(threshold))
  {
    if p != [] {
      CountImpacts(p[..|p| - 1], threshold);
      assert Impacts(p)[..|p| - 1] == Impacts(p[..|p| - 1]);
    }
  }

  lemma {:induction false} CountAllImpacts(columns: seq<PostingList>, threshold: real)
    ensures CountIf(AllImpacts(columns), AboveOf(threshold)) == TotalStrict(columns, threshold)
  {
    if columns != [] {
      var n := |columns| - 1;
      CountAllImpacts(columns[..n], threshold);
      CountIfConcat(AllImpacts(columns[..n]), Impacts(columns[n]), AboveOf(threshold));
      CountImpacts(columns[n], threshold);
    }
  }

  lemma {:induction false} AllImpactsSize(columns: seq<PostingList>)
    ensures |AllImpacts(columns)| == TotalSize(columns)
  {
    if columns != [] { AllImpactsSize(columns[..|columns| - 1]); }
  }

  /** `lists[t]` is `Capped(columns[t])`, list by list. */
  ghost predicate AreCapped(lists: seq<PostingList>, columns: seq<PostingList>, threshold: real, limit: nat) {
    && |lists| == |columns|
    && forall t :: 0 <= t < |columns| ==> IsBestPart(lists[t], Eligible(columns[t], threshold), limit)
  }

  lemma {:induction false} CappedTotals(lists: seq<PostingList>, columns: seq<PostingList>, threshold: real, limit: nat)
    requires AreCapped(lists, columns, threshold, limit)
    ensures TotalSize(lists) == TotalCapped(columns, threshold, limit)
    ensures TotalStrict(lists, threshold) <= TotalStrict(columns, threshold)
  {
    if lists != [] {
      var n := |lists| - 1;
      CappedTotals(lists[..n], columns[..n], threshold, limit);
      PartCountsLess(lists[n], columns[n], threshold);
    }
  }

  lemma PartCountsLess(part: PostingList, p: PostingList, threshold: real)
    requires DistinctDocuments(part) && forall x :: x in part ==> x in p
    ensures CountIf(part, StrictOf(threshold)) <= CountIf(p, StrictOf(threshold))
  {
    CountIfSet(part, StrictOf(threshold));
    CountIfSet(p, StrictOf(threshold));
    PostingSubset(Matching(part, StrictOf(threshold)), Matching(p, StrictOf(threshold)));
  }

  lemma PostingSubset(a: set<Posting>, b: set<Posting>)
    requires a <= b
    ensures |a| <= |b|
  {
    assert b == a + (b - a);
  }

  // ----- trimming to the budget -----

  /** Among postings that reach the threshold, in descending order, the tied ones come last. */
  lemma {:induction false} TiedAtEnd(p: PostingList, threshold: real, i: nat)
    requires Descending(p) && (forall j :: 0 <= j < |p| ==> p[j].impact >= threshold)
    requires CountIf(p, StrictOf(threshold)) <= i < |p|
    ensures p[i].impact == threshold
  {
    if p[i].impact > threshold {
      forall j | 0 <= j < i + 1 ensures StrictOf(threshold)(p[j]) {
        assert j < i ==> p[j].impact >= p[i].impact;
      }
      CountIfBounds(p, StrictOf(threshold), 0, i + 1);
    }
  }

  /** `part` drops from the end of `p` only postings tied with the threshold. */
  ghost predicate TrimsTies(part: PostingList, p: PostingList, threshold: real) {
    part <= p && forall i :: |part| <= i < |p| ==> p[i].impact == threshold
  }

  ghost predicate AllReach(lists: seq<PostingList>, threshold: real) {
    forall t :: 0 <= t < |lists| ==> Reaches(lists[t], threshold)
  }

  ghost predicate Reaches(p: PostingList, threshold: real) {
    Descending(p) && forall j :: 0 <= j < |p| ==> p[j].impact >= threshold
  }

  /** One list gives up as many ties as it has and the excess asks for. */
  method TrimList(p: PostingList, threshold: real, excess: nat) returns (part: PostingList, left: nat)
    requires Reaches(p, threshold)
    ensures TrimsTies(part, p, threshold)
    ensures left == excess - (|p| - |part|)
    ensures |p| - |part| == Min(excess, |p| - CountIf(p, StrictOf(threshold)))
  {
    part, left := p, excess;
    if excess == 0 || |p| == 0 { return; }
    var tied := |p| - CountIf(p, StrictOf(threshold));
    var trim := Min(excess, tied);
    if trim > 0 {
      part := p[..|p| - trim];
      left := excess - trim;
    }
    forall i | |part| <= i < |p| ensures p[i].impact == threshold {
      TiedAtEnd(p, threshold, i);
    }
  }

  ghost predicate AllTrimmed(parts: seq<PostingList>, lists: seq<PostingList>, threshold: real) {
    |parts| == |lists| && forall t :: 0 <= t < |lists| ==> TrimsTies(parts[t], lists[t], threshold)
  }

  lemma TotalSnoc(lists: seq<PostingList>, n: nat, threshold: real)
    requires n < |lists|
    ensures TotalSize(lists[..n + 1]) == TotalSize(lists[..n]) + |lists[n]|
    ensures TotalStrict(lists[..n + 1], threshold)
         == TotalStrict(lists[..n], threshold) + CountIf(lists[n], StrictOf(threshold))
  {
    assert lists[..n + 1][..n] == lists[..n];
  }

  lemma AppendedTotal(parts: seq<PostingList>, p: PostingList)
    ensures TotalSize(parts + [p]) == TotalSize(parts) + |p|
  {
    assert (parts + [p])[..|parts|] == parts;
  }

  /** The trimming loop: ties are given up, list by list, until the excess is gone or no tie is left. */
  method TrimExcess(lists: seq<PostingList>, threshold: real, excess: nat) returns (parts: seq<PostingList>)
    requires AllReach(lists, threshold) && excess + TotalStrict(lists, threshold) <= TotalSize(lists)
    ensures AllTrimmed(parts, lists, threshold)
    ensures TotalSize(parts) == TotalSize(lists) - excess
  {
    parts := [];
    var left := excess;
    for t := 0 to |lists|
      invariant |parts| == t && forall s :: 0 <= s < t ==> TrimsTies(parts[s], lists[s], threshold)
      invariant TotalSize(parts) + excess == TotalSize(lists[..t]) + left
      invariant left > 0 ==> TotalSize(parts) == TotalStrict(lists[..t], threshold)
    {
      TotalSnoc(lists, t, threshold);
      var part;
      part, left := TrimList(lists[t], threshold, left);
      AppendedTotal(parts, part);
      parts := parts + [part];
    }
    assert lists[..|lists|] == lists;
  }

  // ----- the whole variant -----

  datatype Cutoff = NoCutoff | Cutoff(threshold: real)

  function KeptLists(r: seq<Truncated>): (lists: seq<PostingList>)
    ensures |lists| == |r| && forall t :: 0 <= t < |r| ==> lists[t] == r[t].kept
  {
    seq(|r|, t requires 0 <= t < |r| => r[t].kept)
  }

  function Target(columns: seq<PostingList>, retainedCount: nat): nat {
    Min(TotalSize(columns), retainedCount * |columns|)
  }

  /** `max(1, int(retained_count * max_fraction))`. */
  function ListLimit(retainedCount: nat, maxFraction: real): nat
    requires maxFraction > 0.0
  {
    var scaled := (retainedCount as real * maxFraction).Floor;
    if scaled < 1 then 1 else scaled
  }

  /**
   The budget is met exactly: the total is the target, or all that the per-list cap leaves when that is less; each
   kept list is its capped list minus some of the postings tied with the threshold.
   */
  ghost predicate MeetsBudget(
      columns: seq<PostingList>, kept: seq<PostingList>, threshold: real, limit: nat, target: nat)
  {
    && SplitsAt(AllImpacts(columns), threshold, target)
    && TotalSize(kept) == Min(target, TotalCapped(columns, threshold, limit))
    && |kept| == |columns|
    && forall t :: 0 <= t < |columns| ==> KeepsAllButTies(kept[t], columns[t], threshold, limit)
  }

  ghost predicate KeepsAllButTies(kept: PostingList, p: PostingList, threshold: real, limit: nat) {
    exists capped: PostingList ::
      IsBestPart(capped, Eligible(p, threshold), limit) && TrimsTies(kept, capped, threshold)
  }

  /** A posting strictly above the threshold is lost only to the list cap, which its betters then fill. */
  lemma StrictLossIsCap(kept: PostingList, p: PostingList, threshold: real, limit: nat, x: Posting)
    requires KeepsAllButTies(kept, p, threshold, limit)
    requires x in p && x.impact > threshold && x !in kept
    ensures |kept| == limit && forall y :: y in kept ==> y.impact >= x.impact
  {
    var capped: PostingList :| IsBestPart(capped, Eligible(p, threshold), limit) && TrimsTies(kept, capped, threshold);
    assert x in Eligible(p, threshold);
    if x in capped {
      TrimmedAreTied(kept, capped, threshold, x);
      assert false;
    }
    NotInPart(capped, Eligible(p, threshold), limit, x);
    assert forall y :: y in capped ==> y.impact >= x.impact;
    NothingTrimmed(kept, capped, threshold);
  }

  lemma TrimmedAreTied(kept: PostingList, capped: PostingList, threshold: real, x: Posting)
    requires TrimsTies(kept, capped, threshold) && x in capped && x !in kept
    ensures x.impact == threshold
  {
    var i :| 0 <= i < |capped| && capped[i] == x;
    assert forall m :: 0 <= m < |kept| ==> kept[m] == capped[m] && kept[m] in kept;
  }

  lemma NothingTrimmed(kept: PostingList, capped: PostingList, threshold: real)
    requires TrimsTies(kept, capped, threshold) && forall y :: y in capped ==> y.impact > threshold
    ensures kept == capped
  {
    if capped != [] {
      assert capped[|capped| - 1] in capped;
    }
  }

  /** A best part that leaves something out is full. */
  lemma NotInPart(part: PostingList, p: PostingList, limit: nat, x: Posting)
    requires IsBestPart(part, p, limit) && x in p && x !in part
    ensures |part| == limit
  {
    ElementsSize(part);
    ElementsSize(p);
    assert x !in Elements(part);
    assert |Elements(part) + {x}| == |Elements(part)| + 1;
    PostingSubset(Elements(part) + {x}, Elements(p));
  }

  ghost function Elements(p: PostingList): set<Posting> {
    set x | x in p
  }

  lemma {:induction false} ElementsSize(p: PostingList)
    ensures |Elements(p)| <= |p|
    ensures DistinctDocuments(p) ==> |Elements(p)| == |p|
  {
    if p == [] {
      assert Elements(p) == {};
    } else {
      var n := |p| - 1;
      ElementsSize(p[..n]);
      LastSplit(p);
      assert Elements(p) == Elements(p[..n]) + {p[n]};
    }
  }

  method CapList(p: PostingList, threshold: real, limit: nat) returns (capped: PostingList)
    requires DistinctDocuments(p)
    ensures IsBestPart(capped, Eligible(p, threshold), limit) && Reaches(capped, threshold)
  {
    capped := Capped(p, threshold, limit);
    forall j | 0 <= j < |capped| ensures capped[j].impact >= threshold {
      assert capped[j] in capped;
    }
  }

  method CapLists(columns: seq<PostingList>, threshold: real, limit: nat) returns (lists: seq<PostingList>)
    requires forall t :: 0 <= t < |columns| ==> DistinctDocuments(columns[t])
    ensures AreCapped(lists, columns, threshold, limit) && AllReach(lists, threshold)
  {
    lists := [];
    for t := 0 to |columns|
      invariant |lists| == t
      invariant forall s :: 0 <= s < t ==> IsBestPart(lists[s], Eligible(columns[s], threshold), limit)
      invariant forall s :: 0 <= s < t ==> Reaches(lists[s], threshold)
    {
      var capped := CapList(columns[t], threshold, limit);
      lists := lists + [capped];
    }
  }

  method WithTails(columns: seq<PostingList>, lists: seq<PostingList>) returns (r: seq<Truncated>)
    requires |lists| == |columns|
    requires forall t :: 0 <= t < |columns| ==>
      DistinctDocuments(lists[t]) && forall x :: x in lists[t] ==> x in columns[t]
    ensures KeptLists(r) == lists
    ensures forall t :: 0 <= t < |columns| ==> Truncates(r[t], columns[t])
  {
    r := [];
    for t := 0 to |columns|
      invariant |r| == t
      invariant forall s :: 0 <= s < t ==> r[s].kept == lists[s] && Truncates(r[s], columns[s])
    {
      KeptTruncates(columns[t], lists[t]);
      r := r + [Truncated(lists[t], OmittedMax(columns[t], lists[t]))];
    }
  }

  lemma TrimmedPart(part: PostingList, capped: PostingList, p: PostingList, threshold: real, limit: nat)
    requires IsBestPart(capped, Eligible(p, threshold), limit) && TrimsTies(part, capped, threshold)
    ensures DistinctDocuments(part) && (forall x :: x in part ==> x in p)
    ensures KeepsAllButTies(part, p, threshold, limit)
  {
    forall x | x in part ensures x in p {
      var i :| 0 <= i < |part| && part[i] == x;
      assert capped[i] == x && x in capped;
    }
  }

  /** Seismic-style global threshold pruning of the selected columns. */
  method BuildGlobalThreshold(columns: seq<PostingList>, retainedCount: nat, maxFraction: real)
    returns (r: seq<Truncated>, cutoff: Cutoff)
    requires maxFraction > 0.0 && forall t :: 0 <= t < |columns| ==> DistinctDocuments(columns[t])
    ensures |r| == |columns|
    ensures cutoff.NoCutoff? <==> Target(columns, retainedCount) == 0
    ensures cutoff.NoCutoff? ==> forall t :: 0 <= t < |columns| ==> r[t] == Truncated([], 0.0)
    ensures cutoff.Cutoff? ==> forall t :: 0 <= t < |columns| ==> Truncates(r[t], columns[t])
    ensures cutoff.Cutoff? ==> MeetsBudget(
      columns, KeptLists(r), cutoff.threshold, ListLimit(retainedCount, maxFraction), Target(columns, retainedCount))
  {
    var target, limit := Target(columns, retainedCount), ListLimit(retainedCount, maxFraction);
    if target == 0 {
      r := seq(|columns|, _ => Truncated([], 0.0));
      return r, NoCutoff;
    }
    AllImpactsSize(columns);
    var threshold := SelectThreshold(AllImpacts(columns), target);
    var capped := CapLists(columns, threshold, limit);
    CappedTotals(capped, columns, threshold, limit);
    CountAllImpacts(columns, threshold);
    var total := TotalSize(capped);
    var excess := if total > target then total - target else 0;
    StrictWithinTotal(capped, threshold);
    var parts := TrimExcess(capped, threshold, excess);
    forall t | 0 <= t < |columns|
      ensures DistinctDocuments(parts[t]) && (forall x :: x in parts[t] ==> x in columns[t])
      ensures KeepsAllButTies(parts[t], columns[t], threshold, limit)
    {
      TrimmedPart(parts[t], capped[t], columns[t], threshold, limit);
    }
    r := WithTails(columns, parts);
    cutoff := Cutoff(threshold);
  }

  lemma {:induction false} StrictWithinTotal(lists: seq<PostingList>, threshold: real)
    ensures TotalStrict(lists, threshold) <= TotalSize(lists)
  {
    if lists != [] { StrictWithinTotal(lists[..|lists| - 1], threshold); }
  }

  /**
   Without a budget nothing is kept and the tails read zero, so the tails are right if and only if no impact is
   positive; with a positive count that can only be because there was nothing to drop.
   */
  lemma NoBudgetTails(columns: seq<PostingList>, retainedCount: nat)
    requires Target(columns, retainedCount) == 0
    ensures (forall t :: 0 <= t < |columns| ==> Truncates(Truncated([], 0.0), columns[t])) <==>
      (forall t, i :: 0 <= t < |columns| && 0 <= i < |columns[t]| ==> columns[t][i].impact <= 0.0)
    ensures retainedCount > 0 ==> forall t :: 0 <= t < |columns| ==> columns[t] == []
  {
    if forall t :: 0 <= t < |columns| ==> Truncates(Truncated([], 0.0), columns[t]) {
      forall t, i | 0 <= t < |columns| && 0 <= i < |columns[t]| ensures columns[t][i].impact <= 0.0 {
        assert Truncates(Truncated([], 0.0), columns[t]) && columns[t][i] in columns[t];
      }
    }
    if retainedCount > 0 {
      ProductZero(retainedCount, |columns|);
      forall t | 0 <= t < |columns| ensures columns[t] == [] {
        ListWithinTotal(columns, t);
      }
    }
  }

  lemma ProductZero(a: nat, b: nat)
    requires a > 0
    ensures a * b == 0 ==> b == 0
  {
  }

  lemma {:induction false} ListWithinTotal(lists: seq<PostingList>, t: nat)
    requires t < |lists|
    ensures |lists[t]| <= TotalSize(lists)
  {
    if t < |lists| - 1 { ListWithinTotal(lists[..|lists| - 1], t); }
  }

  // ----- whole scores -----

  datatype LossyTerm = LossyTerm(weight: real, column: PostingList, truncated: Truncated)

  ghost predicate AllTruncated(terms: seq<LossyTerm>) {
    forall t :: 0 <= t < |terms| ==>
      DistinctDocuments(terms[t].column) && Truncates(terms[t].truncated, terms[t].column)
  }

  function TermExact(t: LossyTerm, d: nat): real {
    t.weight * Impact(t.column, d)
  }

  function TermKept(t: LossyTerm, d: nat): real {
    t.weight * Impact(t.truncated.kept, d)
  }

  function TermTail(t: LossyTerm): real {
    t.weight * t.truncated.tail
  }

  function ExactSum(terms: seq<LossyTerm>, d: nat): real {
    if terms == [] then 0.0 else TermExact(terms[0], d) + ExactSum(terms[1..], d)
  }

  function KeptSum(terms: seq<LossyTerm>, d: nat): real {
    if terms == [] then 0.0 else TermKept(terms[0], d) + KeptSum(terms[1..], d)
  }

  /** `selected_queries @ tail_maxima`. */
  function TailBound(terms: seq<LossyTerm>): real {
    if terms == [] then 0.0 else TermTail(terms[0]) + TailBound(terms[1..])
  }

  lemma Scaled(w: real, x: real, y: real)
    requires x <= y
    ensures w >= 0.0 ==> w * x <= w * y
    ensures w < 0.0 ==> w * x >= w * y
  {
    assert w * y == w * x + w * (y - x);
    assert w >= 0.0 ==> w * (y - x) >= 0.0;
    assert w < 0.0 ==> (-w) * (y - x) >= 0.0;
  }

  lemma ScaledSum(w: real, x: real, y: real)
    ensures w * (x + y) == w * x + w * y
  {
  }

  /** The tail of a term bounds its loss: its weight is not negative, or it lost nothing. */
  ghost predicate TailCovers(t: LossyTerm) {
    t.weight >= 0.0 || OmitsOnlyZeros(t.truncated, t.column)
  }

  /** The term is never worth more truncated: nothing negative was dropped. */
  ghost predicate DropsNoNegative(t: LossyTerm) {
    t.weight >= 0.0 && OmitsNoNegative(t.truncated, t.column)
  }

  lemma NoTail(t: Truncated, p: PostingList)
    requires Truncates(t, p) && OmitsOnlyZeros(t, p)
    ensures t.tail == 0.0
  {
  }

  lemma TermGap(t: LossyTerm, d: nat)
    requires DistinctDocuments(t.column) && Truncates(t.truncated, t.column)
    ensures TailCovers(t) ==> TermExact(t, d) <= TermKept(t, d) + TermTail(t)
    ensures DropsNoNegative(t) ==> TermKept(t, d) <= TermExact(t, d)
  {
    var w, kept, exact, tail := t.weight, Impact(t.truncated.kept, d), Impact(t.column, d), t.truncated.tail;
    KeptImpact(t.truncated, t.column, d);
    ScaledSum(w, kept, tail);
    Scaled(w, exact, kept + tail);
    if DropsNoNegative(t) { Scaled(w, kept, exact); }
    if OmitsOnlyZeros(t.truncated, t.column) { NoTail(t.truncated, t.column); }
  }

  /**
   Theorem: for either strategy and impacts of any sign, an approximate score falls short of the exact one by at most
   the sum of weight times tail maximum, and where nothing negative was dropped it never exceeds the exact one. The
   unselected part of a score is the same on both sides.
   */
  lemma {:induction false} OmittedScoreBound(terms: seq<LossyTerm>, d: nat)
    requires AllTruncated(terms)
    ensures (forall t :: 0 <= t < |terms| ==> TailCovers(terms[t])) ==>
      ExactSum(terms, d) <= KeptSum(terms, d) + TailBound(terms)
    ensures (forall t :: 0 <= t < |terms| ==> DropsNoNegative(terms[t])) ==>
      KeptSum(terms, d) <= ExactSum(terms, d)
  {
    if terms != [] {
      TermGap(terms[0], d);
      OmittedScoreBound(terms[1..], d);
      assert (forall t :: 0 <= t < |terms| ==> TailCovers(terms[t])) ==>
        TailCovers(terms[0]) && forall t :: 0 <= t < |terms[1..]| ==> TailCovers(terms[1..][t]);
      assert (forall t :: 0 <= t < |terms| ==> DropsNoNegative(terms[t])) ==>
        DropsNoNegative(terms[0]) && forall t :: 0 <= t < |terms[1..]| ==> DropsNoNegative(terms[1..][t]);
    }
  }

  // ----- when the bounds hold for every query -----

  /** A query of nonnegative weights over the truncated columns. */
  ghost predicate QueryOver(terms: seq<LossyTerm>, columns: seq<PostingList>, parts: seq<Truncated>) {
    |columns| == |parts| && forall i :: 0 <= i < |terms| ==> TermOver(terms[i], columns, parts)
  }

  ghost predicate TermOver(term: LossyTerm, columns: seq<PostingList>, parts: seq<Truncated>)
    requires |columns| == |parts|
  {
    term.weight >= 0.0 &&
    exists t :: 0 <= t < |columns| && term.column == columns[t] && term.truncated == parts[t]
  }

  ghost predicate NeverExceeds(columns: seq<PostingList>, parts: seq<Truncated>) {
    forall terms, d: nat :: QueryOver(terms, columns, parts) ==> KeptSum(terms, d) <= ExactSum(terms, d)
  }

  ghost predicate AllTruncate(parts: seq<Truncated>, columns: seq<PostingList>) {
    && |parts| == |columns|
    && forall t :: 0 <= t < |columns| ==> DistinctDocuments(columns[t]) && Truncates(parts[t], columns[t])
  }

  lemma SingleTerm(x: Truncated, p: PostingList, d: nat)
    ensures KeptSum([LossyTerm(1.0, p, x)], d) == Impact(x.kept, d)
    ensures ExactSum([LossyTerm(1.0, p, x)], d) == Impact(p, d)
  {
    var terms := [LossyTerm(1.0, p, x)];
    assert terms[1..] == [];
  }

  lemma OverDropsNone(terms: seq<LossyTerm>, columns: seq<PostingList>, parts: seq<Truncated>, d: nat)
    requires AllTruncate(parts, columns) && QueryOver(terms, columns, parts)
    requires forall t :: 0 <= t < |columns| ==> OmitsNoNegative(parts[t], columns[t])
    ensures KeptSum(terms, d) <= ExactSum(terms, d)
  {
    forall i | 0 <= i < |terms|
      ensures DistinctDocuments(terms[i].column) && Truncates(terms[i].truncated, terms[i].column)
      ensures DropsNoNegative(terms[i])
    {
      assert TermOver(terms[i], columns, parts);
    }
    OmittedScoreBound(terms, d);
  }

  /**
   Theorem: no query of nonnegative weights ranks a document above its exact score if and only if no list dropped a
   negative posting.
   */
  lemma NeverExceedsExactly(columns: seq<PostingList>, parts: seq<Truncated>)
    requires AllTruncate(parts, columns)
    ensures NeverExceeds(columns, parts) <==>
      forall t :: 0 <= t < |columns| ==> OmitsNoNegative(parts[t], columns[t])
  {
    if NeverExceeds(columns, parts) {
      forall t | 0 <= t < |columns| ensures OmitsNoNegative(parts[t], columns[t]) {
        var terms := [LossyTerm(1.0, columns[t], parts[t])];
        assert TermOver(terms[0], columns, parts);
        forall d: nat ensures Impact(parts[t].kept, d) <= Impact(columns[t], d) {
          SingleTerm(parts[t], columns[t], d);
          assert QueryOver(terms, columns, parts);
        }
        RaisesNone(parts[t], columns[t]);
      }
    }
    if forall t :: 0 <= t < |columns| ==> OmitsNoNegative(parts[t], columns[t]) {
      forall terms, d: nat | QueryOver(terms, columns, parts) ensures KeptSum(terms, d) <= ExactSum(terms, d) {
        OverDropsNone(terms, columns, parts, d);
      }
    }
  }

  // ----- one query over all documents -----

  /** The exact scores, `rests` being the unselected parts. */
  function ExactScores(terms: seq<LossyTerm>, rests: seq<real>): (r: seq<real>)
    ensures |r| == |rests| && forall d :: 0 <= d < |r| ==> r[d] == rests[d] + ExactSum(terms, d)
  {
    seq(|rests|, d requires 0 <= d < |rests| => rests[d] + ExactSum(terms, d))
  }

  function ApproximateScores(terms: seq<LossyTerm>, rests: seq<real>): (r: seq<real>)
    ensures |r| == |rests| && forall d :: 0 <= d < |r| ==> r[d] == rests[d] + KeptSum(terms, d)
  {
    seq(|rests|, d requires 0 <= d < |rests| => rests[d] + KeptSum(terms, d))
  }

  /** Every tail covers its loss and nothing negative was dropped. */
  ghost predicate Faithful(terms: seq<LossyTerm>) {
    forall t :: 0 <= t < |terms| ==> TailCovers(terms[t]) && DropsNoNegative(terms[t])
  }

  /** Theorem: documents whose exact scores differ by more than the tail bound are never swapped. */
  lemma TruncationKeepsGaps(terms: seq<LossyTerm>, rests: seq<real>)
    requires AllTruncated(terms) && Faithful(terms)
    ensures KeepsGaps(ExactScores(terms, rests), ApproximateScores(terms, rests), TailBound(terms))
  {
    var exact, approximate := ExactScores(terms, rests), ApproximateScores(terms, rests);
    forall d, c | 0 <= d < |exact| && 0 <= c < |exact| && exact[d] - exact[c] > TailBound(terms)
      ensures approximate[d] > approximate[c]
    {
      OmittedScoreBound(terms, d);
      OmittedScoreBound(terms, c);
    }
  }

  datatype Strategy = PerTerm | GlobalThreshold(maxFraction: real)

  /** The truncated lists of either strategy; with a positive count their tails are always right. */
  method BuildParts(columns: seq<PostingList>, retainedCount: nat, strategy: Strategy) returns (parts: seq<Truncated>)
    requires retainedCount > 0 && (strategy.GlobalThreshold? ==> strategy.maxFraction > 0.0)
    requires forall t :: 0 <= t < |columns| ==> DistinctDocuments(columns[t])
    ensures AllTruncate(parts, columns)
  {
    match strategy
    case PerTerm =>
      parts := BuildRetained(columns, retainedCount);
    case GlobalThreshold(maxFraction) =>
      var cutoff;
      parts, cutoff := BuildGlobalThreshold(columns, retainedCount, maxFraction);
      if cutoff.NoCutoff? { NoBudgetTails(columns, retainedCount); }
  }

  /** The terms of a query: each selected column with its weight and what was kept of it. */
  function QueryTerms(weights: seq<real>, columns: seq<PostingList>, parts: seq<Truncated>): (r: seq<LossyTerm>)
    requires |weights| == |columns| == |parts|
    ensures |r| == |columns|
    ensures forall t :: 0 <= t < |r| ==> r[t] == LossyTerm(weights[t], columns[t], parts[t])
  {
    seq(|columns|, t requires 0 <= t < |columns| => LossyTerm(weights[t], columns[t], parts[t]))
  }

  /**
   Theorem: one query over the truncated lists. Where weights and dropped postings are not negative and the k-th best
   score is ahead of the one at the depth of the candidates by more than the reported bound, every top document is a
   candidate and the completed list has the reference scores.
   */
  method EvaluateRetained(
      columns: seq<PostingList>, weights: seq<real>, rests: seq<real>, retainedCount: nat, strategy: Strategy, k: nat,
      multiplier: nat)
    returns (covered: nat, completed: seq<nat>, terms: seq<LossyTerm>, top: seq<nat>, candidates: seq<nat>)
    requires retainedCount > 0 && (strategy.GlobalThreshold? ==> strategy.maxFraction > 0.0)
    requires |weights| == |columns| && k > 0 && multiplier > 0
    requires forall t :: 0 <= t < |columns| ==> DistinctDocuments(columns[t])
    ensures AllTruncated(terms) && |terms| == |columns|
    ensures forall t :: 0 <= t < |terms| ==> terms[t].weight == weights[t] && terms[t].column == columns[t]
    ensures Reports(
      ExactScores(terms, rests), ApproximateScores(terms, rests), k, Depth(k, multiplier, |rests|), top, candidates,
      covered, completed)
    ensures Faithful(terms) && Clears(ExactScores(terms, rests), k, Depth(k, multiplier, |rests|), TailBound(terms)) ==>
      covered == |top| && SameScores(ExactScores(terms, rests), completed, TopK(ExactScores(terms, rests), k))
  {
    var parts := BuildParts(columns, retainedCount, strategy);
    terms := QueryTerms(weights, columns, parts);
    covered, completed, top, candidates := EvaluateTerms(terms, rests, k, multiplier);
  }

  method EvaluateTerms(terms: seq<LossyTerm>, rests: seq<real>, k: nat, multiplier: nat)
    returns (covered: nat, completed: seq<nat>, top: seq<nat>, candidates: seq<nat>)
    requires AllTruncated(terms) && k > 0 && multiplier > 0
    ensures Reports(
      ExactScores(terms, rests), ApproximateScores(terms, rests), k, Depth(k, multiplier, |rests|), top, candidates,
      covered, completed)
    ensures Faithful(terms) && Clears(ExactScores(terms, rests), k, Depth(k, multiplier, |rests|), TailBound(terms)) ==>
      covered == |top| && SameScores(ExactScores(terms, rests), completed, TopK(ExactScores(terms, rests), k))
  {
    var exact, approximate := ExactScores(terms, rests), ApproximateScores(terms, rests);
    covered, completed, top, candidates := EvaluateQuery(approximate, exact, k, multiplier);
    if Faithful(terms) && Clears(exact, k, Depth(k, multiplier, |rests|), TailBound(terms)) {
      TruncationKeepsGaps(terms, rests);
      ClearedIsExact(
        exact, approximate, TailBound(terms), k, Depth(k, multiplier, |rests|), top, candidates, covered, completed);
    }
  }
}
