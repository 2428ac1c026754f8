/**
 Lossy postings around a baseline. One number per term replaces every value within a tolerance of it, and the rest
 become exceptions; the baseline is chosen to cover the most documents, a missing one counting as zero.
 */
module CenteredExceptions {
  import opened Arithmetic
  import opened Results
  import opened Ranking
  import opened Completion
  import opened Tables
  import opened Postings

  // ----- coverage -----

  predicate Within(v: real, baseline: real, tolerance: real) {
    baseline - tolerance <= v <= baseline + tolerance
  }

  function WithinOf(baseline: real, tolerance: real): real -> bool {
    v => Within(v, baseline, tolerance)
  }

  function CountWithin(values: seq<real>, baseline: real, tolerance: real): (c: nat)
    ensures c <= |values|
  {
    CountIf(values, WithinOf(baseline, tolerance))
  }

  /** The documents a baseline covers, of `documentCount` in all. */
  function Coverage(values: seq<real>, documentCount: nat, baseline: real, tolerance: real): nat
    requires |values| <= documentCount
  {
    CountWithin(values, baseline, tolerance)
    + if Within(0.0, baseline, tolerance) then documentCount - |values| else 0
  }

  ghost predicate AscendingValues(s: seq<real>) {
    forall i, j :: 0 <= i < j < |s| ==> s[i] <= s[j]
  }

  // ----- windows of the ordered values -----

  /** `best` is at least the size of every window among the first `n` values that a tolerance can span. */
  ghost predicate BeatsWindows(s: seq<real>, n: nat, tolerance: real, best: nat)
    requires n <= |s|
  {
    forall l, r :: 0 <= l <= r < n && s[r] - s[l] <= 2.0 * tolerance ==> r - l + 1 <= best
  }

  lemma FirstWithin(s: seq<real>, r: nat, b: real, t: real) returns (first: nat)
    requires r < |s| && Within(s[r], b, t)
    ensures first <= r && Within(s[first], b, t) && forall i :: 0 <= i < first ==> !Within(s[i], b, t)
  {
    first := 0;
    while !Within(s[first], b, t)
      invariant first <= r && forall i :: 0 <= i < first ==> !Within(s[i], b, t)
      decreases r - first
    {
      first := first + 1;
    }
  }

  /** No baseline covers more of the stored values than the largest window. */
  lemma {:induction false} WindowsBoundCount(s: seq<real>, b: real, t: real, best: nat)
    requires AscendingValues(s) && t >= 0.0 && BeatsWindows(s, |s|, t, best)
    ensures CountWithin(s, b, t) <= best
  {
    if s != [] {
      var n := |s| - 1;
      if Within(s[n], b, t) {
        var first := FirstWithin(s, n, b, t);
        CountIfBounds(s, WithinOf(b, t), first, first);
        assert s[n] - s[first] <= 2.0 * t;
      } else {
        WindowsBoundCount(s[..n], b, t, best);
      }
    }
  }

  function AtMostOf(x: real): real -> bool {
    v => v <= x
  }

  /** `np.searchsorted(s, x, side='right')`. */
  method SearchSortedRight(s: seq<real>, x: real) returns (n: nat)
    requires AscendingValues(s)
    ensures n == CountIf(s, AtMostOf(x))
  {
    n := 0;
    while n < |s| && s[n] <= x
      invariant n <= |s| && forall i :: 0 <= i < n ==> s[i] <= x
    {
      n := n + 1;
    }
    CountIfPrefix(s, AtMostOf(x), n);
    CountIfBounds(s, AtMostOf(x), 0, n);
  }

  /** In ascending order the values up to `x` come first. */
  lemma {:induction false} AscendingCount(s: seq<real>, x: real)
    requires AscendingValues(s)
    ensures forall i :: 0 <= i < CountIf(s, AtMostOf(x)) ==> s[i] <= x
    ensures forall i :: CountIf(s, AtMostOf(x)) <= i < |s| ==> s[i] > x
  {
    if s != [] { AscendingCount(s[..|s| - 1], x); }
  }

  lemma SortedAscends(values: seq<real>)
    ensures AscendingValues(SortBy(values, (x: real) => x))
    ensures forall x :: x in SortBy(values, (x: real) => x) <==> x in values
  {
    var key := (x: real) => x;
    SortByFacts(values, key);
    SortByMembers(values, key);
    var s := SortBy(values, key);
    forall i, j | 0 <= i < j < |s| ensures s[i] <= s[j] {
      assert key(s[i]) <= key(s[j]);
    }
  }

  /** A baseline that covers zero covers nothing above twice the tolerance. */
  lemma ZeroWindow(s: seq<real>, zeroEnd: nat, b: real, t: real)
    requires t >= 0.0 && zeroEnd <= |s| && forall i :: zeroEnd <= i < |s| ==> s[i] > 2.0 * t
    ensures Within(0.0, b, t) ==> CountWithin(s, b, t) <= zeroEnd
  {
    if Within(0.0, b, t) { CountIfPrefix(s, WithinOf(b, t), zeroEnd); }
  }

  ghost predicate OutOfReach(s: seq<real>, left: nat, right: nat, tolerance: real)
    requires left <= right < |s|
  {
    forall l :: 0 <= l < left ==> s[right] - s[l] > 2.0 * tolerance
  }

  /** Moves the left end of the window up until the window is no wider than twice the tolerance. */
  method AdvanceLeft(s: seq<real>, left: nat, right: nat, tolerance: real) returns (next: nat)
    requires left <= right < |s| && tolerance >= 0.0 && OutOfReach(s, left, right, tolerance)
    ensures left <= next <= right && OutOfReach(s, next, right, tolerance)
    ensures s[right] - s[next] <= 2.0 * tolerance
  {
    next := left;
    while s[right] - s[next] > 2.0 * tolerance
      invariant left <= next <= right && OutOfReach(s, next, right, tolerance)
      decreases right - next
    {
      next := next + 1;
    }
  }

  /** Among the first `n` values, no window of size `best` has a smaller middle than `baseline`. */
  ghost predicate LeastMiddle(s: seq<real>, n: nat, tolerance: real, best: nat, baseline: real)
    requires n <= |s|
  {
    forall l, r :: 0 <= l <= r < n && s[r] - s[l] <= 2.0 * tolerance && r - l + 1 == best ==>
      baseline <= Middle(s, l, r)
  }

  lemma SweepStep(
      s: seq<real>, left: nat, right: nat, tolerance: real, best: nat, baseline: real, best': nat, baseline': real)
    requires left <= right < |s| && OutOfReach(s, left, right, tolerance)
    requires BeatsWindows(s, right, tolerance, best) && LeastMiddle(s, right, tolerance, best, baseline)
    requires best' >= best && best' >= right - left + 1
    requires best' == best ==> baseline' <= baseline
    requires best' == right - left + 1 ==> baseline' <= Middle(s, left, right)
    ensures BeatsWindows(s, right + 1, tolerance, best') && LeastMiddle(s, right + 1, tolerance, best', baseline')
  {
    forall l | 0 <= l <= right && s[right] - s[l] <= 2.0 * tolerance ensures l >= left {
    }
  }

  /** A window's middle covers the window. */
  lemma MiddleCovers(s: seq<real>, documentCount: nat, left: nat, right: nat, tolerance: real)
    requires AscendingValues(s) && left <= right < |s| <= documentCount
    requires s[right] - s[left] <= 2.0 * tolerance
    ensures Coverage(s, documentCount, Middle(s, left, right), tolerance) >= right - left + 1
  {
    var middle := Middle(s, left, right);
    forall i | left <= i < right + 1 ensures Within(s[i], middle, tolerance) {
      assert i < right ==> s[i] <= s[right];
      assert left < i ==> s[left] <= s[i];
    }
    CountIfBounds(s, WithinOf(middle, tolerance), left, right + 1);
  }

  function Middle(s: seq<real>, l: nat, r: nat): real
    requires l <= r < |s|
  {
    (s[l] + s[r]) * 0.5
  }

  /** The baseline is the middle of a window of `best` values that the sweep preferred to where it started. */
  ghost predicate FromWindow(s: seq<real>, n: nat, tolerance: real, start: nat, baseline: real, best: nat)
    requires n <= |s|
  {
    exists l: nat, r: nat :: l <= r < n && s[r] - s[l] <= 2.0 * tolerance && r - l + 1 == best
      && baseline == Middle(s, l, r) && (best > start || baseline < tolerance)
  }

  /** The sweep's result: where it started, or the best window with the least middle if that is preferable. */
  ghost predicate Swept(s: seq<real>, n: nat, tolerance: real, start: nat, baseline: real, best: nat)
    requires n <= |s|
  {
    && best >= start && BeatsWindows(s, n, tolerance, best) && LeastMiddle(s, n, tolerance, best, baseline)
    && (FromWindow(s, n, tolerance, start, baseline, best) || (best == start && baseline == tolerance))
  }

  /** The sweep of `best_baseline` over the ordered values. */
  method BestWindow(s: seq<real>, tolerance: real, start: nat) returns (baseline: real, best: nat)
    requires AscendingValues(s) && tolerance >= 0.0
    ensures Swept(s, |s|, tolerance, start, baseline, best)
  {
    baseline, best := tolerance, start;
    var left: nat := 0;
    for right := 0 to |s|
      invariant left <= right && (right < |s| ==> OutOfReach(s, left, right, tolerance))
      invariant Swept(s, right, tolerance, start, baseline, best)
    {
      left := AdvanceLeft(s, left, right, tolerance);
      var coverage := right - left + 1;
      var middle := Middle(s, left, right);
      ghost var best0, baseline0 := best, baseline;
      if coverage > best || (coverage == best && middle < baseline) {
        best, baseline := coverage, middle;
      }
      SweepStep(s, left, right, tolerance, best0, baseline0, best, baseline);
      OriginStep(s, left, right, tolerance, start, best0, baseline0, best, baseline);
      assert right + 1 < |s| ==> s[right] <= s[right + 1];
    }
  }

  lemma OriginStep(
      s: seq<real>, left: nat, right: nat, tolerance: real, start: nat, best: nat, baseline: real, best': nat,
      baseline': real)
    requires left <= right < |s| && s[right] - s[left] <= 2.0 * tolerance
    requires Swept(s, right, tolerance, start, baseline, best)
    requires (best' == best && baseline' == baseline)
      || (best' == right - left + 1 && baseline' == Middle(s, left, right)
          && (best' > best || (best' == best && baseline' < baseline)))
    ensures FromWindow(s, right + 1, tolerance, start, baseline', best') || (best' == start && baseline' == tolerance)
  {
    if best' == best && baseline' == baseline {
      if FromWindow(s, right, tolerance, start, baseline, best) {
        var l: nat, r: nat :| l <= r < right && s[r] - s[l] <= 2.0 * tolerance && r - l + 1 == best
          && baseline == Middle(s, l, r) && (best > start || baseline < tolerance);
        assert l <= r < right + 1;
      }
    } else {
      assert left <= right < right + 1;
    }
  }

  /** `np.sort(values)`. */
  function OrderedValues(values: seq<real>): seq<real> {
    SortBy(values, (x: real) => x)
  }

  /** `(baseline, coverage)` is what the documentation of `best_baseline` promises. */
  ghost predicate IsBestBaseline(values: seq<real>, documentCount: nat, tolerance: real, baseline: real, coverage: nat)
    requires |values| <= documentCount
  {
    && Coverage(values, documentCount, baseline, tolerance) == coverage
    && forall b: real :: Coverage(values, documentCount, b, tolerance) <= coverage
  }

  /** Where the sweep starts: the missing documents and every value up to twice the tolerance. */
  function StartCount(values: seq<real>, documentCount: nat, tolerance: real): nat
    requires |values| <= documentCount
  {
    documentCount - |values| + CountIf(values, AtMostOf(2.0 * tolerance))
  }

  /** What `best_baseline` returns on any values. */
  ghost predicate IsSwept(values: seq<real>, documentCount: nat, tolerance: real, baseline: real, coverage: nat)
    requires |values| <= documentCount
  {
    var s := OrderedValues(values);
    Swept(s, |s|, tolerance, StartCount(values, documentCount, tolerance), baseline, coverage)
  }

  /** Some window is preferable to where the sweep starts: larger, or as large with its middle below the tolerance. */
  ghost predicate WindowWins(values: seq<real>, documentCount: nat, tolerance: real)
    requires |values| <= documentCount
  {
    var s, start := OrderedValues(values), StartCount(values, documentCount, tolerance);
    exists l: nat, r: nat :: l <= r < |s| && s[r] - s[l] <= 2.0 * tolerance
      && (r - l + 1 > start || (r - l + 1 == start && Middle(s, l, r) < tolerance))
  }

  /** When the sweep does what it promises. */
  ghost predicate IsSound(values: seq<real>, documentCount: nat, tolerance: real)
    requires |values| <= documentCount
  {
    NonNegative(values) || WindowWins(values, documentCount, tolerance)
  }

  /** The baseline came from a window of the ordered values. */
  ghost predicate CameFromWindow(values: seq<real>, documentCount: nat, tolerance: real, baseline: real, best: nat)
    requires |values| <= documentCount
  {
    var s := OrderedValues(values);
    FromWindow(s, |s|, tolerance, StartCount(values, documentCount, tolerance), baseline, best)
  }

  /**
   Theorem: the returned coverage is the largest any baseline reaches, and the returned baseline reaches it, if and
   only if no value is negative or some window wins; of the windows of that size none has a smaller middle.
   */
  method BestBaseline(values: seq<real>, documentCount: int, tolerance: real) returns (r: Result<(real, nat)>)
    requires |values| <= documentCount || documentCount <= 0
    ensures r.Error? <==> documentCount <= 0 || tolerance < 0.0
    ensures r.Ok? ==> IsSwept(values, documentCount, tolerance, r.value.0, r.value.1)
    ensures r.Ok? ==>
      (IsBestBaseline(values, documentCount, tolerance, r.value.0, r.value.1) <==>
       IsSound(values, documentCount, tolerance))
  {
    if documentCount <= 0 || tolerance < 0.0 {
      return Error("invalid document count or tolerance");
    }
    var ordered := OrderedValues(values);
    SortedAscends(values);
    var missing := documentCount - |ordered|;
    var zeroEnd := SearchSortedRight(ordered, 2.0 * tolerance);
    CountIfSortBy(values, (x: real) => x, AtMostOf(2.0 * tolerance));
    var baseline, best := BestWindow(ordered, tolerance, missing + zeroEnd);
    SweptIsBest(values, documentCount, tolerance, baseline, best);
    r := Ok((baseline, best));
  }

  /** What the sorted values say about the sweep's starting count. */
  lemma ZeroEnd(values: seq<real>, tolerance: real) returns (zeroEnd: nat)
    requires tolerance >= 0.0
    ensures |OrderedValues(values)| == |values| && AscendingValues(OrderedValues(values))
    ensures zeroEnd == CountIf(values, AtMostOf(2.0 * tolerance)) <= |values|
    ensures forall i :: 0 <= i < zeroEnd ==> OrderedValues(values)[i] <= 2.0 * tolerance
    ensures forall i :: zeroEnd <= i < |values| ==> OrderedValues(values)[i] > 2.0 * tolerance
  {
    var s := OrderedValues(values);
    SortedAscends(values);
    CountIfSortBy(values, (x: real) => x, AtMostOf(2.0 * tolerance));
    AscendingCount(s, 2.0 * tolerance);
    zeroEnd := CountIf(s, AtMostOf(2.0 * tolerance));
  }

  /** Sorting changes no coverage. */
  lemma OrderedCoverage(values: seq<real>, documentCount: nat, b: real, tolerance: real)
    requires |values| <= documentCount
    ensures |OrderedValues(values)| == |values|
    ensures
      Coverage(OrderedValues(values), documentCount, b, tolerance) == Coverage(values, documentCount, b, tolerance)
  {
    CountIfSortBy(values, (x: real) => x, WithinOf(b, tolerance));
  }

  /** Whatever the signs, no baseline covers more than the sweep reports. */
  lemma SweptBoundsCoverage(
      values: seq<real>, documentCount: nat, tolerance: real, baseline: real, best: nat, b: real)
    requires tolerance >= 0.0 && |values| <= documentCount && IsSwept(values, documentCount, tolerance, baseline, best)
    ensures Coverage(values, documentCount, b, tolerance) <= best
  {
    var zeroEnd := ZeroEnd(values, tolerance);
    OrderedCoverage(values, documentCount, b, tolerance);
    ZeroWindow(OrderedValues(values), zeroEnd, b, tolerance);
    WindowsBoundCount(OrderedValues(values), b, tolerance, best);
  }

  /** A baseline taken from a window covers the window. */
  lemma WindowIsReached(values: seq<real>, documentCount: nat, tolerance: real, baseline: real, best: nat)
    requires tolerance >= 0.0 && |values| <= documentCount
    requires CameFromWindow(values, documentCount, tolerance, baseline, best)
    ensures Coverage(values, documentCount, baseline, tolerance) >= best
  {
    var s := OrderedValues(values);
    var zeroEnd := ZeroEnd(values, tolerance);
    var l: nat, r: nat :| l <= r < |s| && s[r] - s[l] <= 2.0 * tolerance && r - l + 1 == best
      && baseline == Middle(s, l, r);
    MiddleCovers(s, documentCount, l, r, tolerance);
    OrderedCoverage(values, documentCount, baseline, tolerance);
  }

  /** The tolerance as baseline covers where the sweep starts if and only if no value is negative. */
  lemma StartIsReached(values: seq<real>, documentCount: nat, tolerance: real)
    requires tolerance >= 0.0 && |values| <= documentCount
    ensures Coverage(values, documentCount, tolerance, tolerance) >= StartCount(values, documentCount, tolerance)
        <==> NonNegative(values)
  {
    CountSplits(values, tolerance);
  }

  lemma {:induction false} CountSplits(values: seq<real>, tolerance: real)
    requires tolerance >= 0.0
    ensures CountWithin(values, tolerance, tolerance) <= CountIf(values, AtMostOf(2.0 * tolerance))
    ensures CountWithin(values, tolerance, tolerance) == CountIf(values, AtMostOf(2.0 * tolerance))
        <==> NonNegative(values)
  {
    if values != [] {
      var n := |values| - 1;
      CountSplits(values[..n], tolerance);
      assert NonNegative(values) <==> NonNegative(values[..n]) && values[n] >= 0.0;
    }
  }

  /** The sweep keeps its start exactly when no window wins. */
  lemma StartOrWindow(values: seq<real>, documentCount: nat, tolerance: real, baseline: real, best: nat)
    requires |values| <= documentCount && IsSwept(values, documentCount, tolerance, baseline, best)
    ensures CameFromWindow(values, documentCount, tolerance, baseline, best)
        <==> WindowWins(values, documentCount, tolerance)
    ensures !WindowWins(values, documentCount, tolerance) ==>
      baseline == tolerance && best == StartCount(values, documentCount, tolerance)
  {
    var s, start := OrderedValues(values), StartCount(values, documentCount, tolerance);
    if WindowWins(values, documentCount, tolerance) {
      var l: nat, r: nat :| l <= r < |s| && s[r] - s[l] <= 2.0 * tolerance
        && (r - l + 1 > start || (r - l + 1 == start && Middle(s, l, r) < tolerance));
      assert r - l + 1 <= best;
      assert r - l + 1 == best ==> baseline <= Middle(s, l, r);
    }
  }

  lemma SweptIsBest(values: seq<real>, documentCount: nat, tolerance: real, baseline: real, best: nat)
    requires tolerance >= 0.0 && |values| <= documentCount && IsSwept(values, documentCount, tolerance, baseline, best)
    ensures IsBestBaseline(values, documentCount, tolerance, baseline, best)
        <==> IsSound(values, documentCount, tolerance)
    ensures Coverage(values, documentCount, baseline, tolerance) == best
        <==> IsSound(values, documentCount, tolerance)
  {
    forall b: real ensures Coverage(values, documentCount, b, tolerance) <= best {
      SweptBoundsCoverage(values, documentCount, tolerance, baseline, best, b);
    }
    StartOrWindow(values, documentCount, tolerance, baseline, best);
    if WindowWins(values, documentCount, tolerance) {
      WindowIsReached(values, documentCount, tolerance, baseline, best);
    } else {
      StartIsReached(values, documentCount, tolerance);
    }
  }

  /** The failing input: whatever the sweep makes of it claims both documents at a baseline that covers one. */
  lemma NegativeValueCounterexample(baseline: real, coverage: nat)
    requires IsSwept([-1.0], 2, 0.5, baseline, coverage)
    ensures baseline == 0.5 && coverage == 2 && Coverage([-1.0], 2, baseline, 0.5) == 1
    ensures !IsBestBaseline([-1.0], 2, 0.5, baseline, coverage)
  {
    var values := [-1.0];
    assert CountIf([], AtMostOf(1.0)) == 0 && CountIf([], WithinOf(0.5, 0.5)) == 0;
    assert values[..0] == [];
    assert CountIf(values, AtMostOf(1.0)) == 1 && CountIf(values, WithinOf(0.5, 0.5)) == 0;
    var zeroEnd := ZeroEnd(values, 0.5);
    StartOrWindow(values, 2, 0.5, baseline, coverage);
  }

  // ----- the exceptions of one term -----

  /** The stored values out of tolerance, as differences from the baseline. */
  function Outside(p: PostingList, baseline: real, tolerance: real): PostingList {
    if p == [] then []
    else
      var n := |p| - 1;
      var front := Outside(p[..n], baseline, tolerance);
      if Within(p[n].impact, baseline, tolerance) then front
      else front + [Posting(p[n].document, p[n].impact - baseline)]
  }

  /** The first `n` documents that `p` does not post, each differing from the baseline by all of it. */
  function MissingRows(p: PostingList, n: nat, baseline: real): PostingList {
    if n == 0 then []
    else
      var front := MissingRows(p, n - 1, baseline);
      if exists i :: 0 <= i < |p| && p[i].document == n - 1 then front else front + [Posting(n - 1, -baseline)]
  }

  function Exceptions(p: PostingList, documentCount: nat, baseline: real, tolerance: real): PostingList {
    var outside := Outside(p, baseline, tolerance);
    if baseline - tolerance > 0.0 then outside + MissingRows(p, documentCount, baseline) else outside
  }

  lemma {:induction false} OutsideMembers(p: PostingList, baseline: real, tolerance: real, x: Posting)
    ensures x in Outside(p, baseline, tolerance) <==>
      Posting(x.document, x.impact + baseline) in p && !Within(x.impact + baseline, baseline, tolerance)
  {
    if p != [] {
      var n := |p| - 1;
      OutsideMembers(p[..n], baseline, tolerance, x);
      LastSplit(p);
      assert x.impact == p[n].impact - baseline <==> x.impact + baseline == p[n].impact;
    }
  }

  lemma {:induction false} MissingMembers(p: PostingList, n: nat, baseline: real, x: Posting)
    ensures x in MissingRows(p, n, baseline) <==> x.document < n && !Holds(p, x.document) && x.impact == -baseline
  {
    if n > 0 { MissingMembers(p, n - 1, baseline, x); }
  }

  lemma {:induction false} OutsideDistinct(p: PostingList, baseline: real, tolerance: real)
    requires DistinctDocuments(p)
    ensures DistinctDocuments(Outside(p, baseline, tolerance))
  {
    if p != [] {
      var n := |p| - 1;
      OutsideDistinct(p[..n], baseline, tolerance);
      var front := Outside(p[..n], baseline, tolerance);
      forall i | 0 <= i < |front| ensures front[i].document != p[n].document {
        OutsideMembers(p[..n], baseline, tolerance, front[i]);
        assert front[i] in front;
        var j :| 0 <= j < n && p[..n][j] == Posting(front[i].document, front[i].impact + baseline);
        assert p[j].document == front[i].document;
      }
    }
  }

  lemma {:induction false} MissingDistinct(p: PostingList, n: nat, baseline: real)
    ensures DistinctDocuments(MissingRows(p, n, baseline))
  {
    if n > 0 {
      MissingDistinct(p, n - 1, baseline);
      var front := MissingRows(p, n - 1, baseline);
      forall i | 0 <= i < |front| ensures front[i].document != n - 1 {
        MissingMembers(p, n - 1, baseline, front[i]);
        assert front[i] in front;
      }
    }
  }

  lemma ExceptionsDistinct(p: PostingList, documentCount: nat, baseline: real, tolerance: real)
    requires DistinctDocuments(p)
    ensures DistinctDocuments(Exceptions(p, documentCount, baseline, tolerance))
  {
    var a, b := Outside(p, baseline, tolerance), MissingRows(p, documentCount, baseline);
    OutsideDistinct(p, baseline, tolerance);
    MissingDistinct(p, documentCount, baseline);
    forall i, j | 0 <= i < |a| && 0 <= j < |b| ensures a[i].document != b[j].document {
      OutsideMembers(p, baseline, tolerance, a[i]);
      MissingMembers(p, documentCount, baseline, b[j]);
      assert a[i] in a && b[j] in b;
      var m :| 0 <= m < |p| && p[m] == Posting(a[i].document, a[i].impact + baseline);
    }
  }

  lemma ImpactIs(p: PostingList, x: Posting)
    requires DistinctDocuments(p) && x in p
    ensures Holds(p, x.document) && Impact(p, x.document) == x.impact
  {
    var i :| 0 <= i < |p| && p[i] == x;
    ImpactBeforeAt(p, |p|, i);
  }

  /**
   A posted document, or any when the baseline is not below minus the tolerance, is an exception exactly when the
   baseline is out of tolerance for it, and is then corrected exactly.
   */
  lemma ExceptionCorrects(p: PostingList, documentCount: nat, baseline: real, tolerance: real, d: nat)
    requires DistinctDocuments(p) && tolerance >= 0.0 && d < documentCount
    requires baseline + tolerance >= 0.0 || Holds(p, d)
    ensures var exceptions := Exceptions(p, documentCount, baseline, tolerance);
      if Within(Impact(p, d), baseline, tolerance) then Impact(exceptions, d) == 0.0
      else Holds(exceptions, d) && Impact(exceptions, d) == Impact(p, d) - baseline
  {
    var a, b := Outside(p, baseline, tolerance), MissingRows(p, documentCount, baseline);
    var exceptions := Exceptions(p, documentCount, baseline, tolerance);
    ExceptionsDistinct(p, documentCount, baseline, tolerance);
    assert forall x :: x in exceptions <==> x in a || (x in b && baseline - tolerance > 0.0);
    if Within(Impact(p, d), baseline, tolerance) {
      forall i | 0 <= i < |exceptions| ensures exceptions[i].document != d {
        var x := exceptions[i];
        assert x in exceptions;
        OutsideMembers(p, baseline, tolerance, x);
        MissingMembers(p, documentCount, baseline, x);
        if x in a { ImpactIs(p, Posting(x.document, x.impact + baseline)); }
        if x in b && x.document == d { AbsentImpact(p, d); }
      }
      ImpactBeforeAbsent(exceptions, |exceptions|, d);
    } else {
      var x := Posting(d, Impact(p, d) - baseline);
      if Holds(p, d) {
        var i :| 0 <= i < |p| && p[i].document == d;
        ImpactIs(p, p[i]);
        OutsideMembers(p, baseline, tolerance, x);
      } else {
        AbsentImpact(p, d);
        MissingMembers(p, documentCount, baseline, x);
      }
      ImpactIs(exceptions, x);
    }
  }

  // ----- how many exceptions there are -----

  lemma {:induction false} OutsideCount(p: PostingList, baseline: real, tolerance: real)
    ensures |Outside(p, baseline, tolerance)| + CountWithin(Impacts(p), baseline, tolerance) == |p|
  {
    if p != [] {
      var n := |p| - 1;
      OutsideCount(p[..n], baseline, tolerance);
      assert Impacts(p)[..n] == Impacts(p[..n]);
    }
  }

  ghost function HeldBelow(p: PostingList, n: nat): set<nat> {
    set d | d in SetOf(PostingDocuments(p)) && d < n
  }

  lemma {:induction false} MissingCount(p: PostingList, n: nat, baseline: real)
    ensures |MissingRows(p, n, baseline)| + |HeldBelow(p, n)| == n
  {
    if n > 0 {
      MissingCount(p, n - 1, baseline);
      HeldBelowNext(p, n - 1);
    } else {
      assert HeldBelow(p, 0) == {};
    }
  }

  lemma HeldBelowNext(p: PostingList, n: nat)
    ensures |HeldBelow(p, n + 1)| == |HeldBelow(p, n)| + if Holds(p, n) then 1 else 0
  {
    HoldsDocument(p, n);
    assert HeldBelow(p, n + 1) == HeldBelow(p, n) + if Holds(p, n) then {n} else {};
  }

  /** Theorem: the exceptions number the documents minus the coverage. */
  lemma ExceptionCount(p: PostingList, documentCount: nat, baseline: real, tolerance: real)
    requires DistinctDocuments(p) && tolerance >= 0.0 && |p| <= documentCount
    requires baseline + tolerance >= 0.0 || |p| == documentCount
    requires forall i :: 0 <= i < |p| ==> p[i].document < documentCount
    ensures |Exceptions(p, documentCount, baseline, tolerance)|
         == documentCount - Coverage(Impacts(p), documentCount, baseline, tolerance)
  {
    OutsideCount(p, baseline, tolerance);
    MissingCount(p, documentCount, baseline);
    DistinctSize(PostingDocuments(p));
    assert HeldBelow(p, documentCount) == SetOf(PostingDocuments(p));
  }

  // ----- one selected term -----

  datatype Centered = Centered(exceptions: PostingList, baseline: real, tolerance: real)

  /** Baseline plus exceptions stand for the column within the tolerance. */
  ghost predicate Centers(c: Centered, p: PostingList, documentCount: nat) {
    && c.tolerance >= 0.0
    && forall d: nat :: d < documentCount ==>
         -c.tolerance <= Impact(p, d) - c.baseline - Impact(c.exceptions, d) <= c.tolerance
  }

  /**
   `c` is the encoding the script makes of the column: its tolerance from its largest value, the sweep's baseline,
   and the exceptions at that baseline. `coverage` is what the sweep reports and the script discards.
   */
  ghost predicate Encodes(c: Centered, p: PostingList, documentCount: nat, ratio: real, coverage: nat) {
    && |p| <= documentCount
    && c.tolerance == ratio * MaxAbs(Impacts(p))
    && IsSwept(Impacts(p), documentCount, c.tolerance, c.baseline, coverage)
    && c.exceptions == Exceptions(p, documentCount, c.baseline, c.tolerance)
  }

  /**
   What an encoding is worth: it stands for the column, and its exceptions are the documents its baseline does not
   cover. They are as few as any baseline needs, and number the documents less the reported coverage, if and only if
   the sweep is sound.
   */
  ghost predicate IsWorth(c: Centered, p: PostingList, documentCount: nat, coverage: nat)
    requires |p| <= documentCount
  {
    && Centers(c, p, documentCount)
    && |c.exceptions| == documentCount - Coverage(Impacts(p), documentCount, c.baseline, c.tolerance)
    && (IsBestBaseline(Impacts(p), documentCount, c.tolerance, c.baseline, coverage)
        <==> IsSound(Impacts(p), documentCount, c.tolerance))
    && (|c.exceptions| == documentCount - coverage <==> IsSound(Impacts(p), documentCount, c.tolerance))
  }

  /** `np.max(np.abs(values), initial=0.0)`. */
  function MaxAbs(values: seq<real>): (m: real)
    ensures m >= 0.0
    ensures forall i :: 0 <= i < |values| ==> -m <= values[i] <= m
  {
    if values == [] then 0.0
    else
      var rest := MaxAbs(values[1..]);
      assert forall i :: 1 <= i < |values| ==> values[i] == values[1..][i - 1];
      var magnitude := if values[0] < 0.0 then -values[0] else values[0];
      if rest < magnitude then magnitude else rest
  }

  lemma PostingsFit(p: PostingList, documentCount: nat)
    requires DistinctDocuments(p) && forall i :: 0 <= i < |p| ==> p[i].document < documentCount
    ensures |p| <= documentCount
  {
    MissingCount(p, documentCount, 0.0);
    DistinctSize(PostingDocuments(p));
    assert HeldBelow(p, documentCount) == SetOf(PostingDocuments(p));
  }

  lemma ScaledMaximum(ratio: real, m: real)
    requires ratio >= 0.0 && m >= 0.0
    ensures ratio * m >= 0.0
  {
  }

  /** A window that lies below zero never wins against missing documents, so those are always corrected. */
  lemma SweptReachesZero(values: seq<real>, documentCount: nat, tolerance: real, baseline: real, coverage: nat)
    requires tolerance >= 0.0 && |values| <= documentCount
    requires IsSwept(values, documentCount, tolerance, baseline, coverage)
    ensures baseline + tolerance >= 0.0 || |values| == documentCount
  {
    var s, start := OrderedValues(values), StartCount(values, documentCount, tolerance);
    var zeroEnd := ZeroEnd(values, tolerance);
    if baseline + tolerance < 0.0 {
      var l: nat, r: nat :| l <= r < |s| && s[r] - s[l] <= 2.0 * tolerance && r - l + 1 == coverage
        && baseline == Middle(s, l, r);
      assert s[r] <= 2.0 * tolerance;
    }
  }

  lemma ExceptionsCenter(p: PostingList, documentCount: nat, baseline: real, tolerance: real)
    requires DistinctDocuments(p) && forall i :: 0 <= i < |p| ==> p[i].document < documentCount
    requires tolerance >= 0.0 && (baseline + tolerance >= 0.0 || |p| == documentCount)
    ensures Centers(Centered(Exceptions(p, documentCount, baseline, tolerance), baseline, tolerance), p, documentCount)
  {
    var exceptions := Exceptions(p, documentCount, baseline, tolerance);
    if |p| == documentCount { AllAreHeld(p, documentCount); }
    forall d: nat | d < documentCount
      ensures -tolerance <= Impact(p, d) - baseline - Impact(exceptions, d) <= tolerance
    {
      ExceptionCorrects(p, documentCount, baseline, tolerance, d);
    }
  }

  /** Theorem: whatever the signs of its values, an encoding is worth what the script claims for it. */
  lemma EncodingIsWorth(c: Centered, p: PostingList, documentCount: nat, ratio: real, coverage: nat)
    requires DistinctDocuments(p) && forall i :: 0 <= i < |p| ==> p[i].document < documentCount
    requires c.tolerance >= 0.0 && Encodes(c, p, documentCount, ratio, coverage)
    ensures IsWorth(c, p, documentCount, coverage)
  {
    SweptReachesZero(Impacts(p), documentCount, c.tolerance, c.baseline, coverage);
    ExceptionsCenter(p, documentCount, c.baseline, c.tolerance);
    ExceptionCount(p, documentCount, c.baseline, c.tolerance);
    SweptIsBest(Impacts(p), documentCount, c.tolerance, c.baseline, coverage);
  }

  lemma AllAreHeld(p: PostingList, documentCount: nat)
    requires DistinctDocuments(p) && |p| == documentCount && forall i :: 0 <= i < |p| ==> p[i].document < documentCount
    ensures forall d: nat :: d < documentCount ==> Holds(p, d)
  {
    var docs := SetOf(PostingDocuments(p));
    DistinctSize(PostingDocuments(p));
    SubsetOfSameSize(docs, All(documentCount));
    forall d: nat | d < documentCount ensures Holds(p, d) {
      assert d in All(documentCount);
      HoldsDocument(p, d);
    }
  }

  /** The loop body of `build_centered_exceptions` for one selected term. */
  method CenterTerm(p: PostingList, documentCount: nat, ratio: real)
    returns (r: Result<Centered>, ghost coverage: nat)
    requires DistinctDocuments(p) && ratio >= 0.0
    requires forall i :: 0 <= i < |p| ==> p[i].document < documentCount
    ensures r.Error? <==> documentCount == 0
    ensures r.Ok? ==> Encodes(r.value, p, documentCount, ratio, coverage)
    ensures r.Ok? ==> IsWorth(r.value, p, documentCount, coverage)
  {
    coverage := 0;
    PostingsFit(p, documentCount);
    ScaledMaximum(ratio, MaxAbs(Impacts(p)));
    var tolerance := ratio * MaxAbs(Impacts(p));
    var best := BestBaseline(Impacts(p), documentCount, tolerance);
    if best.Error? { return Error(best.reason), 0; }
    coverage := best.value.1;
    var c := Centered(Exceptions(p, documentCount, best.value.0, tolerance), best.value.0, tolerance);
    EncodingIsWorth(c, p, documentCount, ratio, coverage);
    r := Ok(c);
  }

  /** Each encoding is the one the script makes of its column, and is worth what the script claims. */
  ghost predicate AllEncoded(
      parts: seq<Centered>, coverages: seq<nat>, columns: seq<PostingList>, documentCount: nat, ratio: real, n: nat)
  {
    && |parts| == |coverages| == n <= |columns|
    && forall t :: 0 <= t < n ==>
         && Encodes(parts[t], columns[t], documentCount, ratio, coverages[t])
         && IsWorth(parts[t], columns[t], documentCount, coverages[t])
  }

  /** The loop over the selected terms. */
  method BuildCenteredExceptions(columns: seq<PostingList>, documentCount: nat, ratio: real)
    returns (r: Result<seq<Centered>>, ghost coverages: seq<nat>)
    requires ratio >= 0.0
    requires forall t :: 0 <= t < |columns| ==> DistinctDocuments(columns[t])
    requires forall t, i :: 0 <= t < |columns| && 0 <= i < |columns[t]| ==> columns[t][i].document < documentCount
    ensures r.Error? <==> documentCount == 0 && columns != []
    ensures r.Ok? ==> AllEncoded(r.value, coverages, columns, documentCount, ratio, |columns|)
  {
    var parts: seq<Centered> := [];
    coverages := [];
    for t := 0 to |columns|
      invariant t > 0 ==> documentCount > 0
      invariant AllEncoded(parts, coverages, columns, documentCount, ratio, t)
    {
      var c;
      ghost var coverage;
      c, coverage := CenterTerm(columns[t], documentCount, ratio);
      if c.Error? { return Error(c.reason), coverages; }
      parts, coverages := parts + [c.value], coverages + [coverage];
    }
    r := Ok(parts);
  }

  // ----- whole scores -----

  datatype SelectedTerm = SelectedTerm(weight: real, column: PostingList, centered: Centered)

  ghost predicate AllCentered(terms: seq<SelectedTerm>, documentCount: nat) {
    forall t :: 0 <= t < |terms| ==> Centers(terms[t].centered, terms[t].column, documentCount)
  }

  function TermExact(t: SelectedTerm, d: nat): real {
    t.weight * Impact(t.column, d)
  }

  function TermException(t: SelectedTerm, d: nat): real {
    t.weight * Impact(t.centered.exceptions, d)
  }

  function TermBaseline(t: SelectedTerm): real {
    t.weight * t.centered.baseline
  }

  function TermBound(t: SelectedTerm): real {
    Abs(t.weight) * t.centered.tolerance
  }

  /** The selected part of a document's score. */
  function SelectedExact(terms: seq<SelectedTerm>, d: nat): real {
    if terms == [] then 0.0 else TermExact(terms[0], d) + SelectedExact(terms[1..], d)
  }

  /** What the exceptions contribute instead. */
  function ExceptionScore(terms: seq<SelectedTerm>, d: nat): real {
    if terms == [] then 0.0 else TermException(terms[0], d) + ExceptionScore(terms[1..], d)
  }

  /** The constant a query shifts every document by. */
  function BaselineScore(terms: seq<SelectedTerm>): real {
    if terms == [] then 0.0 else TermBaseline(terms[0]) + BaselineScore(terms[1..])
  }

  /** `np.abs(selected_queries) @ tolerances`. */
  function QueryBound(terms: seq<SelectedTerm>): real {
    if terms == [] then 0.0 else TermBound(terms[0]) + QueryBound(terms[1..])
  }

  lemma NonNegativeProduct(x: real, y: real)
    requires x >= 0.0 && y >= 0.0
    ensures x * y >= 0.0
  {
  }

  lemma ProductWithin(w: real, gap: real, t: real)
    requires -t <= gap <= t
    ensures -(Abs(w) * t) <= w * gap <= Abs(w) * t
  {
    var m := Abs(w);
    NonNegativeProduct(m, t - gap);
    NonNegativeProduct(m, t + gap);
    assert m * (t - gap) == m * t - m * gap;
    assert m * (t + gap) == m * t + m * gap;
  }

  lemma GapDistributes(w: real, v: real, b: real, x: real)
    ensures w * (v - b - x) == w * v - w * x - w * b
  {
  }

  lemma TermError(t: SelectedTerm, documentCount: nat, d: nat)
    requires Centers(t.centered, t.column, documentCount) && d < documentCount
    ensures -TermBound(t) <= TermExact(t, d) - TermException(t, d) - TermBaseline(t) <= TermBound(t)
  {
    var v, b, x := Impact(t.column, d), t.centered.baseline, Impact(t.centered.exceptions, d);
    GapDistributes(t.weight, v, b, x);
    ProductWithin(t.weight, v - b - x, t.centered.tolerance);
  }

  /** `exact - selected_exact + exception_scores`, for a document whose unselected score is `rest`. */
  function ApproximateScore(terms: seq<SelectedTerm>, rest: real, d: nat): real {
    rest + ExceptionScore(terms, d)
  }

  function ExactScore(terms: seq<SelectedTerm>, rest: real, d: nat): real {
    rest + SelectedExact(terms, d)
  }

  /** Theorem: one constant per query brings every document's approximate score within the reported bound. */
  lemma {:induction false} CenteredErrorBound(terms: seq<SelectedTerm>, documentCount: nat, rest: real, d: nat)
    requires AllCentered(terms, documentCount) && d < documentCount
    ensures -QueryBound(terms) <= ExactScore(terms, rest, d) - ApproximateScore(terms, rest, d) - BaselineScore(terms)
    ensures ExactScore(terms, rest, d) - ApproximateScore(terms, rest, d) - BaselineScore(terms) <= QueryBound(terms)
    decreases |terms|
  {
    if terms != [] {
      TermError(terms[0], documentCount, d);
      CenteredErrorBound(terms[1..], documentCount, rest, d);
    }
  }

  /** Theorem: documents whose exact scores differ by more than twice the bound are never swapped. */
  lemma FarApartKeepOrder(
      terms: seq<SelectedTerm>, documentCount: nat, restA: real, a: nat, restB: real, b: nat)
    requires AllCentered(terms, documentCount) && a < documentCount && b < documentCount
    requires ExactScore(terms, restA, a) - ExactScore(terms, restB, b) > 2.0 * QueryBound(terms)
    ensures ApproximateScore(terms, restA, a) > ApproximateScore(terms, restB, b)
  {
    CenteredErrorBound(terms, documentCount, restA, a);
    CenteredErrorBound(terms, documentCount, restB, b);
  }

  // ----- one query over all documents -----

  /** The exact scores, `rests` being the unselected parts. */
  function ExactScores(terms: seq<SelectedTerm>, rests: seq<real>): (r: seq<real>)
    ensures |r| == |rests| && forall d :: 0 <= d < |r| ==> r[d] == ExactScore(terms, rests[d], d)
  {
    seq(|rests|, d requires 0 <= d < |rests| => ExactScore(terms, rests[d], d))
  }

  function ApproximateScores(terms: seq<SelectedTerm>, rests: seq<real>): (r: seq<real>)
    ensures |r| == |rests| && forall d :: 0 <= d < |r| ==> r[d] == ApproximateScore(terms, rests[d], d)
  {
    seq(|rests|, d requires 0 <= d < |rests| => ApproximateScore(terms, rests[d], d))
  }

  lemma CenteredKeepsGaps(terms: seq<SelectedTerm>, rests: seq<real>)
    requires AllCentered(terms, |rests|)
    ensures KeepsGaps(ExactScores(terms, rests), ApproximateScores(terms, rests), 2.0 * QueryBound(terms))
  {
    var exact, approximate := ExactScores(terms, rests), ApproximateScores(terms, rests);
    forall d, c | 0 <= d < |exact| && 0 <= c < |exact| && exact[d] - exact[c] > 2.0 * QueryBound(terms)
      ensures approximate[d] > approximate[c]
    {
      FarApartKeepOrder(terms, |rests|, rests[d], d, rests[c], c);
    }
  }

  /** The terms of a query: each selected column with its weight and its encoding. */
  function QueryTerms(weights: seq<real>, columns: seq<PostingList>, parts: seq<Centered>): (r: seq<SelectedTerm>)
    requires |weights| == |columns| == |parts|
    ensures |r| == |columns|
    ensures forall t :: 0 <= t < |r| ==> r[t] == SelectedTerm(weights[t], columns[t], parts[t])
  {
    seq(|columns|, t requires 0 <= t < |columns| => SelectedTerm(weights[t], columns[t], parts[t]))
  }

  /**
   Theorem: one query through the encoding, whatever the signs. Where the k-th best score is ahead of the one at the
   depth of the candidates by more than twice the reported bound, every top document is a candidate and the completed
   list has the reference scores.
   */
  method EvaluateCentered(
      columns: seq<PostingList>, weights: seq<real>, rests: seq<real>, ratio: real, k: nat, multiplier: nat)
    returns (r: Result<(nat, seq<nat>)>, parts: seq<Centered>, top: seq<nat>, candidates: seq<nat>)
    requires ratio >= 0.0 && |weights| == |columns| && k > 0 && multiplier > 0
    requires forall t :: 0 <= t < |columns| ==> DistinctDocuments(columns[t])
    requires forall t, i :: 0 <= t < |columns| && 0 <= i < |columns[t]| ==> columns[t][i].document < |rests|
    ensures r.Error? <==> rests == [] && columns != []
    ensures r.Ok? ==> exists coverages :: AllEncoded(parts, coverages, columns, |rests|, ratio, |columns|)
    ensures r.Ok? ==> |parts| == |columns| && Reports(
      ExactScores(QueryTerms(weights, columns, parts), rests),
      ApproximateScores(QueryTerms(weights, columns, parts), rests),
      k, Depth(k, multiplier, |rests|), top, candidates, r.value.0, r.value.1)
    ensures r.Ok? && Clears(
        ExactScores(QueryTerms(weights, columns, parts), rests), k, Depth(k, multiplier, |rests|),
        2.0 * QueryBound(QueryTerms(weights, columns, parts))) ==>
      && r.value.0 == |top|
      && SameScores(
           ExactScores(QueryTerms(weights, columns, parts), rests), r.value.1,
           TopK(ExactScores(QueryTerms(weights, columns, parts), rests), k))
  {
    top, candidates, parts := [], [], [];
    var encoded;
    ghost var coverages;
    encoded, coverages := BuildCenteredExceptions(columns, |rests|, ratio);
    if encoded.Error? { return Error(encoded.reason), parts, top, candidates; }
    parts := encoded.value;
    var terms := QueryTerms(weights, columns, encoded.value);
    EncodedTermsCenter(terms, weights, encoded.value, coverages, columns, |rests|, ratio);
    var covered, completed;
    covered, completed, top, candidates := EvaluateTerms(terms, rests, k, multiplier);
    r := Ok((covered, completed));
  }

  lemma EncodedTermsCenter(
      terms: seq<SelectedTerm>, weights: seq<real>, parts: seq<Centered>, coverages: seq<nat>,
      columns: seq<PostingList>, documentCount: nat, ratio: real)
    requires AllEncoded(parts, coverages, columns, documentCount, ratio, |columns|) && |weights| == |columns|
    requires terms == QueryTerms(weights, columns, parts)
    ensures AllCentered(terms, documentCount)
  {
    forall t | 0 <= t < |terms| ensures Centers(terms[t].centered, terms[t].column, documentCount) {
      assert IsWorth(parts[t], columns[t], documentCount, coverages[t]);
    }
  }

  method EvaluateTerms(terms: seq<SelectedTerm>, rests: seq<real>, k: nat, multiplier: nat)
    returns (covered: nat, completed: seq<nat>, top: seq<nat>, candidates: seq<nat>)
    requires AllCentered(terms, |rests|) && k > 0 && multiplier > 0
    ensures Reports(
      ExactScores(terms, rests), ApproximateScores(terms, rests), k, Depth(k, multiplier, |rests|), top, candidates,
      covered, completed)
    ensures Clears(ExactScores(terms, rests), k, Depth(k, multiplier, |rests|), 2.0 * QueryBound(terms)) ==>
      covered == |top| && SameScores(ExactScores(terms, rests), completed, TopK(ExactScores(terms, rests), k))
  {
    var exact, approximate := ExactScores(terms, rests), ApproximateScores(terms, rests);
    covered, completed, top, candidates := EvaluateQuery(approximate, exact, k, multiplier);
    CenteredKeepsGaps(terms, rests);
    if Clears(exact, k, Depth(k, multiplier, |rests|), 2.0 * QueryBound(terms)) {
      ClearedIsExact(
        exact, approximate, 2.0 * QueryBound(terms), k, Depth(k, multiplier, |rests|), top, candidates, covered,
        completed);
    }
  }
}
