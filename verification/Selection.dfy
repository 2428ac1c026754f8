/**
 Which terms to accelerate and how many postings to keep for each. Terms are taken by descending document
 frequency until they hold the requested share of all postings; a common cap on posting lists is found by
 bisection.
 */
module Selection {
  import opened Arithmetic
  import opened Results
  import opened Heapq
  import opened Ranking
  import opened Quantization

  type Frequencies = seq<nat>

  function Total(df: Frequencies): nat {
    if df == [] then 0 else Total(df[..|df| - 1]) + df[|df| - 1]
  }

  // ----- what a selection holds -----

  /** The postings held by the selected terms among the first `n`. */
  function HeldBefore(df: Frequencies, sel: seq<bool>, n: nat): nat
    requires n <= |df| && |sel| == |df|
  {
    if n == 0 then 0 else HeldBefore(df, sel, n - 1) + if sel[n - 1] then df[n - 1] else 0
  }

  function ChosenBefore(sel: seq<bool>, n: nat): nat
    requires n <= |sel|
  {
    if n == 0 then 0 else ChosenBefore(sel, n - 1) + if sel[n - 1] then 1 else 0
  }

  function Held(df: Frequencies, sel: seq<bool>): nat
    requires |sel| == |df|
  {
    HeldBefore(df, sel, |df|)
  }

  function Chosen(sel: seq<bool>): nat {
    ChosenBefore(sel, |sel|)
  }

  /** The selection holds the requested share of all postings. */
  ghost predicate Reaches(df: Frequencies, sel: seq<bool>, mass: real) {
    |sel| == |df| && Held(df, sel) as real >= Quota(df, mass)
  }

  ghost predicate IsSmallest(df: Frequencies, sel: seq<bool>, mass: real) {
    && Reaches(df, sel, mass)
    && forall other :: Chosen(other) < Chosen(sel) ==> !Reaches(df, other, mass)
  }

  /** No selection of at most as many terms, of any shape, holds more. */
  ghost predicate IsRichest(df: Frequencies, sel: seq<bool>)
    requires |sel| == |df|
  {
    forall other :: |other| == |df| && Chosen(other) <= Chosen(sel) ==> Held(df, other) <= Held(df, sel)
  }

  /** The selected terms come first by frequency, ties by term id, and none is empty. */
  ghost predicate IsPrefix(df: Frequencies, sel: seq<bool>)
    requires |sel| == |df|
  {
    && (forall t :: 0 <= t < |df| && sel[t] ==> df[t] > 0)
    && forall t, u :: 0 <= t < |df| && 0 <= u < |df| && sel[t] && !sel[u] ==> df[t] > df[u] || (df[t] == df[u] && t < u)
  }

  // ----- the exchange argument -----

  /** Swapping terms for ones at or above `v` can only gain, counting each term as worth its excess over `v`. */
  lemma {:induction false} Exchange(df: Frequencies, other: seq<bool>, sel: seq<bool>, v: nat, n: nat)
    requires n <= |df| == |other| == |sel|
    requires forall t :: 0 <= t < |df| ==> if sel[t] then df[t] >= v else df[t] <= v
    ensures HeldBefore(df, other, n) - v * ChosenBefore(other, n) <= HeldBefore(df, sel, n) - v * ChosenBefore(sel, n)
  {
    if n > 0 {
      Exchange(df, other, sel, v, n - 1);
      OneMore(v, ChosenBefore(other, n - 1));
      OneMore(v, ChosenBefore(sel, n - 1));
    }
  }

  lemma OneMore(v: nat, c: nat)
    ensures v * (c + 1) == v * c + v
  {
  }

  lemma FewerIsLess(v: nat, a: nat, b: nat)
    requires a <= b
    ensures v * a <= v * b
  {
  }

  lemma PrefixIsRichest(df: Frequencies, sel: seq<bool>, v: nat)
    requires |sel| == |df|
    requires forall t :: 0 <= t < |df| ==> if sel[t] then df[t] >= v else df[t] <= v
    ensures IsRichest(df, sel)
  {
    forall other | |other| == |df| && Chosen(other) <= Chosen(sel) ensures Held(df, other) <= Held(df, sel) {
      Exchange(df, other, sel, v, |df|);
      FewerIsLess(v, Chosen(other), Chosen(sel));
    }
  }

  // ----- the descending order -----

  function AsScores(df: Frequencies): (r: seq<real>)
    ensures |r| == |df| && forall t :: 0 <= t < |df| ==> r[t] == df[t] as real
  {
    seq(|df|, t requires 0 <= t < |df| => df[t] as real)
  }

  /** `np.flatnonzero` of the first `n` frequencies. */
  function NonZero(df: Frequencies, n: nat): (r: seq<nat>)
    requires n <= |df|
    ensures Distinct(r) && forall t: nat :: t in r <==> t < n && df[t] > 0
    ensures forall i :: 0 <= i < |r| ==> r[i] < n
  {
    if n == 0 then [] else if df[n - 1] > 0 then NonZero(df, n - 1) + [n - 1] else NonZero(df, n - 1)
  }

  function DescendingTerms(df: Frequencies): (r: seq<nat>)
    ensures Ranked(AsScores(df), r)
    ensures forall t: nat :: t in r <==> t < |df| && df[t] > 0
  {
    RankOrder(AsScores(df), NonZero(df, |df|))
  }

  lemma RankedFrequencies(df: Frequencies, r: seq<nat>, i: nat, j: nat)
    requires Ranked(AsScores(df), r) && i < j < |r|
    ensures r[i] < |df| && r[j] < |df| && r[i] != r[j]
    ensures df[r[i]] > df[r[j]] || (df[r[i]] == df[r[j]] && r[i] < r[j])
  {
    assert Outranks(AsScores(df), r[i], r[j]);
  }

  // ----- marking a prefix -----

  /** `sel` marks exactly the first `n` terms of `r`. */
  ghost predicate Marks(sel: seq<bool>, r: seq<nat>, n: nat) {
    n <= |r| && forall t :: 0 <= t < |sel| ==> (sel[t] <==> t in r[..n])
  }

  lemma {:induction false} MarkOne(df: Frequencies, sel: seq<bool>, t: nat, n: nat)
    requires |sel| == |df| && t < |df| && !sel[t] && n <= |df|
    ensures HeldBefore(df, sel[t := true], n) == HeldBefore(df, sel, n) + if t < n then df[t] else 0
    ensures ChosenBefore(sel[t := true], n) == ChosenBefore(sel, n) + if t < n then 1 else 0
  {
    if n > 0 { MarkOne(df, sel, t, n - 1); }
  }

  lemma {:induction false} NothingMarked(df: Frequencies, sel: seq<bool>, n: nat)
    requires |sel| == |df| && n <= |df| && forall t :: 0 <= t < |sel| ==> !sel[t]
    ensures HeldBefore(df, sel, n) == 0 && ChosenBefore(sel, n) == 0
  {
    if n > 0 { NothingMarked(df, sel, n - 1); }
  }

  lemma {:induction false} NothingLeftOut(df: Frequencies, sel: seq<bool>, n: nat)
    requires |sel| == |df| && n <= |df| && forall t :: 0 <= t < |sel| && !sel[t] ==> df[t] == 0
    ensures HeldBefore(df, sel, n) == Total(df[..n])
  {
    if n > 0 {
      NothingLeftOut(df, sel, n - 1);
      assert df[..n][..n - 1] == df[..n - 1];
    }
  }

  lemma MarkStep(sel: seq<bool>, r: seq<nat>, n: nat)
    requires Marks(sel, r, n) && n < |r| && r[n] < |sel|
    ensures Marks(sel[r[n] := true], r, n + 1)
  {
    assert r[..n + 1] == r[..n] + [r[n]];
  }

  lemma NotYetMarked(df: Frequencies, sel: seq<bool>, r: seq<nat>, n: nat)
    requires Ranked(AsScores(df), r) && Marks(sel, r, n) && n < |r| && |sel| == |df|
    ensures r[n] < |df| && !sel[r[n]]
  {
    if r[n] in r[..n] {
      var i :| 0 <= i < n && r[i] == r[n];
      RankedFrequencies(df, r, i, n);
    }
  }

  lemma MarkedAt(sel: seq<bool>, r: seq<nat>, n: nat, t: nat) returns (i: nat)
    requires Marks(sel, r, n) && t < |sel| && sel[t]
    ensures i < n && r[i] == t && t in r
  {
    i :| 0 <= i < n && r[..n][i] == t;
  }

  lemma UnmarkedAt(sel: seq<bool>, r: seq<nat>, n: nat, u: nat) returns (j: nat)
    requires Marks(sel, r, n) && u < |sel| && !sel[u] && u in r
    ensures n <= j < |r| && r[j] == u
  {
    j := IndexIn(r, u);
    assert forall i :: 0 <= i < n ==> r[..n][i] == r[i];
  }

  lemma MarkedBeatsUnmarked(df: Frequencies, sel: seq<bool>, n: nat, t: nat, u: nat)
    requires |sel| == |df| && Marks(sel, DescendingTerms(df), n) && t < |df| && u < |df| && sel[t] && !sel[u]
    ensures df[t] > df[u] || (df[t] == df[u] && t < u)
  {
    var r := DescendingTerms(df);
    var i := MarkedAt(sel, r, n, t);
    if u in r {
      var j := UnmarkedAt(sel, r, n, u);
      RankedFrequencies(df, r, i, j);
    }
  }

  lemma SplitAtLast(df: Frequencies, sel: seq<bool>, n: nat, t: nat)
    requires |sel| == |df| && 0 < n && Marks(sel, DescendingTerms(df), n) && t < |df|
    ensures DescendingTerms(df)[n - 1] < |df|
    ensures if sel[t] then df[t] >= df[DescendingTerms(df)[n - 1]] else df[t] <= df[DescendingTerms(df)[n - 1]]
  {
    var r := DescendingTerms(df);
    var last := r[n - 1];
    assert r[..n][n - 1] == last;
    if sel[t] {
      var i := MarkedAt(sel, r, n, t);
      if i < n - 1 { RankedFrequencies(df, r, i, n - 1); }
    } else {
      MarkedBeatsUnmarked(df, sel, n, last, t);
    }
  }

  /** A marked prefix is a prefix by frequency, split at the frequency of its last term. */
  lemma MarkedIsPrefix(df: Frequencies, sel: seq<bool>, n: nat)
    requires |sel| == |df| && 0 < n && Marks(sel, DescendingTerms(df), n)
    ensures IsPrefix(df, sel) && IsRichest(df, sel)
  {
    var last := DescendingTerms(df)[n - 1];
    assert last in DescendingTerms(df);
    forall t | 0 <= t < |df| ensures if sel[t] then df[t] >= df[last] else df[t] <= df[last] {
      SplitAtLast(df, sel, n, t);
    }
    PrefixIsRichest(df, sel, df[last]);
    forall t | 0 <= t < |df| && sel[t] ensures df[t] > 0 {
      var i := MarkedAt(sel, DescendingTerms(df), n, t);
    }
    forall t, u | 0 <= t < |df| && 0 <= u < |df| && sel[t] && !sel[u]
      ensures df[t] > df[u] || (df[t] == df[u] && t < u)
    {
      MarkedBeatsUnmarked(df, sel, n, t, u);
    }
  }

  /** Everything with a posting is marked: all postings are held. */
  lemma AllMarked(df: Frequencies, sel: seq<bool>)
    requires |sel| == |df| && Marks(sel, DescendingTerms(df), |DescendingTerms(df)|)
    ensures Held(df, sel) == Total(df)
  {
    var r := DescendingTerms(df);
    assert r[..|r|] == r;
    NothingLeftOut(df, sel, |df|);
    assert df[..|df|] == df;
  }

  // ----- the target -----

  /** The share of all postings to reach. */
  function Quota(df: Frequencies, mass: real): real {
    mass * Total(df) as real
  }

  /** The number of postings to reach: `ceil(mass * total)`. */
  function Target(df: Frequencies, mass: real): int {
    Ceil(Quota(df, mass))
  }

  lemma AtLeastCeil(held: nat, x: real)
    ensures held as real >= x <==> held >= Ceil(x)
  {
  }

  lemma ReachesTarget(df: Frequencies, sel: seq<bool>, mass: real)
    requires |sel| == |df|
    ensures Reaches(df, sel, mass) <==> Held(df, sel) >= Target(df, mass)
  {
    AtLeastCeil(Held(df, sel), Quota(df, mass));
  }

  lemma CeilWithin(x: real, total: nat)
    ensures x <= total as real <==> Ceil(x) <= total
    ensures x > 0.0 <==> Ceil(x) > 0
  {
  }

  lemma TargetWithin(df: Frequencies, mass: real)
    requires Total(df) > 0
    ensures mass <= 1.0 <==> Target(df, mass) <= Total(df)
    ensures mass > 0.0 <==> Target(df, mass) > 0
  {
    CeilOfShare(mass, Total(df), Quota(df, mass));
  }

  lemma CeilOfShare(mass: real, total: nat, x: real)
    requires total > 0 && x == mass * total as real
    ensures mass <= 1.0 <==> Ceil(x) <= total
    ensures mass > 0.0 <==> Ceil(x) > 0
  {
    Scaled(mass, total as real, x);
    CeilWithin(x, total);
  }

  lemma Scaled(mass: real, total: real, x: real)
    requires total > 0.0 && x == mass * total
    ensures mass <= 1.0 <==> x <= total
    ensures mass > 0.0 <==> x > 0.0
  {
    if mass > 1.0 { assert (mass - 1.0) * total > 0.0; }
    if mass <= 1.0 { assert (1.0 - mass) * total >= 0.0; }
  }

  // ----- selection -----

  datatype Selected = Selected(terms: seq<bool>, mass: real)

  /** What a selection of a positive number of postings promises. */
  ghost predicate IsSelection(df: Frequencies, mass: real, s: Selected) {
    && |s.terms| == |df| && Total(df) > 0
    && s.mass == Held(df, s.terms) as real / Total(df) as real
    && IsPrefix(df, s.terms) && IsRichest(df, s.terms)
    && Chosen(s.terms) > 0
    && (mass > 0.0 ==> IsSmallest(df, s.terms, mass))
    && (mass <= 0.0 ==> Chosen(s.terms) == 1)
  }

  /** One term fewer misses the target, so by the richness of prefixes nothing that small reaches it. */
  lemma ShortMisses(df: Frequencies, short: seq<bool>, sel: seq<bool>, mass: real)
    requires |short| == |sel| == |df| && IsRichest(df, short)
    requires Chosen(sel) == Chosen(short) + 1 && Held(df, short) < Target(df, mass) <= Held(df, sel)
    ensures IsSmallest(df, sel, mass)
  {
    ReachesTarget(df, sel, mass);
    forall other | Chosen(other) < Chosen(sel) ensures !Reaches(df, other, mass) {
      if |other| == |df| {
        ReachesTarget(df, other, mass);
      }
    }
  }

  lemma EmptyIsRichest(df: Frequencies, sel: seq<bool>)
    requires |sel| == |df| && forall t :: 0 <= t < |sel| ==> !sel[t]
    ensures IsRichest(df, sel)
  {
    NothingMarked(df, sel, |df|);
    forall other | |other| == |df| && Chosen(other) <= Chosen(sel) ensures Held(df, other) <= Held(df, sel) {
      NothingChosen(df, other, |df|);
    }
  }

  lemma {:induction false} NothingChosen(df: Frequencies, sel: seq<bool>, n: nat)
    requires |sel| == |df| && n <= |df| && ChosenBefore(sel, n) == 0
    ensures HeldBefore(df, sel, n) == 0
  {
    if n > 0 { NothingChosen(df, sel, n - 1); }
  }

  /** The terms marked so far hold what the cumulative count says, and are the richest of their number. */
  ghost predicate MarkedSoFar(df: Frequencies, sel: seq<bool>, n: nat, held: nat) {
    && |sel| == |df| && Marks(sel, DescendingTerms(df), n)
    && Held(df, sel) == held && Chosen(sel) == n && IsRichest(df, sel)
  }

  lemma MarkNext(df: Frequencies, sel: seq<bool>, n: nat, held: nat)
    requires MarkedSoFar(df, sel, n, held) && n < |DescendingTerms(df)|
    ensures DescendingTerms(df)[n] < |df|
    ensures MarkedSoFar(df, sel[DescendingTerms(df)[n] := true], n + 1, held + df[DescendingTerms(df)[n]])
  {
    var r := DescendingTerms(df);
    NotYetMarked(df, sel, r, n);
    MarkOne(df, sel, r[n], |df|);
    MarkStep(sel, r, n);
    MarkedIsPrefix(df, sel[r[n] := true], n + 1);
  }

  /** The state of the selection loop: all but the last marked term miss the target. */
  ghost predicate Selecting(df: Frequencies, short: seq<bool>, sel: seq<bool>, count: nat, held: nat, target: int) {
    && MarkedSoFar(df, sel, count, held)
    && (count == 0 ==> held == 0)
    && (count > 0 ==> |short| == |df| && IsRichest(df, short) && Chosen(sel) == Chosen(short) + 1)
    && (count > 0 ==> Held(df, short) < target || (count == 1 && Held(df, short) == 0))
  }

  lemma NoneSelected(df: Frequencies, sel: seq<bool>, target: int)
    requires |sel| == |df| && forall t :: 0 <= t < |sel| ==> !sel[t]
    ensures Selecting(df, sel, sel, 0, 0, target)
  {
    EmptyIsRichest(df, sel);
    NothingMarked(df, sel, |df|);
  }

  lemma SelectingEnds(df: Frequencies, short: seq<bool>, sel: seq<bool>, count: nat, held: nat, mass: real)
    requires Selecting(df, short, sel, count, held, Target(df, mass)) && Total(df) > 0
    requires count == |DescendingTerms(df)| || (count > 0 && held >= Target(df, mass))
    ensures count > 0 && (mass <= 1.0 <==> held >= Target(df, mass))
    ensures mass <= 1.0 ==> IsSelection(df, mass, Selected(sel, held as real / Total(df) as real))
  {
    TargetWithin(df, mass);
    if count == |DescendingTerms(df)| {
      AllMarked(df, sel);
    }
    if count > 0 {
      HeldWithin(df, sel, |df|);
      assert df[..|df|] == df;
      MarkedIsPrefix(df, sel, count);
      if 0.0 < mass <= 1.0 {
        ShortMisses(df, short, sel, mass);
      }
    }
  }

  lemma {:induction false} HeldWithin(df: Frequencies, sel: seq<bool>, n: nat)
    requires |sel| == |df| && n <= |df|
    ensures HeldBefore(df, sel, n) <= Total(df[..n])
  {
    if n > 0 {
      HeldWithin(df, sel, n - 1);
      assert df[..n][..n - 1] == df[..n - 1];
    }
  }

  /**
   Mark terms in descending order of frequency until the cumulative count reaches the target; at least one is
   taken. A target above the total runs off the end of the cumulative counts, which raises.
   */
  method SelectPrefix(df: Frequencies, mass: real) returns (r: Result<Selected>)
    requires Total(df) > 0
    ensures r.Ok? <==> mass <= 1.0
    ensures r.Ok? ==> IsSelection(df, mass, r.value)
  {
    var ordered := DescendingTerms(df);
    var target := Target(df, mass);
    var selected := seq(|df|, _ => false);
    NoneSelected(df, selected, target);
    ghost var short := selected;
    var count: nat, held: nat := 0, 0;
    while count < |ordered| && (count == 0 || held < target)
      invariant count <= |ordered|
      invariant Selecting(df, short, selected, count, held, target)
    {
      MarkNext(df, selected, count, held);
      short := selected;
      held := held + df[ordered[count]];
      selected := selected[ordered[count] := true];
      count := count + 1;
    }
    SelectingEnds(df, short, selected, count, held, mass);
    if held < target {
      return Error("index out of bounds for the cumulative counts");
    }
    r := Ok(Selected(selected, held as real / Total(df) as real));
  }

  /** The variant that checks the requested mass and reports a mass of one when there are no postings. */
  method SelectAcceleratedTerms(df: Frequencies, mass: real) returns (r: Result<Selected>)
    ensures r.Ok? <==> 0.0 < mass <= 1.0
    ensures r.Ok? && Total(df) > 0 ==> IsSelection(df, mass, r.value)
    ensures r.Ok? && Total(df) == 0 ==> r.value.mass == 1.0 && |r.value.terms| == |df| && Chosen(r.value.terms) == 0
  {
    if !(0.0 < mass <= 1.0) {
      return Error("accelerated posting mass must be in (0, 1]");
    }
    if Total(df) == 0 {
      var none := seq(|df|, _ => false);
      NothingMarked(df, none, |df|);
      return Ok(Selected(none, 1.0));
    }
    r := SelectPrefix(df, mass);
  }

  /** The variants that check nothing: they differ only in the mass reported when there are no postings. */
  method SelectHighDfTerms(df: Frequencies, mass: real, whenEmpty: real) returns (r: Result<Selected>)
    ensures r.Ok? <==> Total(df) == 0 || mass <= 1.0
    ensures r.Ok? && Total(df) > 0 ==> IsSelection(df, mass, r.value)
    ensures r.Ok? && Total(df) == 0 ==>
      r.value.mass == whenEmpty && |r.value.terms| == |df| && Chosen(r.value.terms) == 0
  {
    if Total(df) == 0 {
      var none := seq(|df|, _ => false);
      NothingMarked(df, none, |df|);
      return Ok(Selected(none, whenEmpty));
    }
    r := SelectPrefix(df, mass);
  }

  // ----- the posting cap -----

  /** The postings that remain when no list keeps more than `cap`. */
  function Capped(df: Frequencies, cap: nat): nat {
    if df == [] then 0 else Capped(df[..|df| - 1], cap) + Min(df[|df| - 1], cap)
  }

  function Largest(df: Frequencies): (r: nat)
    ensures r >= 1 && forall t :: 0 <= t < |df| ==> df[t] <= r
  {
    if df == [] then 1
    else
      var rest := Largest(df[..|df| - 1]);
      if rest < df[|df| - 1] then df[|df| - 1] else rest
  }

  lemma {:induction false} CappedMonotone(df: Frequencies, a: nat, b: nat)
    requires a <= b
    ensures Capped(df, a) <= Capped(df, b) <= Total(df)
  {
    if df != [] { CappedMonotone(df[..|df| - 1], a, b); }
  }

  lemma {:induction false} CapAboveAll(df: Frequencies, cap: nat)
    requires forall t :: 0 <= t < |df| ==> df[t] <= cap
    ensures Capped(df, cap) == Total(df)
  {
    if df != [] { CapAboveAll(df[..|df| - 1], cap); }
  }

  /** The share of all postings a cap keeps; without postings it is one. */
  function KeptMass(df: Frequencies, cap: nat): real {
    if Total(df) == 0 then 1.0 else Capped(df, cap) as real / Total(df) as real
  }

  lemma KeptMassMonotone(df: Frequencies, a: nat, b: nat)
    requires a <= b
    ensures KeptMass(df, a) <= KeptMass(df, b)
  {
    CappedMonotone(df, a, b);
    if Total(df) > 0 {
      QuotientMonotone(Capped(df, a) as real, Capped(df, b) as real, Total(df) as real);
    }
  }

  lemma WholeMass(df: Frequencies, cap: nat)
    requires forall t :: 0 <= t < |df| ==> df[t] <= cap
    ensures KeptMass(df, cap) == 1.0
  {
    CapAboveAll(df, cap);
    if Total(df) > 0 {
      SelfQuotient(Total(df) as real);
    }
  }

  lemma SelfQuotient(x: real)
    requires x > 0.0
    ensures x / x == 1.0
  {
  }

  function RetainedPostingMass(df: Frequencies, cap: int): (r: Result<real>)
    ensures r.Ok? <==> cap > 0
    ensures r.Ok? ==> 0.0 <= r.value <= 1.0 && (r.value == 1.0 <==> forall t :: 0 <= t < |df| ==> df[t] <= cap)
  {
    if cap <= 0 then Error("n-postings must be positive")
    else
      MassRange(df, cap);
      Ok(KeptMass(df, cap))
  }

  lemma {:induction false} CapCutsOne(df: Frequencies, cap: nat, t: nat)
    requires t < |df| && df[t] > cap
    ensures Capped(df, cap) < Total(df)
  {
    if t < |df| - 1 {
      CapCutsOne(df[..|df| - 1], cap, t);
    } else {
      CappedMonotone(df[..|df| - 1], cap, cap);
    }
  }

  lemma MassRange(df: Frequencies, cap: nat)
    ensures 0.0 <= KeptMass(df, cap) <= 1.0
    ensures KeptMass(df, cap) == 1.0 <==> forall t :: 0 <= t < |df| ==> df[t] <= cap
  {
    CappedMonotone(df, cap, cap);
    if t :| 0 <= t < |df| && df[t] > cap {
      CapCutsOne(df, cap, t);
      ProperShare(Capped(df, cap) as real, Total(df) as real);
    } else {
      WholeMass(df, cap);
    }
  }

  lemma ProperShare(part: real, whole: real)
    requires 0.0 <= part < whole
    ensures 0.0 <= part / whole < 1.0
  {
    DivideBack(part, whole);
    ProperFactor(part / whole, part, whole);
  }

  lemma ProperFactor(share: real, part: real, whole: real)
    requires 0.0 <= part < whole && share * whole == part
    ensures 0.0 <= share < 1.0
  {
    SignOfFactor(share, whole);
    if share >= 1.0 { TimesMonotone(1.0, share, whole); }
  }

  /** The least cap not below the minimum that keeps the target mass, even when the minimum exceeds every list. */
  ghost predicate IsLeastCap(df: Frequencies, target: real, minimum: nat, cap: nat) {
    && minimum <= cap && KeptMass(df, cap) >= target
    && forall c: nat :: minimum <= c < cap ==> KeptMass(df, c) < target
  }

  method PostingCapForMass(df: Frequencies, target: real, minimum: int) returns (r: Result<(nat, real)>)
    ensures r.Ok? <==> 0.0 < target <= 1.0 && minimum > 0
    ensures r.Ok? ==> IsLeastCap(df, target, minimum, r.value.0)
    ensures r.Ok? ==> RetainedPostingMass(df, r.value.0) == Ok(r.value.1)
  {
    if !(0.0 < target <= 1.0) {
      return Error("target posting mass must be in (0, 1]");
    }
    if minimum <= 0 {
      return Error("minimum posting cap must be positive");
    }
    if Total(df) == 0 {
      return Ok((minimum, 1.0));
    }
    var low: nat, high: nat := minimum, Largest(df);
    if low >= high {
      WholeMass(df, low);
      return Ok((low, KeptMass(df, low)));
    }
    WholeMass(df, high);
    while low < high
      invariant minimum <= low <= high
      invariant KeptMass(df, high) >= target
      invariant forall c: nat :: minimum <= c < low ==> KeptMass(df, c) < target
    {
      var middle := low + (high - low) / 2;
      if KeptMass(df, middle) >= target {
        high := middle;
      } else {
        forall c: nat | minimum <= c < middle + 1 ensures KeptMass(df, c) < target {
          KeptMassMonotone(df, c, middle);
        }
        low := middle + 1;
      }
    }
    r := Ok((low, KeptMass(df, low)));
  }
}
