/**
 Conservative 8-bit impact bounds. A term's impacts are divided by one 255th of their maximum, rounded up to a
 code between 1 and 255, and multiplied back. `ulp` stands for the distance `nextafter` moves.
 */
module Quantization {
  import opened Results
  import opened Postings

  const LEVELS := 255.0

  function Ceil(x: real): (r: int)
    ensures r as real - 1.0 < x <= r as real
  {
    -((-x).Floor)
  }

  function MaxImpact(p: PostingList): real
    requires |p| > 0
  {
    if |p| == 1 then p[0].impact
    else
      var rest := MaxImpact(p[1..]);
      if rest < p[0].impact then p[0].impact else rest
  }

  lemma {:induction false} MaxImpactBounds(p: PostingList, i: nat)
    requires i < |p|
    ensures p[i].impact <= MaxImpact(p)
  {
    if i > 0 { MaxImpactBounds(p[1..], i - 1); }
  }

  function Scale(p: PostingList, ulp: real): real
    requires |p| > 0
  {
    MaxImpact(p) / LEVELS + ulp
  }

  /** `np.clip(np.ceil(impact / scale), 1, levels)`. */
  function Code(impact: real, scale: real): (c: int)
    requires scale > 0.0
    ensures 1 <= c <= 255
  {
    var c := Ceil(impact / scale);
    if c < 1 then 1 else if c > 255 then 255 else c
  }

  function Bound(impact: real, scale: real, ulp: real): (b: real)
    requires scale > 0.0
    ensures b >= impact
  {
    var b := Code(impact, scale) as real * scale + ulp;
    if b < impact then impact else b
  }

  function QuantizeU8(p: PostingList, scale: real, ulp: real): (r: PostingList)
    requires scale > 0.0
    ensures |r| == |p|
    ensures forall i :: 0 <= i < |p| ==> r[i] == Posting(p[i].document, Bound(p[i].impact, scale, ulp))
  {
    seq(|p|, i requires 0 <= i < |p| => Posting(p[i].document, Bound(p[i].impact, scale, ulp)))
  }

  function QuantizeImpactsUp(p: PostingList, bits: nat, ulp: real): (r: Result<PostingList>)
    requires ulp > 0.0 && forall i :: 0 <= i < |p| ==> p[i].impact >= 0.0
    ensures r.Error? <==> p != [] && bits != 8 && bits != 32
    ensures r.Ok? ==> |r.value| == |p| && forall i :: 0 <= i < |p| ==>
      r.value[i].document == p[i].document && r.value[i].impact >= p[i].impact
    ensures bits == 32 ==> r == Ok(p)
  {
    if bits == 32 || |p| == 0 then Ok(p)
    else if bits != 8 then Error("frontier impact bits must be 8 or 32")
    else
      ScalePositive(p, ulp);
      Ok(QuantizeU8(p, Scale(p, ulp), ulp))
  }

  lemma ScalePositive(p: PostingList, ulp: real)
    requires |p| > 0 && ulp > 0.0 && p[0].impact >= 0.0
    ensures Scale(p, ulp) > 0.0 && MaxImpact(p) <= LEVELS * Scale(p, ulp)
  {
    MaxImpactBounds(p, 0);
  }

  lemma DivideBack(x: real, s: real)
    requires s > 0.0
    ensures (x / s) * s == x
  {
  }

  lemma TimesMonotone(x: real, y: real, s: real)
    requires x <= y && s > 0.0
    ensures x * s <= y * s
  {
  }

  lemma SignOfFactor(a: real, s: real)
    requires s > 0.0 && a * s >= 0.0
    ensures a >= 0.0
  {
  }

  lemma QuotientAtMost(x: real, s: real, m: real)
    requires s > 0.0 && x <= m * s
    ensures x / s <= m
  {
    DivideBack(x, s);
    var gap := m - x / s;
    assert gap * s == m * s - x;
    SignOfFactor(gap, s);
  }

  lemma QuotientMonotone(x: real, y: real, s: real)
    requires s > 0.0 && x <= y
    ensures x / s <= y / s
  {
    DivideBack(y, s);
    QuotientAtMost(x, s, y / s);
  }

  /** The code times the scale never falls short of an impact up to the maximum: the clip at 255 cuts nothing. */
  lemma CodeCovers(impact: real, scale: real)
    requires scale > 0.0 && impact <= LEVELS * scale
    ensures impact <= Code(impact, scale) as real * scale
  {
    DivideBack(impact, scale);
    QuotientAtMost(impact, scale, LEVELS);
    TimesMonotone(impact / scale, Code(impact, scale) as real, scale);
  }

  /** The bound exceeds the impact by at most one step of the scale. */
  lemma BoundIsTight(impact: real, scale: real, ulp: real)
    requires scale > 0.0 && ulp > 0.0 && 0.0 <= impact
    ensures Bound(impact, scale, ulp) <= impact + scale + ulp
  {
    DivideBack(impact, scale);
    QuotientMonotone(0.0, impact, scale);
    TimesMonotone(Code(impact, scale) as real, impact / scale + 1.0, scale);
  }

  /** Quantization keeps the impact order. */
  lemma BoundIsMonotone(x: real, y: real, scale: real, ulp: real)
    requires scale > 0.0 && x <= y
    ensures Bound(x, scale, ulp) <= Bound(y, scale, ulp)
  {
    var a, b := Code(x, scale) as real, Code(y, scale) as real;
    CodeIsMonotone(x, y, scale);
    LevelIsMonotone(a, b, scale, ulp);
    LargerOfIsMonotone(x, y, a * scale + ulp, b * scale + ulp);
  }

  lemma LevelIsMonotone(a: real, b: real, scale: real, ulp: real)
    requires scale > 0.0 && a <= b
    ensures a * scale + ulp <= b * scale + ulp
  {
    TimesMonotone(a, b, scale);
  }

  lemma LargerOfIsMonotone(x: real, y: real, u: real, v: real)
    requires x <= y && u <= v
    ensures (if u < x then x else u) <= (if v < y then y else v)
  {
  }

  lemma CodeIsMonotone(x: real, y: real, scale: real)
    requires scale > 0.0 && x <= y
    ensures Code(x, scale) <= Code(y, scale)
  {
    QuotientMonotone(x, y, scale);
    CeilIsMonotone(x / scale, y / scale);
  }

  lemma CeilIsMonotone(x: real, y: real)
    requires x <= y
    ensures Ceil(x) <= Ceil(y)
  {
  }

  lemma QuantizedUpIs(p: PostingList, ulp: real)
    requires ulp > 0.0 && |p| > 0 && forall j :: 0 <= j < |p| ==> p[j].impact >= 0.0
    ensures Scale(p, ulp) > 0.0
    ensures QuantizeImpactsUp(p, 8, ulp) == Ok(QuantizeU8(p, Scale(p, ulp), ulp))
  {
    ScalePositive(p, ulp);
  }

  lemma WithinScale(p: PostingList, ulp: real, i: nat)
    requires ulp > 0.0 && i < |p| && p[0].impact >= 0.0
    ensures Scale(p, ulp) > 0.0 && p[i].impact <= LEVELS * Scale(p, ulp)
  {
    ScalePositive(p, ulp);
    MaxImpactBounds(p, i);
  }

  lemma BoundWithin(impact: real, scale: real, ulp: real)
    requires scale > 0.0 && ulp > 0.0 && 0.0 <= impact <= LEVELS * scale
    ensures impact + ulp <= Bound(impact, scale, ulp) <= impact + scale + ulp
  {
    CodeCovers(impact, scale);
    BoundIsTight(impact, scale, ulp);
  }

  /**
   Theorem: u8 bounds exceed the impacts by an `ulp` at least, so that the last maximum changes nothing, and by one
   step and one `ulp` at most, and they keep documents and order.
   */
  lemma QuantizedUpFacts(p: PostingList, ulp: real, i: nat, r: PostingList)
    requires ulp > 0.0 && i < |p| && forall j :: 0 <= j < |p| ==> p[j].impact >= 0.0
    requires QuantizeImpactsUp(p, 8, ulp) == Ok(r)
    ensures |r| == |p| && r[i].document == p[i].document
    ensures p[i].impact + ulp <= r[i].impact <= p[i].impact + Scale(p, ulp) + ulp
    ensures forall j :: 0 <= j < |p| && p[j].impact <= p[i].impact ==> r[j].impact <= r[i].impact
  {
    QuantizedUpIs(p, ulp);
    WithinScale(p, ulp, i);
    BoundWithin(p[i].impact, Scale(p, ulp), ulp);
    forall j | 0 <= j < |p| && p[j].impact <= p[i].impact ensures r[j].impact <= r[i].impact {
      BoundIsMonotone(p[j].impact, p[i].impact, Scale(p, ulp), ulp);
    }
  }
}
