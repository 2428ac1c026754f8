/**
 The centroid-ball bound of a document block. A block keeps part of its centroid, the norm of the part it dropped,
 and the radius of a ball around the centroid that holds all its documents. Vectors are dense; a square root is any
 nonnegative number whose square is at least its argument.
 */
module CentroidBall {

  type Vector = seq<real>

  function Dot(a: Vector, b: Vector): real
    requires |a| == |b|
  {
    if |a| == 0 then 0.0 else a[0] * b[0] + Dot(a[1..], b[1..])
  }

  /** The coordinates of `a` where `mask` is `keep`, zero elsewhere. */
  function Masked(a: Vector, mask: seq<bool>, keep: bool): (r: Vector)
    requires |a| == |mask|
    ensures |r| == |a|
  {
    if |a| == 0 then [] else [if mask[0] == keep then a[0] else 0.0] + Masked(a[1..], mask[1..], keep)
  }

  function Minus(a: Vector, b: Vector): (r: Vector)
    requires |a| == |b|
    ensures |r| == |a|
  {
    if |a| == 0 then [] else [a[0] - b[0]] + Minus(a[1..], b[1..])
  }

  /** `r` may stand for `math.sqrt(x)`. */
  ghost predicate IsRoot(r: real, x: real) {
    r >= 0.0 && r * r >= x
  }

  function AtLeastZero(x: real): real {
    if x < 0.0 then 0.0 else x
  }

  // ----- algebra -----

  /** A dot product splits into the part on the mask and the part off it. */
  lemma {:induction false} DotSplits(a: Vector, b: Vector, mask: seq<bool>)
    requires |a| == |b| == |mask|
    ensures Dot(a, b) == Dot(a, Masked(b, mask, true)) + Dot(Masked(a, mask, false), Masked(b, mask, false))
  {
    if |a| > 0 { DotSplits(a[1..], b[1..], mask[1..]); }
  }

  lemma {:induction false} NormSplits(a: Vector, mask: seq<bool>)
    requires |a| == |mask|
    ensures Dot(Masked(a, mask, false), Masked(a, mask, false))
         == Dot(a, a) - Dot(Masked(a, mask, true), Masked(a, mask, true))
  {
    if |a| > 0 { NormSplits(a[1..], mask[1..]); }
  }

  lemma {:induction false} DotMinus(q: Vector, x: Vector, c: Vector)
    requires |q| == |x| == |c|
    ensures Dot(q, x) == Dot(q, c) + Dot(q, Minus(x, c))
  {
    if |q| > 0 {
      DotMinus(q[1..], x[1..], c[1..]);
      assert q[0] * (x[0] - c[0]) == q[0] * x[0] - q[0] * c[0];
    }
  }

  lemma SquareOfDifference(x: real, c: real, xs: real, xcs: real, cs: real)
    ensures (x - c) * (x - c) + (xs - 2.0 * xcs + cs) == (x * x + xs) - 2.0 * (x * c + xcs) + (c * c + cs)
  {
  }

  /** The squared distance as the script expands it. */
  lemma {:induction false} DistanceExpands(x: Vector, c: Vector)
    requires |x| == |c|
    ensures Dot(Minus(x, c), Minus(x, c)) == Dot(x, x) - 2.0 * Dot(x, c) + Dot(c, c)
  {
    if |x| > 0 {
      var m := Minus(x, c);
      var xs, xcs, cs := Dot(x[1..], x[1..]), Dot(x[1..], c[1..]), Dot(c[1..], c[1..]);
      DistanceExpands(x[1..], c[1..]);
      calc {
        Dot(m, m);
      ==
        m[0] * m[0] + Dot(m[1..], m[1..]);
      ==  { assert m[0] == x[0] - c[0] && m[1..] == Minus(x[1..], c[1..]); }
        (x[0] - c[0]) * (x[0] - c[0]) + (xs - 2.0 * xcs + cs);
      ==  { SquareOfDifference(x[0], c[0], xs, xcs, cs); }
        (x[0] * x[0] + xs) - 2.0 * (x[0] * c[0] + xcs) + (c[0] * c[0] + cs);
      }
    }
  }

  lemma {:induction false} NormNonNegative(a: Vector)
    ensures Dot(a, a) >= 0.0
  {
    if |a| > 0 { NormNonNegative(a[1..]); }
  }

  // ----- Cauchy-Schwarz -----

  /** The square of `d` is at most the product of `p` and `q`. */
  ghost predicate SquareWithin(d: real, p: real, q: real) {
    d * d <= p * q
  }

  lemma SquareNonNegative(x: real)
    ensures x * x >= 0.0
  {
  }

  /** If `d * d <= p * q` then `2 * d * (x * y) <= p * (y * y) + q * (x * x)`. */
  lemma CrossTerm(d: real, p: real, q: real, x: real, y: real)
    requires p >= 0.0 && q >= 0.0 && SquareWithin(d, p, q)
    ensures 2.0 * (d * (x * y)) <= p * (y * y) + q * (x * x)
  {
    var u, v, z := p * (y * y), q * (x * x), d * (x * y);
    SquareNonNegative(y);
    SquareNonNegative(x);
    assert u >= 0.0 && v >= 0.0;
    SquareNonNegative(x * y);
    SquareNonNegative(u - v);
    var w := (x * y) * (x * y);
    assert z * z == (d * d) * w;
    assert u * v == (p * q) * w;
    ScaledAtMost(d * d, p * q, w);
    SquareOfSum(u, v);
    assert (2.0 * z) * (2.0 * z) <= (u + v) * (u + v);
    SquareOrder(2.0 * z, u + v);
  }

  lemma ScaledAtMost(a: real, b: real, w: real)
    requires a <= b && w >= 0.0
    ensures a * w <= b * w
  {
  }

  lemma SquareOfSum(u: real, v: real)
    ensures (u + v) * (u + v) == (u - v) * (u - v) + 4.0 * (u * v)
  {
  }

  lemma PositiveProduct(x: real, y: real)
    requires x > 0.0 && y > 0.0
    ensures x * y > 0.0
  {
  }

  lemma SquareStrict(b: real, a: real)
    requires 0.0 <= b < a
    ensures b * b < a * a
  {
    PositiveProduct(a - b, a + b);
    assert (a - b) * (a + b) == a * a - b * b;
  }

  lemma SquareOrder(a: real, b: real)
    requires b >= 0.0 && a * a <= b * b
    ensures a <= b
  {
    if a > b { SquareStrict(b, a); }
  }

  lemma ExpandStep(d: real, p: real, q: real, x: real, y: real)
    requires SquareWithin(d, p, q) && 2.0 * (d * (x * y)) <= p * (y * y) + q * (x * x)
    ensures SquareWithin(x * y + d, x * x + p, y * y + q)
  {
    assert (x * y + d) * (x * y + d) == (x * y) * (x * y) + 2.0 * (d * (x * y)) + d * d;
    assert (x * x + p) * (y * y + q) == (x * x) * (y * y) + (x * x) * q + p * (y * y) + p * q;
    assert (x * y) * (x * y) == (x * x) * (y * y);
  }

  lemma {:induction false} CauchySchwarz(a: Vector, b: Vector)
    requires |a| == |b|
    ensures SquareWithin(Dot(a, b), Dot(a, a), Dot(b, b))
  {
    if |a| > 0 {
      var d, p, q := Dot(a[1..], b[1..]), Dot(a[1..], a[1..]), Dot(b[1..], b[1..]);
      CauchySchwarz(a[1..], b[1..]);
      NormNonNegative(a[1..]);
      NormNonNegative(b[1..]);
      CrossTerm(d, p, q, a[0], b[0]);
      ExpandStep(d, p, q, a[0], b[0]);
    }
  }

  lemma RootProduct(d: real, p: real, q: real, s: real, t: real)
    requires IsRoot(s, p) && IsRoot(t, q) && p >= 0.0 && q >= 0.0 && SquareWithin(d, p, q)
    ensures d <= s * t
  {
    assert (s * t) * (s * t) == (s * s) * (t * t);
    SquareNonNegative(t);
    ScaledAtMost(p, s * s, t * t);
    ScaledAtMost(q, t * t, p);
    SquareOrder(d, s * t);
  }

  lemma DotWithinRoots(a: Vector, b: Vector, s: real, t: real)
    requires |a| == |b| && IsRoot(s, Dot(a, a)) && IsRoot(t, Dot(b, b))
    ensures Dot(a, b) <= s * t
  {
    CauchySchwarz(a, b);
    NormNonNegative(a);
    NormNonNegative(b);
    RootProduct(Dot(a, b), Dot(a, a), Dot(b, b), s, t);
  }

  function Score(q: Vector, x: Vector): real
    requires |q| == |x|
  {
    Dot(q, x)
  }

  /** The bound: the query on the kept part of the centroid, plus the two norm products. */
  function BallValue(
      q: Vector, c: Vector, mask: seq<bool>,
      queryNorm: real, queryResidual: real, centroidResidual: real, radius: real): real
    requires |q| == |c| == |mask|
  {
    Dot(q, Masked(c, mask, true)) + queryResidual * centroidResidual + queryNorm * radius
  }

  /** The squared norm of what `mask` drops from `v`, as the script computes it. */
  function DroppedSquared(v: Vector, mask: seq<bool>): real
    requires |v| == |mask|
  {
    AtLeastZero(Dot(v, v) - Dot(Masked(v, mask, true), Masked(v, mask, true)))
  }

  function DistanceSquared(x: Vector, c: Vector): real
    requires |x| == |c|
  {
    Dot(x, x) - 2.0 * Dot(x, c) + Dot(c, c)
  }

  lemma RootWeakens(r: real, x: real, y: real)
    requires IsRoot(r, y) && x <= y
    ensures IsRoot(r, x)
  {
  }

  /**
   Theorem: the bound covers every document in the ball, whatever centre was taken, whichever of its coordinates
   were kept, and whatever the signs of query and document.
   */
  lemma CentroidBallCovers(
      q: Vector, x: Vector, c: Vector, mask: seq<bool>,
      queryNorm: real, queryResidual: real, centroidResidual: real, radius: real)
    requires |q| == |x| == |c| == |mask|
    requires IsRoot(queryNorm, Dot(q, q))
    requires IsRoot(queryResidual, DroppedSquared(q, mask))
    requires IsRoot(centroidResidual, DroppedSquared(c, mask))
    requires IsRoot(radius, DistanceSquared(x, c))
    ensures Score(q, x) <= BallValue(q, c, mask, queryNorm, queryResidual, centroidResidual, radius)
  {
    DotMinus(q, x, c);
    DotSplits(q, c, mask);
    NormSplits(q, mask);
    NormSplits(c, mask);
    DotWithinRoots(Masked(q, mask, false), Masked(c, mask, false), queryResidual, centroidResidual);
    DistanceExpands(x, c);
    DotWithinRoots(q, Minus(x, c), queryNorm, radius);
  }
}
