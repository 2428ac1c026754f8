/** Minimum, magnitude, sign and shifts, with facts about products and quotients that the solver is slow to find. */
module Arithmetic {

  function Min(a: nat, b: nat): nat {
    if a <= b then a else b
  }

  function Abs(x: real): (r: real)
    ensures r >= 0.0 && r >= x && r >= -x
  {
    if x < 0.0 then -x else x
  }

  ghost predicate NonNegative(xs: seq<real>) {
    forall i :: 0 <= i < |xs| ==> xs[i] >= 0.0
  }

  /** `x >> shift` of a nonnegative integer. */
  function ShiftRight(x: nat, shift: nat): nat {
    if shift == 0 then x else ShiftRight(x / 2, shift - 1)
  }

  /** A share is one when nothing is missing. */
  lemma ShareIsOne(part: nat, whole: nat)
    requires whole > 0
    ensures part as real / whole as real == 1.0 <==> part == whole
  {
  }

  lemma ProductMonotone(a: int, b: int, width: nat)
    ensures a <= b ==> a * width <= b * width
  {
  }

  /** A quotient and a remainder in range are the quotient and the remainder. */
  lemma QuotientUnique(x: nat, width: nat, q: nat, r: nat)
    requires r < width && x == q * width + r
    ensures x / width == q && x % width == r
  {
    var a, b := x / width, x % width;
    assert x == a * width + b;
    assert (q - a) * width == b - r;
    ProductMonotone(1, q - a, width);
    ProductMonotone(q - a, -1, width);
  }
}
