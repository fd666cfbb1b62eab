/**
 * The arithmetic the reports share: the percentage `(part / whole) * 100`,
 * computed exactly, and the facts about products the proofs need.
 */
module Arith {

  /** `(part / whole) * 100` on exact reals. */
  function Percent(part: int, whole: int): (p: real)
    requires whole != 0
    ensures p * whole as real == 100.0 * part as real
  {
    var q := part as real / whole as real;
    assert q * whole as real == part as real;
    q * 100.0
  }

  /** A part of a positive whole is between 0% and 100% of it. */
  lemma PercentBounds(part: int, whole: int)
    requires 0 <= part <= whole && whole > 0
    ensures 0.0 <= Percent(part, whole) <= 100.0
  {
    var p, w := Percent(part, whole), whole as real;
    if p < 0.0 {
      PositiveProduct(-p, w);
    } else if p > 100.0 {
      PositiveProduct(p - 100.0, w);
    }
  }

  lemma PositiveProduct(a: real, b: real)
    requires a > 0.0 && b > 0.0
    ensures a * b > 0.0
  {
  }

  lemma MulNonNegative(a: int, b: int)
    requires a >= 0 && b >= 0
    ensures a * b >= 0
  {
  }

  lemma MulStep(a: int, b: int)
    ensures (a + 1) * b == a * b + b
  {
  }

  lemma MulMonotone(a: int, b: int, w: int)
    requires a <= b && w >= 0
    ensures a * w <= b * w
  {
    MulNonNegative(b - a, w);
    assert (b - a) * w == b * w - a * w;
  }
}
