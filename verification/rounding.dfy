/** `Math.round` applied to exact quotients and to exact reals: the nearest
    integer, with halves going up (towards positive infinity). */
module Rounding {

  /** `Math.round(n / d)` for a positive denominator. The contract says `r`
      is within one half of `n / d`, the lower half-point included. */
  function RoundDiv(n: int, d: int): (r: int)
    requires d > 0
    ensures d * (2 * r - 1) <= 2 * n < d * (2 * r + 1)
  {
    var q := (2 * n + d) / (2 * d);
    var m := (2 * n + d) % (2 * d);
    assert 2 * n + d == 2 * d * q + m;
    q
  }

  /** A positive factor can be cancelled from both sides of a strict
      inequality. */
  lemma CancelPositive(d: int, x: int, y: int)
    requires d > 0
    requires d * x < d * y
    ensures x < y
  {
    assert d * (y - x) == d * y - d * x > 0;
  }

  /** Multiplying by a positive factor preserves order. */
  lemma MulMonotone(d: int, x: int, y: int)
    requires d > 0
    requires x <= y
    ensures d * x <= d * y
  {
    assert d * y - d * x == d * (y - x) >= 0;
  }

  /** At most one integer is within one half of `n / d`: the contract of
      `RoundDiv` pins its result down. */
  lemma RoundDivUnique(n: int, d: int, r: int)
    requires d > 0
    requires d * (2 * r - 1) <= 2 * n < d * (2 * r + 1)
    ensures r == RoundDiv(n, d)
  {
    var q := RoundDiv(n, d);
    CancelPositive(d, 2 * r - 1, 2 * q + 1);
    CancelPositive(d, 2 * q - 1, 2 * r + 1);
  }

  /** A larger numerator never rounds to a smaller integer. */
  lemma RoundDivMonotone(n1: int, n2: int, d: int)
    requires d > 0
    requires n1 <= n2
    ensures RoundDiv(n1, d) <= RoundDiv(n2, d)
  {
    var r1, r2 := RoundDiv(n1, d), RoundDiv(n2, d);
    CancelPositive(d, 2 * r1 - 1, 2 * r2 + 1);
  }

  /** `Math.round(x)` for an exact real `x`. */
  function RoundReal(x: real): (r: int)
    ensures r as real - 0.5 <= x < r as real + 0.5
  {
    (x + 0.5).Floor
  }
}
