/** Real-number helpers shared by the text and image scores: Python's
    `min`, `max` and `abs` on floats, and the `min(1.0, max(0.0, x))`
    clamp both scorers end with. Floats are modelled as exact reals. */
module Numeric {

  function MinReal(a: real, b: real): real { if a <= b then a else b }

  function MaxReal(a: real, b: real): real { if a >= b then a else b }

  function AbsReal(a: real): real { if a >= 0.0 then a else -a }

  /** `min(1.0, max(0.0, x))`. */
  function Clamp01(x: real): (r: real)
    ensures 0.0 <= r <= 1.0
    ensures 0.0 <= x <= 1.0 ==> r == x
  {
    MinReal(1.0, MaxReal(0.0, x))
  }

  lemma ProductNonNegative(a: real, b: real)
    requires a >= 0.0 && b >= 0.0
    ensures a * b >= 0.0
  {
  }

  /** A part of a positive whole, divided by the whole, lies in [0, 1],
      and is 0 or 1 exactly at the ends. */
  lemma QuotientBounds(p: real, w: real)
    requires 0.0 <= p <= w && 0.0 < w
    ensures 0.0 <= p / w <= 1.0
    ensures p / w == 0.0 <==> p == 0.0
    ensures p / w == 1.0 <==> p == w
  {
    var r := p / w;
    assert r * w == p;
    assert (1.0 - r) * w == w - p;
  }

  lemma ProductPositive(a: real, b: real)
    requires a > 0.0 && b > 0.0
    ensures a * b > 0.0
  {
  }

  /** A non-negative quotient reaches one fifth exactly when five times the
      numerator reaches the denominator, and is 0 exactly for a zero
      numerator. */
  lemma QuotientFifth(c: real, n: real)
    requires 0.0 <= c && 0.0 < n
    ensures c / n >= 0.2 <==> 5.0 * c >= n
    ensures c / n == 0.0 <==> c == 0.0
  {
    FifthOfProduct(c / n, n, c);
  }

  lemma FifthOfProduct(q: real, n: real, c: real)
    requires 0.0 < n && q * n == c
    ensures q >= 0.2 <==> 5.0 * c >= n
  {
    if q >= 0.2 {
      ProductNonNegative(q - 0.2, n);
    } else {
      ProductNonNegative(0.2 - q, n);
      assert (0.2 - q) * n != 0.0;
    }
  }

  /** Reciprocals reverse the order of positive numbers: `a` and `b` are the
      reciprocals of `d1 <= d2`, so `b <= a`, strictly when `d1 < d2`. */
  lemma ReciprocalAntitone(a: real, d1: real, b: real, d2: real)
    requires 0.0 < d1 <= d2 && a * d1 == 1.0 && b * d2 == 1.0
    ensures b <= a
    ensures d1 < d2 ==> b < a
  {
    assert a > 0.0 && b > 0.0;
    ProductNonNegative(a, d2 - d1);
    if b > a {
      ProductPositive(b - a, d2);
    } else if b == a && d1 < d2 {
      ProductPositive(a, d2 - d1);
    }
  }

  /** Dividing by a positive number and multiplying back gives the
      numerator, and keeps a non-negative numerator non-negative. */
  lemma QuotientScales(c: real, n: real)
    requires 0.0 < n
    ensures (c / n) * n == c
    ensures 0.0 <= c ==> 0.0 <= c / n
  {
    ProductSign(c / n, n, c);
  }

  lemma ProductSign(q: real, n: real, c: real)
    requires 0.0 < n && q * n == c
    ensures 0.0 <= c ==> 0.0 <= q
  {
    if q < 0.0 {
      ProductPositive(-q, n);
    }
  }
}
