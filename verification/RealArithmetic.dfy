/** Facts about products and quotients of reals, over bare variables. */
module RealArithmetic {

  lemma ProductNonNegative(a: real, b: real)
    requires a >= 0.0 && b >= 0.0
    ensures a * b >= 0.0
  {
  }

  lemma FactorNonNegative(f: real, d: real)
    requires f > 0.0 && d * f >= 0.0
    ensures d >= 0.0
  {
  }

  lemma Distribute(a: real, b: real, f: real)
    ensures (a + b) * f == a * f + b * f
    ensures (a - b) * f == a * f - b * f
  {
  }

  lemma ScaleOrder(a: real, b: real, f: real)
    requires a <= b && f >= 0.0
    ensures a * f <= b * f
  {
    ProductNonNegative(b - a, f);
    Distribute(b, a, f);
  }

  lemma UnscaleOrder(a: real, b: real, f: real)
    requires f > 0.0 && a * f <= b * f
    ensures a <= b
  {
    Distribute(b, a, f);
    FactorNonNegative(f, b - a);
  }

  lemma QuotientTimes(a: real, b: real)
    requires b != 0.0
    ensures (a / b) * b == a
  {
  }

  /** A quotient lies between two bounds when its numerator does, scaled. */
  lemma QuotientBetween(num: real, den: real, lo: real, hi: real)
    requires den > 0.0 && lo * den <= num <= hi * den
    ensures lo <= num / den <= hi
  {
    QuotientTimes(num, den);
    UnscaleOrder(lo, num / den, den);
    UnscaleOrder(num / den, hi, den);
  }

  lemma Regroup(p: real, b: real, d: real)
    ensures p * (b * d) == (p * b) * d && p * (b * d) == (p * d) * b
  {
  }

  /** Comparing two quotients crosswise. */
  lemma QuotientsOrdered(a: real, b: real, c: real, d: real)
    requires b > 0.0 && d > 0.0 && a * d <= c * b
    ensures a / b <= c / d
  {
    QuotientTimes(a, b);
    QuotientTimes(c, d);
    Regroup(a / b, b, d);
    Regroup(c / d, b, d);
    assert b * d > 0.0;
    UnscaleOrder(a / b, c / d, b * d);
  }

  /** An error in a quotient, scaled back by the denominator. */
  lemma ScaledError(x: real, y: real, error: real, f: real, num: real)
    requires f > 0.0 && y * f == num && -error <= x - y <= error
    ensures -(error * f) <= x * f - num <= error * f
  {
    ScaleOrder(-error, x - y, f);
    ScaleOrder(x - y, error, f);
    Distribute(x, y, f);
  }
}
