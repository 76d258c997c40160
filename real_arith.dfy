/** Facts about ordered-field arithmetic on reals that the footprint and
    science proofs share. */
module RealArith {
  /** 0 <= a / b < 1 when 0 <= a < b. */
  lemma DivBelowOne(a: real, b: real)
    requires 0.0 <= a < b
    ensures 0.0 <= a / b < 1.0
  {
    assert (a / b) * b == a;
  }

  /** x * y lies between zero and y when 0 <= x <= 1 and y >= 0. */
  lemma MulLe(x: real, y: real)
    requires 0.0 <= x <= 1.0 && y >= 0.0
    ensures 0.0 <= x * y <= y
  {
  }

  /** Multiplying by a non-negative number keeps the order. */
  lemma MulMono(a: real, b: real, c: real)
    requires a <= b && c >= 0.0
    ensures a * c <= b * c
  {
    assert (b - a) * c >= 0.0;
  }

  /** A product of non-negative numbers is non-negative. */
  lemma MulNonNeg(a: real, b: real)
    requires a >= 0.0 && b >= 0.0
    ensures a * b >= 0.0
  {
  }

  /** Dividing by a positive number keeps the order. */
  lemma DivMono(a: real, b: real, d: real)
    requires a <= b && d > 0.0
    ensures a / d <= b / d
  {
    assert b / d - a / d == (b - a) / d;
  }
}
