/** The few facts about products and quotients of reals the proofs lean on. */
module Reals {
  lemma MulNonneg(a: real, b: real)
    requires a >= 0.0 && b >= 0.0
    ensures a * b >= 0.0
  {
  }

  lemma MulPositive(a: real, b: real)
    requires a > 0.0 && b > 0.0
    ensures a * b > 0.0
  {
  }

  lemma MulNonZero(a: real, b: real)
    requires a != 0.0 && b != 0.0
    ensures a * b != 0.0
  {
  }

  /** A quotient is known by its product. */
  lemma DivIs(a: real, p: real, r: real)
    requires p != 0.0 && r * p == a
    ensures a / p == r
  {
  }

  lemma MulMonotone(a: real, b: real, c: real)
    requires a <= b && c >= 0.0
    ensures a * c <= b * c
  {
  }

  lemma DivPositive(a: real, p: real)
    requires a > 0.0 && p > 0.0
    ensures a / p > 0.0
  {
  }

  lemma DivNotPositive(a: real, p: real)
    requires a <= 0.0 && p > 0.0
    ensures a / p <= 0.0
  {
  }

  /** A product under a name, so that it can be kept closed. */
  function Mul(a: real, b: real): real {
    a * b
  }

  lemma MulAdd(a: real, b: real, c: real)
    ensures Mul(a + b, c) == Mul(a, c) + Mul(b, c)
  {
  }

  lemma MulOrder(x: real, y: real, c: real)
    requires c > 0.0
    ensures x > y <==> Mul(x, c) > Mul(y, c)
    ensures x > 0.0 <==> Mul(x, c) > 0.0
  {
  }

  lemma MulZero(c: real)
    ensures Mul(0.0, c) == 0.0
  {
  }

  lemma MulSwap(a: real, b: real, c: real)
    ensures Mul(Mul(a, b), c) == Mul(Mul(a, c), b)
  {
  }
}
