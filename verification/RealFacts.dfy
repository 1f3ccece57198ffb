/** Facts about products and quotients of reals that the solver does not find on its own. */
module RealFacts {

  lemma QuotientTimes(v: real, s: real)
    requires s > 0.0
    ensures v / s * s == v
  {
  }

  lemma DivideBack(x: real, d: real, y: real)
    requires d > 0.0 && x * d == y
    ensures y / d == x
  {
  }

  lemma PositiveFactor(x: real, s: real)
    requires s > 0.0
    ensures x * s > 0.0 <==> x > 0.0
    ensures x * s < 0.0 <==> x < 0.0
  {
  }

  /** Comparing a quotient with a bound is comparing the dividend with the bound's multiple. */
  lemma QuotientCompare(v: real, s: real, bound: real)
    requires s > 0.0
    ensures v < bound * s <==> v / s < bound
    ensures bound * s < v <==> bound < v / s
  {
  }

  lemma MulMonotone(a: real, b: real, s: real)
    requires a <= b && s >= 0.0
    ensures a * s <= b * s
  {
  }

  lemma Distribute(a: real, b: real, s: real)
    ensures (a - b) * s == a * s - b * s
    ensures (a + b) * s == a * s + b * s
  {
  }
}
