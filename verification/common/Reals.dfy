/** The few facts of real arithmetic the score laws rest on. */
module Reals {

  predicate IsUnit(x: real) { 0.0 <= x <= 1.0 }

  /** `p` lies between 0 and `x`. */
  predicate Between(x: real, p: real) { 0.0 <= p <= x || x <= p <= 0.0 }

  /** `p` lies in [-bound, bound]. */
  predicate Within(p: real, bound: real) { -bound <= p <= bound }

  lemma ProductNonNegative(x: real, y: real)
    requires x >= 0.0 && y >= 0.0
    ensures x * y >= 0.0
  {
  }

  lemma ProductNonPositive(x: real, y: real)
    requires x <= 0.0 && y >= 0.0
    ensures x * y <= 0.0
  {
  }

  lemma ScalePositive(x: real, f: real)
    requires x >= 0.0 && IsUnit(f)
    ensures Between(x, x * f)
  {
    ProductNonNegative(x, f);
    ProductNonNegative(x, 1.0 - f);
    assert x * (1.0 - f) == x - x * f;
  }

  lemma ScaleNegative(x: real, f: real)
    requires x <= 0.0 && IsUnit(f)
    ensures Between(x, x * f)
  {
    ProductNonPositive(x, f);
    ProductNonPositive(x, 1.0 - f);
    assert x * (1.0 - f) == x - x * f;
  }

  lemma Scale(x: real, f: real)
    requires IsUnit(f)
    ensures Between(x, x * f)
  {
    hide Between;
    if x >= 0.0 {
      ScalePositive(x, f);
    } else {
      ScaleNegative(x, f);
    }
  }

  lemma BetweenWithin(x: real, p: real, bound: real)
    requires Within(x, bound) && Between(x, p)
    ensures Within(p, bound)
  {
  }

  /** Scaling by a factor in [0, 1] keeps a symmetric bound. */
  lemma Shrinks(x: real, f: real, bound: real)
    requires Within(x, bound) && IsUnit(f)
    ensures Within(x * f, bound)
  {
    hide Between, Within, IsUnit;
    Scale(x, f);
    BetweenWithin(x, x * f, bound);
  }

  lemma UnitTimes(x: real, y: real)
    requires IsUnit(x) && IsUnit(y)
    ensures IsUnit(x * y)
  {
    ScalePositive(x, y);
  }

  lemma FourUnits(w: real, x: real, y: real, z: real)
    requires IsUnit(w) && IsUnit(x) && IsUnit(y) && IsUnit(z)
    ensures IsUnit(w * x * y * z)
  {
    UnitTimes(w, x);
    UnitTimes(w * x, y);
    UnitTimes(w * x * y, z);
  }

  lemma WithinTimes(s: real, w: real, bound: real)
    requires Within(s, bound) && w >= 0.0
    ensures Within(s * w, bound * w)
  {
    ProductNonNegative(bound - s, w);
    ProductNonNegative(bound + s, w);
    assert (bound - s) * w == bound * w - s * w;
    assert (bound + s) * w == bound * w + s * w;
  }

  /** One term of a weighted average: |s * w * conf| <= bound * w. */
  lemma TermBound(s: real, w: real, conf: real, bound: real)
    requires Within(s, bound) && w >= 0.0 && IsUnit(conf)
    ensures Within(s * w * conf, bound * w)
  {
    WithinTimes(s, w, bound);
    Shrinks(s * w, conf, bound * w);
  }

  lemma DivideMono(x: real, z: real, y: real)
    requires x <= z && y > 0.0
    ensures x / y <= z / y
  {
  }

  lemma QuotientIsUnit(x: real, y: real)
    requires 0.0 <= x <= y && y > 0.0
    ensures IsUnit(x / y)
  {
    DivideMono(0.0, x, y);
    DivideMono(x, y, y);
  }

  lemma DivideSum(x: real, y: real, t: real)
    requires t != 0.0
    ensures (x + y) / t == x / t + y / t
  {
  }

  lemma Distribute(b: real, x: real, y: real)
    ensures b * (x + y) == b * x + b * y
  {
  }

  /** Bounds add up along a weighted sum. */
  lemma WithinSum(x: real, y: real, bound: real, v: real, w: real)
    requires Within(x, bound * v) && Within(y, bound * w)
    ensures Within(x + y, bound * (v + w))
  {
    Distribute(bound, v, w);
  }
}
