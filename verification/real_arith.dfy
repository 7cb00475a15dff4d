/** Facts about products of reals that the solver does not find on its own. */
module RealArith {

  lemma ProductNonnegative(x: real, y: real)
    requires 0.0 <= x && 0.0 <= y
    ensures 0.0 <= x * y
  {
  }

  /** A non-negative distance scaled by a factor in [0, 1] stays within it. */
  lemma Scaled(d: real, a: real)
    requires 0.0 <= d && 0.0 <= a <= 1.0
    ensures 0.0 <= d * a <= d
  {
    ProductNonnegative(d, a);
    ProductNonnegative(d, 1.0 - a);
    assert d * (1.0 - a) == d - d * a;
  }

  lemma ProductPositive(x: real, y: real)
    requires 0.0 < x && 0.0 < y
    ensures 0.0 < x * y
  {
  }

  /** A positive factor can be cancelled from both sides. */
  lemma CancelFactor(x: real, y: real, m: real)
    requires 0.0 < m && x * m == y * m
    ensures x == y
  {
    if x > y {
      ProductPositive(x - y, m);
    } else if x < y {
      ProductPositive(y - x, m);
    }
  }
}
