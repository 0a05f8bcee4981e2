/**
 * Facts about division of reals, one nonlinear step each, on which the
 * percentage bounds of the reports rest.
 */
module Reals {
  /** Dividing by y and multiplying back gives the dividend. */
  lemma DivMul(x: real, y: real)
    requires y != 0.0
    ensures x / y * y == x
  {
  }

  /** A common non-zero factor cancels. */
  lemma MulCancel(x: real, z: real, y: real)
    requires y != 0.0 && x * y == z * y
    ensures x == z
  {
    assert (x - z) * y == 0.0;
  }

  /** A share of a non-negative quantity by a positive one is non-negative. */
  lemma DivNonNeg(x: real, y: real)
    requires 0.0 <= x && 0.0 < y
    ensures 0.0 <= x / y
  {
    DivMul(x, y);
  }

  /** Division by a positive quantity keeps the order. */
  lemma DivMonotone(x: real, z: real, y: real)
    requires x <= z && 0.0 < y
    ensures x / y <= z / y
  {
    DivMul(x, y);
    DivMul(z, y);
    assert (z / y - x / y) * y == z - x;
    DivNonNeg(z - x, y);
    assert (z - x) / y == z / y - x / y by {
      DivMul(z - x, y);
      MulCancel((z - x) / y, z / y - x / y, y);
    }
  }

  /** A positive quantity divided by itself is one. */
  lemma DivSelf(y: real)
    requires 0.0 < y
    ensures y / y == 1.0
  {
    DivMul(y, y);
    MulCancel(y / y, 1.0, y);
  }

  /** Multiplying by a positive quantity and dividing by it again gives the start. */
  lemma MulDiv(x: real, y: real)
    requires 0.0 < y
    ensures y * x / y == x
  {
    DivMul(y * x, y);
    MulCancel(y * x / y, x, y);
  }

  /** Shares of the same quantity add up. */
  lemma DivAdd(x: real, z: real, y: real)
    requires y != 0.0
    ensures x / y + z / y == (x + z) / y
  {
    DivMul(x, y);
    DivMul(z, y);
    DivMul(x + z, y);
    assert (x / y + z / y) * y == x / y * y + z / y * y;
    MulCancel(x / y + z / y, (x + z) / y, y);
  }
}
