/**
 * Facts about products of reals, each proved on its own so that the
 * proofs that use them reason linearly.
 */
module RealArith {

  lemma MulNonNegative(x: real, y: real)
    requires x >= 0.0 && y >= 0.0
    ensures x * y >= 0.0
  {
  }

  lemma MulDistributes(d: real, a: real, b: real)
    ensures d * (b - a) == d * b - d * a
  {
  }

  lemma MulMonotone(d: real, g1: real, g2: real)
    requires d >= 0.0 && g1 <= g2
    ensures d * g1 <= d * g2
  {
    MulNonNegative(d, g2 - g1);
    MulDistributes(d, g1, g2);
  }

  lemma MulAtMost(d: real, g: real)
    requires d >= 0.0 && g <= 1.0
    ensures d * g <= d
  {
    MulMonotone(d, g, 1.0);
  }

  lemma MulPositive(x: real, y: real)
    requires x > 0.0 && y > 0.0
    ensures x * y > 0.0
  {
  }

  /** Multiplying by a positive factor keeps the sign; multiplying by zero gives zero. */
  lemma MulSign(x: real, y: real)
    ensures x == 0.0 ==> x * y == 0.0
    ensures x > 0.0 ==> (x * y > 0.0 <==> y > 0.0) && (x * y < 0.0 <==> y < 0.0)
  {
    if x > 0.0 {
      if y > 0.0 {
        MulPositive(x, y);
      } else if y < 0.0 {
        MulPositive(x, -y);
        assert x * -y == -(x * y);
      }
    }
  }

  /** The square of a real, kept behind a name so that facts about it stay linear. */
  function Squared(x: real): real {
    x * x
  }

  lemma SquaredPositive(x: real)
    requires x > 0.0
    ensures 0.0 < Squared(x)
  {
    calc {
      Squared(x);
    ==
      x * x;
    >
      0.0;
    }
  }

  /** The only non-negative square root of 0 is 0. */
  lemma RootOfZero(x: real)
    requires x >= 0.0 && x * x == 0.0
    ensures x == 0.0
  {
    assert Squared(x) == 0.0;
    if x > 0.0 {
      SquaredPositive(x);
    }
  }
}
