/**
 * Python's built-in `round(x, n)`, applied to the exact value of `x`: the nearest
 * multiple of 10^-n, ties going to the even multiple. Float arithmetic itself is
 * not modelled; `x` is the exact real that the float would hold.
 */
module Rounding {

  /** Round `y` to an integer, ties to even. */
  function HalfEven(y: real): (n: int)
    ensures y - 0.5 <= n as real <= y + 0.5
  {
    var f := y.Floor;
    var frac := y - f as real;
    if frac < 0.5 then f
    else if frac > 0.5 then f + 1
    else if f % 2 == 0 then f
    else f + 1
  }

  /** `round(x, d)` where `scale` is 10^d. */
  function RoundTo(x: real, scale: real): real
    requires scale > 0.0
  {
    HalfEven(x * scale) as real / scale
  }

  /** `round(x, 1)`. */
  function Round1(x: real): real { RoundTo(x, 10.0) }

  /** `round(x, 2)`. */
  function Round2(x: real): real { RoundTo(x, 100.0) }

  lemma HalfEvenMonotone(y: real, z: real)
    requires y <= z
    ensures HalfEven(y) <= HalfEven(z)
  {
  }

  lemma HalfEvenOfInt(k: int)
    ensures HalfEven(k as real) == k
  {
  }

  lemma HalfEvenNeg(y: real)
    ensures HalfEven(-y) == -HalfEven(y)
  {
  }

  /** The rounded value is within half a unit of the last kept digit. */
  lemma RoundNear(x: real, scale: real)
    requires scale > 0.0
    ensures -0.5 / scale <= RoundTo(x, scale) - x <= 0.5 / scale
  {
  }

  /** Rounding never reverses an order. */
  lemma RoundMonotone(x: real, y: real, scale: real)
    requires scale > 0.0
    requires x <= y
    ensures RoundTo(x, scale) <= RoundTo(y, scale)
  {
    assert x * scale <= y * scale;
    HalfEvenMonotone(x * scale, y * scale);
  }

  /** Rounding is symmetric around zero: round(-x) == -round(x). */
  lemma RoundNeg(x: real, scale: real)
    requires scale > 0.0
    ensures RoundTo(-x, scale) == -RoundTo(x, scale)
  {
    assert -x * scale == -(x * scale);
    HalfEvenNeg(x * scale);
  }

  /** A whole number of units is left as it is. */
  lemma RoundOfUnits(x: real, k: int, scale: real)
    requires scale > 0.0
    requires x * scale == k as real
    ensures RoundTo(x, scale) == x
  {
    HalfEvenOfInt(k);
  }

  /** A whole number is left as it is by `round(x, 1)` and `round(x, 2)`. */
  lemma RoundOfInt(k: int)
    ensures Round1(k as real) == k as real && Round2(k as real) == k as real
  {
    RoundOfUnits(k as real, k * 10, 10.0);
    RoundOfUnits(k as real, k * 100, 100.0);
  }

  lemma RoundZero()
    ensures Round1(0.0) == 0.0 && Round2(0.0) == 0.0
  {
    RoundOfInt(0);
  }
}
