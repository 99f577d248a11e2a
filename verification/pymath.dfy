/** Python's numeric conversions on exact reals: `int(x)` (truncation
    towards zero), `x // d` and `x % d` for a positive divisor (floor
    division), and `round(x)` (round half to even). Floating-point rounding
    effects are not modelled: every quantity is an exact rational. */
module PyMath {

  /** `int(x)` for a float `x`: drops the fraction, rounding towards zero. */
  function Trunc(x: real): (r: int)
    ensures x >= 0.0 ==> r == x.Floor
    ensures 0.0 <= x ==> 0 <= r
    ensures x >= 0.0 ==> x - 1.0 < r as real <= x
    ensures x < 0.0 ==> x <= r as real < x + 1.0
  {
    if x >= 0.0 then x.Floor else -((-x).Floor)
  }

  /** `x // d` for a positive divisor: the floor of the quotient. */
  function FloorDiv(x: real, d: real): (q: int)
    requires d > 0.0
    ensures q as real * d <= x < (q + 1) as real * d
  {
    FloorDivBounds(x, d);
    (x / d).Floor
  }

  /** `x % d` for a positive divisor: the remainder after floor division,
      so it lies in `[0, d)` whatever the sign of `x`. */
  function FloorMod(x: real, d: real): (r: real)
    requires d > 0.0
    ensures 0.0 <= r < d
    ensures x == FloorDiv(x, d) as real * d + r
  {
    x - FloorDiv(x, d) as real * d
  }

  lemma FloorDivBounds(x: real, d: real)
    requires d > 0.0
    ensures (x / d).Floor as real * d <= x < ((x / d).Floor + 1) as real * d
  {
    var q := x / d;
    assert q * d == x;
    var f := q.Floor;
    assert f as real <= q < f as real + 1.0;
    MulLeq(f as real, q, d);
    MulLt(q, f as real + 1.0, d);
    var g := (f + 1) as real;
    assert g == f as real + 1.0;
    assert g * d == (f as real + 1.0) * d;
    assert x < g * d;
  }

  lemma MulLeq(a: real, b: real, d: real)
    requires a <= b && d > 0.0
    ensures a * d <= b * d
  {
  }

  lemma MulLt(a: real, b: real, d: real)
    requires a < b && d > 0.0
    ensures a * d < b * d
  {
  }

  /** `round(x)`: the nearest integer, ties going to the even neighbour. */
  function RoundHalfEven(x: real): (r: int)
    ensures -0.5 <= r as real - x <= 0.5
    ensures r as real - x == 0.5 || x - r as real == 0.5 ==> r % 2 == 0
  {
    var f := x.Floor;
    var frac := x - f as real;
    if frac < 0.5 then f
    else if frac > 0.5 then f + 1
    else if f % 2 == 0 then f
    else f + 1
  }

  /** `round` is the only integer within one half of `x` that breaks ties to
      even: any integer that does the same is the rounded value. */
  lemma RoundHalfEvenUnique(x: real, k: int)
    requires -0.5 <= k as real - x <= 0.5
    requires k as real - x == 0.5 || x - k as real == 0.5 ==> k % 2 == 0
    ensures k == RoundHalfEven(x)
  {
  }

  /** Rounding is monotone, so `start <= end` survives it. */
  lemma RoundHalfEvenMonotone(x: real, y: real)
    requires x <= y
    ensures RoundHalfEven(x) <= RoundHalfEven(y)
  {
  }
}
