/** Python's float-to-int conversions and `round`, over exact reals. */
module Numeric {

  /** `math.floor(x)`. */
  function Floor(x: real): (f: int)
    ensures f as real <= x < f as real + 1.0
  {
    x.Floor
  }

  /** `math.ceil(x)`. */
  function Ceil(x: real): (c: int)
    ensures c as real - 1.0 < x <= c as real
  {
    -((-x).Floor)
  }

  /** Floor and ceiling are equal on integral values and adjacent otherwise. */
  lemma FloorCeilAdjacent(x: real)
    ensures Floor(x) <= Ceil(x) <= Floor(x) + 1
    ensures Ceil(x) == Floor(x) <==> x == Floor(x) as real
  {
  }

  /** `int(x)` on a float: truncation toward zero. */
  function Trunc(x: real): (t: int)
    ensures 0.0 <= x ==> 0 <= t && t as real <= x < t as real + 1.0
    ensures x < 0.0 ==> t <= 0 && t as real - 1.0 < x <= t as real
  {
    if x >= 0.0 then Floor(x) else Ceil(x)
  }

  /** A square-root function on the non-negative reals (`x ** 0.5`). */
  ghost predicate IsSqrt(sqrt: real -> real)
  {
    forall x: real :: 0.0 <= x ==> 0.0 <= sqrt(x) && sqrt(x) * sqrt(x) == x
  }

  /** 10 raised to an integer power; negative powers are fractions. */
  function Pow10(p: int): (r: real)
    ensures r > 0.0
    decreases if p < 0 then -p else p
  {
    if p == 0 then 1.0 else if p > 0 then 10.0 * Pow10(p - 1) else Pow10(p + 1) / 10.0
  }

  /** Nearest integer to `y`, halves going to the even neighbour (as `round` does). */
  function RoundHalfEven(y: real): (n: int)
    ensures -0.5 <= n as real - y <= 0.5
    ensures n as real - y == 0.5 || n as real - y == -0.5 ==> n % 2 == 0
  {
    var f := Floor(y);
    var frac := y - f as real;
    if frac < 0.5 then f
    else if frac > 0.5 then f + 1
    else if f % 2 == 0 then f else f + 1
  }

  /** `round(x, points)`: the nearest multiple of 10^-points; it moves a value
      by at most half a unit in the last kept place. */
  function RoundTo(x: real, points: int): (r: real)
    ensures -0.5 / Pow10(points) <= r - x <= 0.5 / Pow10(points)
  {
    RoundToScale(x, Pow10(points))
  }

  /** Rounding to a whole number of units of size `1/p`, the nearest one
      (halves to the even one), so within half a unit of `x`. */
  function RoundToScale(x: real, p: real): (r: real)
    requires p > 0.0
    ensures r * p == RoundHalfEven(x * p) as real
    ensures -0.5 / p <= r - x <= 0.5 / p
  {
    ScaledError(x, p);
    RoundHalfEven(x * p) as real / p
  }

  /** The rounded value is a whole number of units of the last kept place:
      scaled by `unit` = 10^points it is the nearest integer to the scaled
      input, halves going to the even one. */
  lemma RoundToUnits(x: real, points: int, unit: real)
    requires unit == Pow10(points)
    ensures RoundTo(x, points) * unit == RoundHalfEven(x * unit) as real
  {
    assert RoundTo(x, points) == RoundToScale(x, unit);
    ScaleUnits(x, unit);
  }

  lemma ScaleUnits(x: real, p: real)
    requires p > 0.0
    ensures RoundToScale(x, p) * p == RoundHalfEven(x * p) as real
  {
  }

  lemma ScaledError(x: real, p: real)
    requires p > 0.0
    ensures -0.5 / p <= RoundHalfEven(x * p) as real / p - x <= 0.5 / p
  {
    ErrorBound(RoundHalfEven(x * p) as real, x, p);
  }

  lemma ErrorBound(n: real, x: real, p: real)
    requires p > 0.0 && -0.5 <= n - x * p <= 0.5
    ensures -0.5 / p <= n / p - x <= 0.5 / p
  {
    ScaleBack(n, x, p);
    DivideBounds(n - x * p, p);
  }

  lemma ScaleBack(n: real, x: real, p: real)
    requires p > 0.0
    ensures n / p - x == (n - x * p) / p
  {
    assert x == (x * p) / p;
  }

  lemma DivideBounds(d: real, p: real)
    requires p > 0.0 && -0.5 <= d <= 0.5
    ensures -0.5 / p <= d / p <= 0.5 / p
  {
    assert d / p - (-0.5) / p == (d + 0.5) / p;
    assert 0.5 / p - d / p == (0.5 - d) / p;
  }
}
