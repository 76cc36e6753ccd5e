/**
 * The Python numeric conversions the readers rely on, over exact reals:
 * `int(x)` truncates toward zero, `round(x)` rounds half to even, and
 * `round(x, n)` rounds to n decimals (half to even on the exact value).
 */
module Numeric {

  /** Python `int(x)` on a float: truncation toward zero. */
  function Trunc(x: real): (r: int)
    ensures x >= 0.0 ==> r as real <= x < r as real + 1.0
    ensures x < 0.0 ==> r as real - 1.0 < x <= r as real
  {
    if x >= 0.0 then x.Floor else -((-x).Floor)
  }

  /** Truncation never reverses the order of two reals. */
  lemma {:induction false} TruncMonotone(x: real, y: real)
    requires x <= y
    ensures Trunc(x) <= Trunc(y)
  {
  }

  /** Moving a non-negative real up by one moves its truncation up by one. */
  lemma {:induction false} TruncShift(x: real)
    requires x >= 0.0
    ensures Trunc(x + 1.0) == Trunc(x) + 1
  {
  }

  /** Python `round(x)`: nearest integer, ties go to the even neighbour. */
  function RoundHalfEven(x: real): (r: int)
    ensures x - 0.5 <= r as real <= x + 0.5
    ensures (r as real - x == 0.5 || x - r as real == 0.5) ==> r % 2 == 0
  {
    var f := x.Floor;
    var d := x - f as real;
    if d < 0.5 then f
    else if d > 0.5 then f + 1
    else if f % 2 == 0 then f
    else f + 1
  }

  lemma {:induction false} RoundHalfEvenOfInt(n: int)
    ensures RoundHalfEven(n as real) == n
  {
  }

  /** Rounding to the nearest integer never reverses the order of two reals. */
  lemma {:induction false} RoundHalfEvenMonotone(x: real, y: real)
    requires x <= y
    ensures RoundHalfEven(x) <= RoundHalfEven(y)
  {
    var fx, fy := x.Floor, y.Floor;
    if fx < fy {
      assert RoundHalfEven(x) <= fx + 1 <= fy <= RoundHalfEven(y);
    } else {
      assert fx == fy;
      assert x - fx as real <= y - fy as real;
    }
  }

  /** A positive integer scale `10^n` used by `round(x, n)`. */
  type Scale = s: int | s > 0 witness 1

  /** The real number `k / scale`: a value with at most n decimals when `scale == 10^n`. */
  function Unscale(k: int, scale: Scale): real
  {
    k as real / scale as real
  }

  lemma {:induction false} UnscaleMonotone(a: int, b: int, scale: Scale)
    requires a <= b
    ensures Unscale(a, scale) <= Unscale(b, scale)
  {
  }

  lemma {:induction false} UnscaleTimesScale(k: int, scale: Scale)
    ensures Unscale(k, scale) * scale as real == k as real
  {
  }

  lemma {:induction false} UnscaleZeroOne(scale: Scale)
    ensures Unscale(0, scale) == 0.0 && Unscale(scale, scale) == 1.0
  {
  }

  /** Python `round(x, n)` with `scale == 10^n`, over the exact value of `x`. */
  function RoundTo(x: real, scale: Scale): real
  {
    Unscale(RoundHalfEven(x * scale as real), scale)
  }

  /** `round(x, n)` moves x by at most half a unit of the last kept decimal. */
  lemma {:induction false} RoundToClose(x: real, scale: Scale)
    ensures x - 0.5 / scale as real <= RoundTo(x, scale) <= x + 0.5 / scale as real
  {
    var k := RoundHalfEven(x * scale as real);
    assert x * scale as real - 0.5 <= k as real <= x * scale as real + 0.5;
    DivBounds(x, k as real, scale as real);
  }

  lemma {:induction false} DivBounds(x: real, k: real, s: real)
    requires s > 0.0
    requires x * s - 0.5 <= k <= x * s + 0.5
    ensures x - 0.5 / s <= k / s <= x + 0.5 / s
  {
    assert (x * s - 0.5) / s == x - 0.5 / s;
    assert (x * s + 0.5) / s == x + 0.5 / s;
  }

  function Round2(x: real): real { RoundTo(x, 100) }
  function Round3(x: real): real { RoundTo(x, 1000) }
  function Round4(x: real): real { RoundTo(x, 10000) }

  /** `round(x, n)` never reverses the order of two reals. */
  lemma {:induction false} RoundToMonotone(x: real, y: real, scale: Scale)
    requires x <= y
    ensures RoundTo(x, scale) <= RoundTo(y, scale)
  {
    MulMonotone(x, y, scale as real);
    RoundToOfScaledOrder(x, y, scale);
  }

  lemma {:induction false} RoundToOfScaledOrder(x: real, y: real, scale: Scale)
    requires x * scale as real <= y * scale as real
    ensures RoundTo(x, scale) <= RoundTo(y, scale)
  {
    var a, b := x * scale as real, y * scale as real;
    RoundHalfEvenMonotone(a, b);
    UnscaleMonotone(RoundHalfEven(a), RoundHalfEven(b), scale);
  }

  lemma {:induction false} MulMonotone(x: real, y: real, s: real)
    requires x <= y && s > 0.0
    ensures x * s <= y * s
  {
  }

  /** A value that already has at most n decimals is left unchanged by `round(x, n)`. */
  lemma {:induction false} RoundToFixesGrid(k: int, scale: Scale)
    ensures RoundTo(Unscale(k, scale), scale) == Unscale(k, scale)
  {
    UnscaleTimesScale(k, scale);
    RoundHalfEvenOfInt(k);
  }

  /** `round(x, n)` keeps a value of [0, 1] inside [0, 1]. */
  lemma {:induction false} RoundToUnit(x: real, scale: Scale)
    requires 0.0 <= x <= 1.0
    ensures 0.0 <= RoundTo(x, scale) <= 1.0
  {
    UnscaleZeroOne(scale);
    RoundToMonotone(Unscale(0, scale), x, scale);
    RoundToMonotone(x, Unscale(scale, scale), scale);
    RoundToFixesGrid(0, scale);
    RoundToFixesGrid(scale, scale);
  }

  /** Rounding twice at the same scale is the same as rounding once. */
  lemma {:induction false} RoundToIdempotent(x: real, scale: Scale)
    ensures RoundTo(RoundTo(x, scale), scale) == RoundTo(x, scale)
  {
    RoundToFixesGrid(RoundHalfEven(x * scale as real), scale);
  }

  /** The difference of two values with at most n decimals has at most n decimals. */
  lemma {:induction false} RoundToDifference(x: real, y: real, scale: Scale)
    requires RoundTo(x, scale) == x && RoundTo(y, scale) == y
    ensures RoundTo(x - y, scale) == x - y
  {
    var a := RoundHalfEven(x * scale as real);
    var b := RoundHalfEven(y * scale as real);
    assert x == Unscale(a, scale);
    assert y == Unscale(b, scale);
    assert x - y == Unscale(a - b, scale);
    RoundToFixesGrid(a - b, scale);
  }

  lemma {:induction false} Round4Zero()
    ensures Round4(0.0) == 0.0
  {
    RoundToFixesGrid(0, 10000);
  }

  lemma {:induction false} Round4Difference(x: real, y: real)
    requires Round4(x) == x && Round4(y) == y
    ensures Round4(x - y) == x - y
  {
    RoundToDifference(x, y, 10000);
  }

  /** A threshold t with at most n decimals is kept by rounding: x >= t implies `round(x, n)` >= t. */
  lemma {:induction false} RoundToKeepsGridLowerBound(x: real, k: int, scale: Scale)
    requires x >= Unscale(k, scale)
    ensures RoundTo(x, scale) >= Unscale(k, scale)
  {
    RoundToMonotone(Unscale(k, scale), x, scale);
    RoundToFixesGrid(k, scale);
  }

  /** `round(x, n)` of a non-negative real is non-negative. */
  lemma {:induction false} RoundToNonNegative(x: real, scale: Scale)
    requires x >= 0.0
    ensures RoundTo(x, scale) >= 0.0
  {
    RoundToKeepsGridLowerBound(x, 0, scale);
  }

  /** Likewise from above: x < t implies `round(x, n)` <= t. */
  lemma {:induction false} RoundToKeepsGridUpperBound(x: real, k: int, scale: Scale)
    requires x <= Unscale(k, scale)
    ensures RoundTo(x, scale) <= Unscale(k, scale)
  {
    RoundToMonotone(x, Unscale(k, scale), scale);
    RoundToFixesGrid(k, scale);
  }

  function Sum(xs: seq<real>): real
  {
    if |xs| == 0 then 0.0 else Sum(xs[..|xs| - 1]) + xs[|xs| - 1]
  }

  /** Every summand at least `lo` makes the sum at least `|xs| * lo`. */
  lemma {:induction false} SumLowerBound(xs: seq<real>, lo: real)
    requires forall i :: 0 <= i < |xs| ==> xs[i] >= lo
    ensures Sum(xs) >= |xs| as real * lo
  {
    if |xs| > 0 {
      var init := xs[..|xs| - 1];
      assert forall i :: 0 <= i < |init| ==> init[i] == xs[i];
      SumLowerBound(init, lo);
    }
  }

  /** Every summand at most `hi` makes the sum at most `|xs| * hi`. */
  lemma {:induction false} SumUpperBound(xs: seq<real>, hi: real)
    requires forall i :: 0 <= i < |xs| ==> xs[i] <= hi
    ensures Sum(xs) <= |xs| as real * hi
  {
    if |xs| > 0 {
      var init := xs[..|xs| - 1];
      assert forall i :: 0 <= i < |init| ==> init[i] == xs[i];
      SumUpperBound(init, hi);
    }
  }

  /** Python's `sum(xs) / len(xs)`. */
  function Mean(xs: seq<real>): real
    requires |xs| > 0
  {
    Sum(xs) / |xs| as real
  }

  /** The mean of values bounded below (above) is bounded the same way. */
  lemma {:induction false} MeanBounds(xs: seq<real>, lo: real, hi: real)
    requires |xs| > 0
    requires forall i :: 0 <= i < |xs| ==> lo <= xs[i] <= hi
    ensures lo <= Mean(xs) <= hi
  {
    SumLowerBound(xs, lo);
    SumUpperBound(xs, hi);
    var n := |xs| as real;
    assert Sum(xs) / n >= (n * lo) / n;
    assert Sum(xs) / n <= (n * hi) / n;
  }

  /** The mean of values at least `lo` is at least `lo`. */
  lemma {:induction false} MeanAtLeast(xs: seq<real>, lo: real)
    requires |xs| > 0
    requires forall i :: 0 <= i < |xs| ==> lo <= xs[i]
    ensures lo <= Mean(xs)
  {
    SumLowerBound(xs, lo);
    var n := |xs| as real;
    assert Sum(xs) / n >= (n * lo) / n;
  }

  /** A count out of a positive total is a fraction in [0, 1]. */
  lemma {:induction false} FractionUnit(c: nat, n: nat)
    requires 0 < n && c <= n
    ensures 0.0 <= c as real / n as real <= 1.0
  {
    assert c as real / n as real <= n as real / n as real;
  }

  /** A fraction of whole counts is 1 exactly for the full count and 0 exactly for none. */
  lemma {:induction false} FractionExtremes(c: nat, n: nat)
    requires 0 < n && c <= n
    ensures c as real / n as real == 1.0 <==> c == n
    ensures c as real / n as real == 0.0 <==> c == 0
  {
    assert c as real == (c as real / n as real) * n as real;
  }

  /** Scaling by exactly 1 keeps an amount, scaling by exactly 0 clears it. */
  lemma {:induction false} MulUnitEnds(a: real, q: real)
    ensures q == 1.0 ==> a * q == a
    ensures q == 0.0 ==> a * q == 0.0
  {
    if q == 1.0 {
      assert a * q == a * 1.0;
    }
  }

  /** Scaling a non-negative amount by a fraction in [0, 1] keeps it between 0 and itself. */
  lemma {:induction false} MulUnitInterval(a: real, q: real)
    requires a >= 0.0 && 0.0 <= q <= 1.0
    ensures 0.0 <= a * q <= a
  {
    assert a * (1.0 - q) >= 0.0;
  }

  function MaxReal(a: real, b: real): real { if a >= b then a else b }
}
