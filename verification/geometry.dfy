/**
 * Pixel points and the interpolated rows and columns every grid builder
 * lays out: coordinate i of a line starting at `base` with step `spacing`,
 * truncated (`int(...)`) or rounded (`int(round(...))`) to a pixel.
 */
module Geometry {
  import opened Numeric

  datatype Point = Point(x: int, y: int)

  /** Python `int(base + i * spacing)`. */
  function Step(base: real, spacing: real, i: nat): int
  {
    Trunc(base + i as real * spacing)
  }

  /** Python `int(round(base + i * spacing))`. */
  function RoundStep(base: real, spacing: real, i: nat): int
  {
    RoundHalfEven(base + i as real * spacing)
  }

  /** The first n truncated steps of a line. */
  function Steps(base: real, spacing: real, n: nat): (ys: seq<int>)
    ensures |ys| == n && forall i :: 0 <= i < n ==> ys[i] == Step(base, spacing, i)
  {
    seq(n, i requires 0 <= i => Step(base, spacing, i))
  }

  /** `{i: pt for i, pt in enumerate(points)}`: the points keyed by their position. */
  function Enumerate(pts: seq<Point>): (g: seq<(nat, Point)>)
    ensures |g| == |pts|
    ensures forall i :: 0 <= i < |g| ==> g[i].0 == i && g[i].1 == pts[i]
  {
    seq(|pts|, i requires 0 <= i < |pts| => (i, pts[i]))
  }

  /** Two centres whose square windows of side `side` cannot overlap. */
  predicate Apart(p: Point, q: Point, side: int)
  {
    p.x - q.x >= side || q.x - p.x >= side || p.y - q.y >= side || q.y - p.y >= side
  }

  predicate Increasing(ys: seq<int>)
  {
    forall i, j :: 0 <= i < j < |ys| ==> ys[i] < ys[j]
  }

  predicate NonDecreasing(ys: seq<int>)
  {
    forall i, j :: 0 <= i < j < |ys| ==> ys[i] <= ys[j]
  }

  lemma {:induction false} ScaledMonotone(i: nat, j: nat, spacing: real)
    requires i <= j && spacing >= 0.0
    ensures i as real * spacing <= j as real * spacing
  {
    assert j as real * spacing - i as real * spacing == (j - i) as real * spacing;
  }

  /** Along a line with a non-negative step, truncated coordinates never decrease. */
  lemma {:induction false} StepMonotone(base: real, spacing: real, i: nat, j: nat)
    requires i <= j && spacing >= 0.0
    ensures Step(base, spacing, i) <= Step(base, spacing, j)
  {
    ScaledMonotone(i, j, spacing);
    TruncMonotone(base + i as real * spacing, base + j as real * spacing);
  }

  /** From a non-negative start, a step of at least one pixel gives strictly increasing
      truncated coordinates. */
  lemma {:induction false} StepStrict(base: real, spacing: real, i: nat, j: nat)
    requires i < j && base >= 0.0 && spacing >= 1.0
    ensures Step(base, spacing, i) < Step(base, spacing, j)
  {
    var a := base + i as real * spacing;
    var b := base + j as real * spacing;
    assert b - a == (j - i) as real * spacing;
    assert (j - i) as real * spacing >= spacing by {
      ScaledMonotone(1, j - i, spacing);
    }
    assert a >= 0.0 by {
      ScaledMonotone(0, i, spacing);
    }
    TruncShift(a);
    TruncMonotone(a + 1.0, b);
  }

  lemma {:induction false} StepsNonDecreasing(base: real, spacing: real, n: nat)
    requires spacing >= 0.0
    ensures NonDecreasing(Steps(base, spacing, n))
  {
    forall i, j | 0 <= i < j < n
      ensures Step(base, spacing, i) <= Step(base, spacing, j)
    {
      StepMonotone(base, spacing, i, j);
    }
  }

  lemma {:induction false} StepsIncreasing(base: real, spacing: real, n: nat)
    requires base >= 0.0 && spacing >= 1.0
    ensures Increasing(Steps(base, spacing, n))
  {
    forall i, j | 0 <= i < j < n
      ensures Step(base, spacing, i) < Step(base, spacing, j)
    {
      StepStrict(base, spacing, i, j);
    }
  }

  /** A line from pixel b to pixel e split into n - 1 equal steps starts at b and ends at e. */
  lemma {:induction false} StepEnds(b: int, e: int, n: nat)
    requires n >= 2
    ensures Step(b as real, (e - b) as real / (n - 1) as real, 0) == b
    ensures Step(b as real, (e - b) as real / (n - 1) as real, n - 1) == e
  {
    var sp := (e - b) as real / (n - 1) as real;
    assert (n - 1) as real * sp == (e - b) as real;
  }

  /** Rounded coordinates never decrease along a line with a non-negative step. */
  lemma {:induction false} RoundStepMonotone(base: real, spacing: real, i: nat, j: nat)
    requires i <= j && spacing >= 0.0
    ensures RoundStep(base, spacing, i) <= RoundStep(base, spacing, j)
  {
    ScaledMonotone(i, j, spacing);
    assert base + i as real * spacing <= base + j as real * spacing;
    RoundHalfEvenMonotone(base + i as real * spacing, base + j as real * spacing);
  }

  /** A step of more than one pixel gives strictly increasing rounded coordinates (a step of
      exactly one does not: 1.5 and 2.5 both round to 2). */
  lemma {:induction false} RoundStepStrict(base: real, spacing: real, i: nat, j: nat)
    requires i < j && spacing > 1.0
    ensures RoundStep(base, spacing, i) < RoundStep(base, spacing, j)
  {
    var a := base + i as real * spacing;
    var b := base + j as real * spacing;
    assert b - a == (j - i) as real * spacing;
    assert (j - i) as real * spacing >= spacing by {
      ScaledMonotone(1, j - i, spacing);
    }
    assert RoundHalfEven(a) as real <= a + 0.5 < b - 0.5 <= RoundHalfEven(b) as real;
  }
}
