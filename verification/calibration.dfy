/**
 * The per-subject auto-calibration of the answer-page scripts: a
 * filtered sample of pill scores, numpy's linearly interpolated
 * percentile of it, and the ink floor that percentile is clamped to.
 */
module Calibration {
  import opened Numeric

  /** The smallest value of a non-empty list (reference definition). */
  function MinOf(vs: seq<real>): (m: real)
    requires |vs| > 0
    ensures forall i :: 0 <= i < |vs| ==> m <= vs[i]
    ensures exists i :: 0 <= i < |vs| && vs[i] == m
  {
    if |vs| == 1 then vs[0]
    else
      var t := MinOf(vs[1..]);
      assert forall i :: 1 <= i < |vs| ==> vs[i] == vs[1..][i - 1];
      if vs[0] <= t then vs[0] else t
  }

  /** The largest value of a non-empty list (reference definition). */
  function MaxOf(vs: seq<real>): (m: real)
    requires |vs| > 0
    ensures forall i :: 0 <= i < |vs| ==> vs[i] <= m
    ensures exists i :: 0 <= i < |vs| && vs[i] == m
  {
    if |vs| == 1 then vs[0]
    else
      var t := MaxOf(vs[1..]);
      assert forall i :: 1 <= i < |vs| ==> vs[i] == vs[1..][i - 1];
      if vs[0] >= t then vs[0] else t
  }

  predicate SortedAsc(vs: seq<real>)
  {
    forall i, j :: 0 <= i < j < |vs| ==> vs[i] <= vs[j]
  }

  function InsertAsc(x: real, vs: seq<real>): (r: seq<real>)
    requires SortedAsc(vs)
    ensures SortedAsc(r)
    ensures multiset(r) == multiset(vs) + multiset{x}
    ensures |r| == |vs| + 1
    ensures forall i :: 0 <= i < |r| ==> r[i] == x || r[i] in vs
  {
    if |vs| == 0 || x <= vs[0] then [x] + vs
    else
      var t := InsertAsc(x, vs[1..]);
      InsertAscTail(x, vs, t);
      [vs[0]] + t
  }

  lemma {:induction false} InsertAscTail(x: real, vs: seq<real>, t: seq<real>)
    requires SortedAsc(vs) && |vs| > 0 && x > vs[0]
    requires SortedAsc(t) && multiset(t) == multiset(vs[1..]) + multiset{x}
    requires forall i :: 0 <= i < |t| ==> t[i] == x || t[i] in vs[1..]
    ensures SortedAsc([vs[0]] + t)
    ensures multiset([vs[0]] + t) == multiset(vs) + multiset{x}
    ensures forall i :: 0 <= i < |t| + 1 ==> ([vs[0]] + t)[i] == x || ([vs[0]] + t)[i] in vs
  {
    assert vs == [vs[0]] + vs[1..];
    forall i | 0 <= i < |t|
      ensures vs[0] <= t[i]
    {
      if t[i] != x {
        var k :| 0 <= k < |vs[1..]| && vs[1..][k] == t[i];
        assert vs[k + 1] == t[i];
      }
    }
  }

  /** numpy's ascending sort of the sample. */
  function SortAsc(vs: seq<real>): (r: seq<real>)
    ensures SortedAsc(r)
    ensures multiset(r) == multiset(vs)
    ensures |r| == |vs|
  {
    if |vs| == 0 then []
    else
      assert vs == [vs[0]] + vs[1..];
      InsertAsc(vs[0], SortAsc(vs[1..]))
  }

  /** The ends of an ascending rearrangement are the minimum and the maximum. */
  lemma {:induction false} SortedEnds(r: seq<real>, vs: seq<real>)
    requires SortedAsc(r) && multiset(r) == multiset(vs) && |vs| > 0
    ensures |r| == |vs| && r[0] == MinOf(vs) && r[|r| - 1] == MaxOf(vs)
  {
    assert |r| == |multiset(r)| == |vs|;
    var k :| 0 <= k < |vs| && vs[k] == MinOf(vs);
    var m :| 0 <= m < |vs| && vs[m] == MaxOf(vs);
    assert vs[k] in multiset(vs) && vs[m] in multiset(vs);
    assert vs[k] in r && vs[m] in r;
    assert r[0] in multiset(r) && r[|r| - 1] in multiset(r);
    assert r[0] in vs && r[|r| - 1] in vs;
  }

  /** numpy's virtual index `(n - 1) * p / 100` of the p-th percentile among n sorted values. */
  function VirtualIndex(n: nat, p: real): (idx: real)
    requires n > 0 && 0.0 <= p <= 100.0
    ensures 0.0 <= idx <= (n - 1) as real
    ensures 0 <= idx.Floor < n
  {
    var a := (n - 1) as real;
    var q := p / 100.0;
    MulUnitInterval(a, q);
    assert a * q <= a;
    a * q
  }

  /** Linear interpolation from a towards b by the fraction f. */
  function Lerp(a: real, b: real, f: real): (r: real)
    requires 0.0 <= f <= 1.0
    ensures a <= b ==> a <= r <= b
    ensures f == 0.0 ==> r == a
  {
    var d := b - a;
    if a <= b then
      MulUnitInterval(d, f);
      assert d * f <= d;
      a + f * d
    else a + f * d
  }

  /** The interpolated order statistic at percentile p of an already sorted list. */
  function SortedPercentile(s: seq<real>, p: real): (r: real)
    requires |s| > 0 && 0.0 <= p <= 100.0
    ensures SortedAsc(s) ==> s[0] <= r <= s[|s| - 1]
  {
    var idx := VirtualIndex(|s|, p);
    var lo := idx.Floor;
    if lo + 1 < |s| then
      var r := Lerp(s[lo], s[lo + 1], idx - lo as real);
      assert SortedAsc(s) ==> s[0] <= s[lo] <= s[lo + 1] <= s[|s| - 1];
      r
    else
      assert SortedAsc(s) ==> s[0] <= s[lo];
      s[lo]
  }

  /** `np.percentile(vs, p)` with numpy's default linear interpolation between order statistics. */
  function Percentile(vs: seq<real>, p: real): real
    requires |vs| > 0 && 0.0 <= p <= 100.0
  {
    SortedPercentile(SortAsc(vs), p)
  }

  /** The percentile lies between the smallest and the largest sample. */
  lemma {:induction false} PercentileBounds(vs: seq<real>, p: real)
    requires |vs| > 0 && 0.0 <= p <= 100.0
    ensures MinOf(vs) <= Percentile(vs, p) <= MaxOf(vs)
  {
    SortedEnds(SortAsc(vs), vs);
  }

  /** The 0th percentile is the minimum and the 100th the maximum. */
  lemma {:induction false} PercentileExtremes(vs: seq<real>)
    requires |vs| > 0
    ensures Percentile(vs, 0.0) == MinOf(vs)
    ensures Percentile(vs, 100.0) == MaxOf(vs)
  {
    var s := SortAsc(vs);
    SortedEnds(s, vs);
    assert VirtualIndex(|s|, 100.0) == (|s| - 1) as real;
    assert VirtualIndex(|s|, 0.0) == 0.0;
  }

  /** Python's `[v for v in vs if lo < v < hi]`: every occurrence of a value strictly between
      the bounds is kept, and no other value; the order is the subject of `BetweenConcat`. */
  function Between(vs: seq<real>, lo: real, hi: real): (r: seq<real>)
    ensures |r| <= |vs|
    ensures forall x :: x in r <==> x in vs && lo < x < hi
    ensures forall x :: multiset(r)[x] == if lo < x < hi then multiset(vs)[x] else 0
  {
    if |vs| == 0 then []
    else
      var t := Between(vs[1..], lo, hi);
      assert vs == [vs[0]] + vs[1..];
      assert multiset(vs) == multiset{vs[0]} + multiset(vs[1..]);
      if lo < vs[0] < hi then [vs[0]] + t else t
  }

  /** The filter distributes over concatenation, so the kept values appear in their original
      order: filtering a sequence is filtering its elements one at a time, left to right. */
  lemma {:induction false} BetweenConcat(vs: seq<real>, ws: seq<real>, lo: real, hi: real)
    ensures Between(vs + ws, lo, hi) == Between(vs, lo, hi) + Between(ws, lo, hi)
    ensures Between([], lo, hi) == []
    ensures forall x :: Between([x], lo, hi) == if lo < x < hi then [x] else []
    decreases |vs|
  {
    if |vs| > 0 {
      assert (vs + ws)[1..] == vs[1..] + ws;
      BetweenConcat(vs[1..], ws, lo, hi);
    } else {
      assert vs + ws == ws;
    }
    forall x ensures Between([x], lo, hi) == if lo < x < hi then [x] else [] {
      assert [x][1..] == [];
    }
  }

  /** Python's `[v for v in vs if v > 0]`: every occurrence of a positive value is kept, and no
      other value; the order is the subject of `PositiveConcat`. */
  function Positive(vs: seq<real>): (r: seq<real>)
    ensures |r| <= |vs|
    ensures forall x :: x in r <==> x in vs && x > 0.0
    ensures forall x :: multiset(r)[x] == if x > 0.0 then multiset(vs)[x] else 0
  {
    if |vs| == 0 then []
    else
      var t := Positive(vs[1..]);
      assert vs == [vs[0]] + vs[1..];
      assert multiset(vs) == multiset{vs[0]} + multiset(vs[1..]);
      if vs[0] > 0.0 then [vs[0]] + t else t
  }

  /** The positive filter distributes over concatenation, so the kept values keep their order. */
  lemma {:induction false} PositiveConcat(vs: seq<real>, ws: seq<real>)
    ensures Positive(vs + ws) == Positive(vs) + Positive(ws)
    ensures forall x :: Positive([x]) == if x > 0.0 then [x] else []
    decreases |vs|
  {
    if |vs| > 0 {
      assert (vs + ws)[1..] == vs[1..] + ws;
      PositiveConcat(vs[1..], ws);
    } else {
      assert vs + ws == ws;
    }
    forall x ensures Positive([x]) == if x > 0.0 then [x] else [] {
      assert [x][1..] == [];
    }
  }

  /** The clamped floor both scripts compute: with more than five samples, the percentile
      raised to the global floor; otherwise the global floor itself. */
  function CalibratedFloor(sample: seq<real>, p: real, globalFloor: real): (r: real)
    requires 0.0 <= p <= 100.0
    ensures r >= globalFloor
    ensures |sample| <= 5 ==> r == globalFloor
    ensures |sample| > 5 ==> r >= Percentile(sample, p) && (r == globalFloor || r == Percentile(sample, p))
  {
    if |sample| > 5 then MaxReal(Percentile(sample, p), globalFloor) else globalFloor
  }

  const ReadAnswersGlobalFloor: real := 0.04
  const ReadAnswersPercentile: real := 20.0
  const NoiseCeiling: real := 0.15

  /** Ink floor of the geometric script: the 20th percentile of the scores strictly between 0 and 0.15. */
  function ReadAnswersFloor(ratios: seq<real>): real
  {
    CalibratedFloor(Between(ratios, 0.0, NoiseCeiling), ReadAnswersPercentile, ReadAnswersGlobalFloor)
  }

  /** The calibrated floor never drops below 0.04 and never reaches 0.15, and it is exactly
      0.04 when at most five scores fall strictly between 0 and 0.15. */
  lemma {:induction false} ReadAnswersFloorRange(ratios: seq<real>)
    ensures 0.04 <= ReadAnswersFloor(ratios) < 0.15
    ensures |Between(ratios, 0.0, NoiseCeiling)| <= 5 ==> ReadAnswersFloor(ratios) == 0.04
  {
    var valid := Between(ratios, 0.0, NoiseCeiling);
    if |valid| > 5 {
      PercentileBounds(valid, ReadAnswersPercentile);
      var m :| 0 <= m < |valid| && valid[m] == MaxOf(valid);
      assert valid[m] in valid;
    }
  }

  const BkGlobalFloor: real := 0.010
  const BkPercentile: real := 15.0

  /** Ink floor of the contour script: the 15th percentile of the positive scores. */
  function BkFloor(values: seq<real>): real
  {
    CalibratedFloor(Positive(values), BkPercentile, BkGlobalFloor)
  }

  /** The floor is at least 0.010, exactly 0.010 with at most five positive scores,
      and never above the largest score once it is calibrated. */
  lemma {:induction false} BkFloorRange(values: seq<real>)
    ensures BkFloor(values) >= 0.010
    ensures |Positive(values)| <= 5 ==> BkFloor(values) == 0.010
    ensures |Positive(values)| > 5 ==> BkFloor(values) <= MaxReal(MaxOf(Positive(values)), 0.010)
  {
    var nz := Positive(values);
    if |nz| > 5 {
      PercentileBounds(nz, BkPercentile);
    }
  }

  /** Zero scores never reach the sample: appending one leaves the floor unchanged. */
  lemma {:induction false} BkFloorIgnoresZero(values: seq<real>)
    ensures BkFloor(values + [0.0]) == BkFloor(values)
  {
    PositiveAppendZero(values);
  }

  lemma {:induction false} PositiveAppendZero(values: seq<real>)
    ensures Positive(values + [0.0]) == Positive(values)
  {
    if |values| > 0 {
      assert (values + [0.0])[1..] == values[1..] + [0.0];
      PositiveAppendZero(values[1..]);
    }
  }

  /** A page where every score is zero calibrates to the global floor. */
  lemma {:induction false} BkFloorOfZeros(values: seq<real>)
    requires forall i :: 0 <= i < |values| ==> values[i] == 0.0
    ensures BkFloor(values) == 0.010
  {
    if |Positive(values)| > 0 {
      assert Positive(values)[0] in Positive(values);
    }
  }
}
