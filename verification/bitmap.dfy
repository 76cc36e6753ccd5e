/**
 * A thresholded page as a boolean pixel matrix, NumPy's two-dimensional
 * slicing of it (Python's rules for negative and out-of-range bounds),
 * and `cv2.countNonZero` and the ink ratio over the slice.
 */
module Bitmap {
  import opened Numeric

  /** `rows[y][x]` is true for an ink (non-zero) pixel. */
  datatype Mask = Mask(width: nat, rows: seq<seq<bool>>)
  {
    predicate Valid()
    {
      forall y :: 0 <= y < |rows| ==> |rows[y]| == width
    }

    function Height(): nat
    {
      |rows|
    }
  }

  /** A half-open index range `[lo, hi)`. */
  datatype Span = Span(lo: nat, hi: nat)
  {
    predicate Within(n: nat)
    {
      lo <= hi <= n
    }

    function Len(): nat
    {
      if lo <= hi then hi - lo else 0
    }
  }

  function MaxInt(a: int, b: int): int { if a >= b then a else b }
  function MinInt(a: int, b: int): int { if a <= b then a else b }

  /** How Python resolves one slice bound against a length n: a negative bound counts from
      the end, and the result is clamped into `[0, n]`. */
  function SliceBound(i: int, n: nat): (r: nat)
    ensures r <= n
    ensures 0 <= i <= n ==> r == i
    ensures i < 0 && i + n >= 0 ==> r == i + n
    ensures (i < 0 && i + n < 0 ==> r == 0) && (i > n ==> r == n)
  {
    var j := if i < 0 then i + n else i;
    if j < 0 then 0 else if j > n then n else j
  }

  /** The index range `xs[start:stop]` selects from a sequence of length n. */
  function PySlice(start: int, stop: int, n: nat): (s: Span)
    ensures s.Within(n)
    ensures 0 <= start <= stop <= n ==> s == Span(start, stop)
    ensures 0 <= stop <= start ==> s.Len() == 0
  {
    var a := SliceBound(start, n);
    var b := SliceBound(stop, n);
    Span(a, if b < a then a else b)
  }

  /** Ink pixels of `row[lo..hi]`. */
  function RowCount(row: seq<bool>, lo: nat, hi: nat): (c: nat)
    requires lo <= hi <= |row|
    ensures c <= hi - lo
    ensures (forall x :: lo <= x < hi ==> row[x]) ==> c == hi - lo
    ensures (forall x :: lo <= x < hi ==> !row[x]) ==> c == 0
    decreases hi - lo
  {
    if lo == hi then 0 else RowCount(row, lo, hi - 1) + (if row[hi - 1] then 1 else 0)
  }

  /** `cv2.countNonZero(m[rs, cs])`. */
  function Count(m: Mask, rs: Span, cs: Span): (c: nat)
    requires m.Valid() && rs.Within(m.Height()) && cs.Within(m.width)
    ensures c <= rs.Len() * cs.Len()
    decreases rs.Len()
  {
    if rs.lo == rs.hi then 0
    else
      var above := Count(m, Span(rs.lo, rs.hi - 1), cs);
      var here := RowCount(m.rows[rs.hi - 1], cs.lo, cs.hi);
      assert (rs.Len() - 1) * cs.Len() + cs.Len() == rs.Len() * cs.Len();
      above + here
  }

  predicate AllInk(m: Mask, rs: Span, cs: Span)
    requires m.Valid() && rs.Within(m.Height()) && cs.Within(m.width)
  {
    forall y, x :: rs.lo <= y < rs.hi && cs.lo <= x < cs.hi ==> m.rows[y][x]
  }

  predicate NoInk(m: Mask, rs: Span, cs: Span)
    requires m.Valid() && rs.Within(m.Height()) && cs.Within(m.width)
  {
    forall y, x :: rs.lo <= y < rs.hi && cs.lo <= x < cs.hi ==> !m.rows[y][x]
  }

  /** A window that is all ink counts every pixel, one without ink counts none. */
  lemma {:induction false} CountExtremes(m: Mask, rs: Span, cs: Span)
    requires m.Valid() && rs.Within(m.Height()) && cs.Within(m.width)
    ensures AllInk(m, rs, cs) ==> Count(m, rs, cs) == rs.Len() * cs.Len()
    ensures NoInk(m, rs, cs) ==> Count(m, rs, cs) == 0
    decreases rs.Len()
  {
    if rs.lo < rs.hi {
      var up := Span(rs.lo, rs.hi - 1);
      CountExtremes(m, up, cs);
      assert (rs.Len() - 1) * cs.Len() + cs.Len() == rs.Len() * cs.Len();
    }
  }

  /** Ink pixels over pixels of a window, 0 for an empty window. */
  function Ratio(m: Mask, rs: Span, cs: Span): (r: real)
    requires m.Valid() && rs.Within(m.Height()) && cs.Within(m.width)
    ensures 0.0 <= r <= 1.0
    ensures rs.Len() * cs.Len() == 0 ==> r == 0.0
  {
    var size := rs.Len() * cs.Len();
    if size == 0 then 0.0
    else
      var c := Count(m, rs, cs);
      FractionUnit(c, size);
      c as real / size as real
  }

  /** A window is fully inked exactly when its ratio is 1, and free of ink exactly when it is 0. */
  lemma {:induction false} RatioExtremes(m: Mask, rs: Span, cs: Span)
    requires m.Valid() && rs.Within(m.Height()) && cs.Within(m.width)
    requires rs.Len() * cs.Len() > 0
    ensures AllInk(m, rs, cs) <==> Ratio(m, rs, cs) == 1.0
    ensures NoInk(m, rs, cs) <==> Ratio(m, rs, cs) == 0.0
  {
    var c, size := Count(m, rs, cs), rs.Len() * cs.Len();
    assert Ratio(m, rs, cs) == c as real / size as real;
    CountExtremes(m, rs, cs);
    FractionExtremes(c, size);
    if c == size && !AllInk(m, rs, cs) {
      var y, x :| rs.lo <= y < rs.hi && cs.lo <= x < cs.hi && !m.rows[y][x];
      CountMissesOne(m, rs, cs, y, x);
    }
    if c == 0 && !NoInk(m, rs, cs) {
      var y, x :| rs.lo <= y < rs.hi && cs.lo <= x < cs.hi && m.rows[y][x];
      CountHitsOne(m, rs, cs, y, x);
    }
  }

  lemma {:induction false} RowCountMissesOne(row: seq<bool>, lo: nat, hi: nat, x: nat)
    requires lo <= x < hi <= |row| && !row[x]
    ensures RowCount(row, lo, hi) < hi - lo
    decreases hi - lo
  {
    if x < hi - 1 {
      RowCountMissesOne(row, lo, hi - 1, x);
    }
  }

  lemma {:induction false} RowCountHitsOne(row: seq<bool>, lo: nat, hi: nat, x: nat)
    requires lo <= x < hi <= |row| && row[x]
    ensures RowCount(row, lo, hi) > 0
    decreases hi - lo
  {
    if x < hi - 1 {
      RowCountHitsOne(row, lo, hi - 1, x);
    }
  }

  lemma {:induction false} CountMissesOne(m: Mask, rs: Span, cs: Span, y: nat, x: nat)
    requires m.Valid() && rs.Within(m.Height()) && cs.Within(m.width)
    requires rs.lo <= y < rs.hi && cs.lo <= x < cs.hi && !m.rows[y][x]
    ensures Count(m, rs, cs) < rs.Len() * cs.Len()
    decreases rs.Len()
  {
    var up := Span(rs.lo, rs.hi - 1);
    assert (rs.Len() - 1) * cs.Len() + cs.Len() == rs.Len() * cs.Len();
    if y < rs.hi - 1 {
      CountMissesOne(m, up, cs, y, x);
    } else {
      RowCountMissesOne(m.rows[y], cs.lo, cs.hi, x);
    }
  }

  lemma {:induction false} CountHitsOne(m: Mask, rs: Span, cs: Span, y: nat, x: nat)
    requires m.Valid() && rs.Within(m.Height()) && cs.Within(m.width)
    requires rs.lo <= y < rs.hi && cs.lo <= x < cs.hi && m.rows[y][x]
    ensures Count(m, rs, cs) > 0
    decreases rs.Len()
  {
    var up := Span(rs.lo, rs.hi - 1);
    if y < rs.hi - 1 {
      CountHitsOne(m, up, cs, y, x);
    } else {
      RowCountHitsOne(m.rows[y], cs.lo, cs.hi, x);
    }
  }
}
