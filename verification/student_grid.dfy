/**
 * The student-information grids: the three name grids (one column per
 * anchor, 28 rows A..Z, Ñ, '-'), the birth month, day and year grids and
 * the point lists of the SSC, 4Ps, special-class and gender bubbles.
 * Every interpolated y is `int(round(base + r * spacing))`.
 */
module StudentGrid {
  import opened Numeric
  import opened Geometry

  const NameRows: seq<char> := [
    'A', 'B', 'C', 'D', 'E', 'F', 'G', 'H', 'I', 'J',
    'K', 'L', 'M', 'N', 'O', 'P', 'Q', 'R', 'S', 'T',
    'U', 'V', 'W', 'X', 'Y', 'Z', 'Ñ', '-']

  const RowCount: nat := 28

  const Col1A: Point := Point(307, 597)
  const Col1Dash: Point := Point(307, 1908)
  const ColumnAPoints: seq<Point> := [
    Point(307, 597), Point(356, 596), Point(403, 595), Point(451, 597), Point(501, 595),
    Point(549, 597), Point(598, 596), Point(646, 598), Point(695, 596), Point(744, 596),
    Point(793, 595), Point(841, 597), Point(890, 596), Point(939, 597), Point(987, 596)]

  const FirstCol1A: Point := Point(1085, 596)
  const FirstCol1Dash: Point := Point(1083, 1907)
  const FirstColumnAPoints: seq<Point> := [
    Point(1085, 596), Point(1133, 596), Point(1181, 596), Point(1230, 596), Point(1279, 596),
    Point(1328, 596), Point(1376, 596), Point(1424, 596), Point(1474, 596), Point(1523, 596),
    Point(1571, 596), Point(1620, 596), Point(1668, 596), Point(1717, 598), Point(1764, 596),
    Point(1813, 596), Point(1862, 596), Point(1910, 596), Point(1959, 598)]

  const MiCol1A: Point := Point(2057, 598)
  const MiCol1Dash: Point := Point(2056, 1907)
  const MiColumnAPoints: seq<Point> := [Point(2058, 596), Point(2106, 597)]

  const SscPoint: Point := Point(1958, 3462)
  const FourPsPoints: seq<Point> := [Point(178, 3951), Point(373, 3950), Point(568, 3952)]
  const SpecialClassPoints: seq<Point> :=
    [Point(859, 3949), Point(859, 3999), Point(1297, 3950), Point(1296, 3998), Point(1685, 3950)]
  const GenderPoints: seq<Point> := [Point(2172, 3951), Point(2173, 3999)]

  function YsOf(pts: seq<Point>): (ys: seq<real>)
    ensures |ys| == |pts| && forall i :: 0 <= i < |pts| ==> ys[i] == pts[i].y as real
  {
    seq(|pts|, i requires 0 <= i < |pts| => pts[i].y as real)
  }

  /** `np.mean` of the anchors' ys: the y of row A shared by every column. */
  function BaseRowY(anchors: seq<Point>): real
    requires |anchors| > 0
  {
    Mean(YsOf(anchors))
  }

  /** `(dash.y - A.y) / (ROW_COUNT - 1)`. */
  function NameSpacing(top: Point, dash: Point): real
  {
    (dash.y - top.y) as real / (RowCount - 1) as real
  }

  datatype NameCell = NameCell(letter: char, at: Point)

  /** The builder shared by the last-name, first-name and middle-initial grids: column c sits at
      anchor c's x, and row r of every column at `int(round(base + r * spacing))`. */
  function NameGrid(anchors: seq<Point>, top: Point, dash: Point): (g: seq<seq<NameCell>>)
    requires |anchors| > 0
    ensures |g| == |anchors|
    ensures forall c :: 0 <= c < |g| ==> |g[c]| == RowCount
    ensures forall c, r :: 0 <= c < |g| && 0 <= r < RowCount ==>
      g[c][r].letter == NameRows[r] && g[c][r].at.x == anchors[c].x
  {
    RoundXs(anchors);
    seq(|anchors|, c requires 0 <= c < |anchors| =>
      seq(RowCount, r requires 0 <= r < RowCount =>
        NameCell(NameRows[r], Point(RoundHalfEven(anchors[c].x as real),
                                    RoundStep(BaseRowY(anchors), NameSpacing(top, dash), r)))))
  }

  lemma {:induction false} RoundXs(anchors: seq<Point>)
    ensures forall c :: 0 <= c < |anchors| ==> RoundHalfEven(anchors[c].x as real) == anchors[c].x
  {
    forall c | 0 <= c < |anchors|
      ensures RoundHalfEven(anchors[c].x as real) == anchors[c].x
    {
      RoundHalfEvenOfInt(anchors[c].x);
    }
  }

  /** All columns of a name grid share their row ys; row A lies at the rounded mean of the
      anchors' ys; and rows go strictly down the page once the dash click is more than 27 pixels
      below the A click. */
  lemma {:induction false} NameGridRows(anchors: seq<Point>, top: Point, dash: Point, c1: nat, c2: nat, r1: nat, r2: nat)
    requires |anchors| > 0 && c1 < |anchors| && c2 < |anchors| && r1 < RowCount && r2 < RowCount
    ensures NameGrid(anchors, top, dash)[c1][r1].at.y == NameGrid(anchors, top, dash)[c2][r1].at.y
    ensures NameGrid(anchors, top, dash)[c1][0].at.y == RoundHalfEven(BaseRowY(anchors))
    ensures dash.y - top.y > 27 && r1 < r2 ==>
      NameGrid(anchors, top, dash)[c1][r1].at.y < NameGrid(anchors, top, dash)[c1][r2].at.y
  {
    assert BaseRowY(anchors) + 0 as real * NameSpacing(top, dash) == BaseRowY(anchors);
    if dash.y - top.y > 27 && r1 < r2 {
      RoundStepStrict(BaseRowY(anchors), NameSpacing(top, dash), r1, r2);
    }
  }

  function LastNameGrid(): (g: seq<seq<NameCell>>)
    ensures |g| == 15
  {
    NameGrid(ColumnAPoints, Col1A, Col1Dash)
  }

  function FirstNameGrid(): (g: seq<seq<NameCell>>)
    ensures |g| == 19
  {
    NameGrid(FirstColumnAPoints, FirstCol1A, FirstCol1Dash)
  }

  function MiGrid(): (g: seq<seq<NameCell>>)
    ensures |g| == 2
  {
    NameGrid(MiColumnAPoints, MiCol1A, MiCol1Dash)
  }

  /** The shipped name grids have strictly increasing rows: their dash clicks lie 1311 and 1309
      pixels below the A clicks. */
  lemma {:induction false} ShippedNameGridsIncrease(c: nat, r1: nat, r2: nat)
    requires r1 < r2 < RowCount
    ensures c < 15 ==> LastNameGrid()[c][r1].at.y < LastNameGrid()[c][r2].at.y
    ensures c < 19 ==> FirstNameGrid()[c][r1].at.y < FirstNameGrid()[c][r2].at.y
    ensures c < 2 ==> MiGrid()[c][r1].at.y < MiGrid()[c][r2].at.y
  {
    if c < 15 {
      NameGridRows(ColumnAPoints, Col1A, Col1Dash, c, c, r1, r2);
    }
    if c < 19 {
      NameGridRows(FirstColumnAPoints, FirstCol1A, FirstCol1Dash, c, c, r1, r2);
    }
    if c < 2 {
      NameGridRows(MiColumnAPoints, MiCol1A, MiCol1Dash, c, c, r1, r2);
    }
  }

  const MonthTop: Point := Point(1910, 2783)
  const MonthBottom: Point := Point(1910, 3318)
  const MonthCount: nat := 12

  /** `build_month_grid`: twelve rows from MONTH_TOP to MONTH_BOTTOM. */
  function MonthGrid(): (g: seq<Point>)
    ensures |g| == MonthCount && forall r :: 0 <= r < MonthCount ==> g[r].x == 1910
  {
    RoundHalfEvenOfInt(MonthTop.x);
    var sp := (MonthBottom.y - MonthTop.y) as real / (MonthCount - 1) as real;
    seq(MonthCount, r requires 0 <= r < MonthCount =>
      Point(RoundHalfEven(MonthTop.x as real), RoundStep(MonthTop.y as real, sp, r)))
  }

  /** January sits at MONTH_TOP's y, December at MONTH_BOTTOM's y, and the months go strictly
      down the page. */
  lemma {:induction false} MonthGridLayout(r1: nat, r2: nat)
    requires r1 < r2 < MonthCount
    ensures MonthGrid()[0].y == 2783 && MonthGrid()[11].y == 3318
    ensures MonthGrid()[r1].y < MonthGrid()[r2].y
  {
    var sp := 535.0 / 11.0;
    assert 2783.0 + 0 as real * sp == 2783.0;
    assert 2783.0 + 11 as real * sp == 3318.0;
    RoundHalfEvenOfInt(2783);
    RoundHalfEvenOfInt(3318);
    RoundStepStrict(2783.0, sp, r1, r2);
  }

  const DayCol1Top: Point := Point(2105, 2880)
  const DayCol1Bottom: Point := Point(2105, 3027)
  const DayCol1Rows: nat := 4
  const DayCol2Top: Point := Point(2154, 2879)
  const DayCol2Rows: nat := 10

  /** `(DAY_COL1_BOTTOM.y - DAY_COL1_TOP.y) / 3`, the pitch of both day columns. */
  function DaySpacing(): real
  {
    (DayCol1Bottom.y - DayCol1Top.y) as real / (DayCol1Rows - 1) as real
  }

  /** `build_day_grid`: the tens column (rows 0..3) and the ones column (rows 0..9). The ones
      column takes its x from DAY_COL2_TOP but its top y and pitch from the tens column. */
  function DayGrid(): (g: seq<seq<Point>>)
    ensures |g| == 2 && |g[0]| == DayCol1Rows && |g[1]| == DayCol2Rows
    ensures forall r :: 0 <= r < DayCol1Rows ==> g[0][r].x == 2105
    ensures forall r :: 0 <= r < DayCol2Rows ==> g[1][r].x == 2154
  {
    RoundHalfEvenOfInt(DayCol1Top.x);
    RoundHalfEvenOfInt(DayCol2Top.x);
    [seq(DayCol1Rows, r requires 0 <= r < DayCol1Rows =>
       Point(RoundHalfEven(DayCol1Top.x as real), RoundStep(DayCol1Top.y as real, DaySpacing(), r))),
     seq(DayCol2Rows, r requires 0 <= r < DayCol2Rows =>
       Point(RoundHalfEven(DayCol2Top.x as real), RoundStep(DayCol1Top.y as real, DaySpacing(), r)))]
  }

  /** Rows 0..3 of the two day columns share their y, the pitch is exactly 49 pixels, and the
      ones column's rows go strictly down the page. */
  lemma {:induction false} DayGridRows(r: nat, r2: nat)
    requires r < r2 < DayCol2Rows
    ensures r < DayCol1Rows ==> DayGrid()[0][r].y == DayGrid()[1][r].y
    ensures DayGrid()[1][r].y == 2880 + 49 * r
    ensures DayGrid()[1][r].y < DayGrid()[1][r2].y
  {
    assert DaySpacing() == 49.0;
    assert 2880.0 + r as real * 49.0 == (2880 + 49 * r) as real;
    RoundHalfEvenOfInt(2880 + 49 * r);
    RoundStepStrict(2880.0, 49.0, r, r2);
  }

  const YearCol1Top: Point := Point(2202, 2879)
  const YearCol1Bottom: Point := Point(2202, 3319)
  const YearCol2Top: Point := Point(2251, 2880)
  const YearRows: nat := 10

  /** The side of the square window the student reader measures around a bubble. */
  const RoiSide: int := 14

  /** `build_ssc_grid`: the single SSC bubble under key 0. */
  function SscGrid(): (g: seq<(nat, Point)>)
    ensures |g| == 1 && g[0].0 == 0 && g[0].1 == SscPoint
  {
    Enumerate([SscPoint])
  }

  /** `build_4ps_grid`: Yes, No and I don't know under keys 0, 1, 2. */
  function FourPsGrid(): (g: seq<(nat, Point)>)
    ensures |g| == 3 && forall i :: 0 <= i < 3 ==> g[i].0 == i && g[i].1 == FourPsPoints[i]
  {
    Enumerate(FourPsPoints)
  }

  /** `build_special_class_grid`: the five special classes under keys 0..4. */
  function SpecialClassGrid(): (g: seq<(nat, Point)>)
    ensures |g| == 5 && forall i :: 0 <= i < 5 ==> g[i].0 == i && g[i].1 == SpecialClassPoints[i]
  {
    Enumerate(SpecialClassPoints)
  }

  /** `build_gender_grid`: Male and Female under keys 0 and 1. */
  function GenderGrid(): (g: seq<(nat, Point)>)
    ensures |g| == 2 && forall i :: 0 <= i < 2 ==> g[i].0 == i && g[i].1 == GenderPoints[i]
  {
    Enumerate(GenderPoints)
  }

  /** Within each option list the measuring windows of two different options never overlap, so
      one pencil mark cannot fill two options of the same question. */
  lemma {:induction false} OptionWindowsDisjoint(i: nat, j: nat)
    requires i < j
    ensures j < 3 ==> Apart(FourPsGrid()[i].1, FourPsGrid()[j].1, RoiSide)
    ensures j < 5 ==> Apart(SpecialClassGrid()[i].1, SpecialClassGrid()[j].1, RoiSide)
    ensures j < 2 ==> Apart(GenderGrid()[i].1, GenderGrid()[j].1, RoiSide)
  {
  }

  /** `build_year_grid`: two digit columns with the first column's top y and pitch. */
  function YearGrid(): (g: seq<seq<Point>>)
    ensures |g| == 2 && |g[0]| == YearRows && |g[1]| == YearRows
    ensures forall r :: 0 <= r < YearRows ==> g[0][r].x == 2202 && g[1][r].x == 2251
  {
    RoundHalfEvenOfInt(YearCol1Top.x);
    RoundHalfEvenOfInt(YearCol2Top.x);
    var sp := (YearCol1Bottom.y - YearCol1Top.y) as real / (YearRows - 1) as real;
    var xs := [YearCol1Top.x, YearCol2Top.x];
    seq(2, c requires 0 <= c < 2 =>
      seq(YearRows, r requires 0 <= r < YearRows =>
        Point(RoundHalfEven(xs[c] as real), RoundStep(YearCol1Top.y as real, sp, r))))
  }

  /** The two year columns have identical row ys, running strictly down from 2879 to 3319. */
  lemma {:induction false} YearGridRows(r: nat, r2: nat)
    requires r < r2 < YearRows
    ensures YearGrid()[0][r].y == YearGrid()[1][r].y
    ensures YearGrid()[0][0].y == 2879 && YearGrid()[0][9].y == 3319
    ensures YearGrid()[0][r].y < YearGrid()[0][r2].y
  {
    var sp := 440.0 / 9.0;
    assert 2879.0 + 0 as real * sp == 2879.0;
    assert 2879.0 + 9 as real * sp == 3319.0;
    RoundHalfEvenOfInt(2879);
    RoundHalfEvenOfInt(3319);
    RoundStepStrict(2879.0, sp, r, r2);
  }
}
