/**
 * The previous-school grids: the six school-id digit columns, the ten
 * final-grade columns (a tens and a ones column per subject), the two
 * class-size columns and the two school-year options. Row ys are
 * `int(top + i * spacing)` from a top and a bottom calibration point.
 */
module PreviousGrid {
  import opened Numeric
  import opened Geometry

  const ColTop: Point := Point(1327, 2151)
  const ColBottom: Point := Point(1326, 2589)
  const ColX: seq<int> := [1327, 1376, 1426, 1473, 1522, 1571]
  const RowCount: nat := 10

  const MathTensTop: Point := Point(938, 2879)
  const MathTensBottom: Point := Point(937, 3026)
  const MathOnesTop: Point := Point(987, 2879)
  const MathOnesBottom: Point := Point(985, 3318)
  const FinalGradeColX: seq<int> := [938, 987, 1084, 1134, 1230, 1279, 1375, 1425, 1522, 1570]
  const TensRowCount: nat := 4
  const OnesRowCount: nat := 10

  const Sy2015: Point := Point(646, 3173)
  const SyBefore: Point := Point(646, 3221)

  const ClassTensTop: Point := Point(1716, 2881)
  const ClassTensBottom: Point := Point(1715, 3319)
  const ClassOnesTop: Point := Point(1764, 2880)
  const ClassOnesBottom: Point := Point(1766, 3317)
  const ClassRowCount: nat := 10

  /** The row ys `int(top.y + i * (bottom.y - top.y) / (n - 1))` for i in 0..n-1. */
  function RowYs(top: Point, bottom: Point, n: nat): (ys: seq<int>)
    requires n >= 2
    ensures |ys| == n
    ensures ys[0] == top.y && ys[n - 1] == bottom.y
  {
    StepEnds(top.y, bottom.y, n);
    Steps(top.y as real, (bottom.y - top.y) as real / (n - 1) as real, n)
  }

  /** Rows whose calibration points lie on the page and are at least n - 1 pixels apart run
      strictly down the page. */
  lemma {:induction false} RowYsIncreasing(top: Point, bottom: Point, n: nat)
    requires n >= 2 && top.y >= 0 && bottom.y - top.y >= n - 1
    ensures Increasing(RowYs(top, bottom, n))
  {
    var spacing := (bottom.y - top.y) as real / (n - 1) as real;
    assert spacing >= 1.0 by {
      assert (bottom.y - top.y) as real >= (n - 1) as real;
    }
    StepsIncreasing(top.y as real, spacing, n);
  }

  datatype ColumnsGrid = ColumnsGrid(colX: seq<int>, rowY: seq<int>)

  /** `build_prev_school_id_grid`. */
  function SchoolIdGrid(): (g: ColumnsGrid)
    ensures g.colX == ColX && |g.rowY| == RowCount
    ensures g.rowY[0] == 2151 && g.rowY[9] == 2589
  {
    ColumnsGrid(ColX, RowYs(ColTop, ColBottom, RowCount))
  }

  datatype FinalGradeGrid = FinalGradeGrid(colX: seq<int>, tensRowY: seq<int>, onesRowY: seq<int>)

  /** `build_final_grade_grid`: the Math tens column fixes the four tens rows, the Math ones column
      the ten ones rows; the other subjects only contribute their xs. */
  function FinalGrades(): (g: FinalGradeGrid)
    ensures g.colX == FinalGradeColX && |g.colX| == 10
    ensures |g.tensRowY| == TensRowCount && |g.onesRowY| == OnesRowCount
  {
    FinalGradeGrid(FinalGradeColX, RowYs(MathTensTop, MathTensBottom, TensRowCount),
                   RowYs(MathOnesTop, MathOnesBottom, OnesRowCount))
  }

  /** The tens rows sit exactly 49 pixels apart: 2879, 2928, 2977, 3026. */
  lemma {:induction false} TensRowsExact()
    ensures FinalGrades().tensRowY == [2879, 2928, 2977, 3026]
  {
    assert (3026 - 2879) as real / (4 - 1) as real == 49.0;
    assert Step(2879.0, 49.0, 1) == 2928;
    assert Step(2879.0, 49.0, 2) == 2977;
  }

  datatype ClassSizeGrid = ClassSizeGrid(tensColX: int, onesColX: int, tensRowY: seq<int>, onesRowY: seq<int>)

  /** `build_class_size_grid`: one x and one list of ten ys per column. */
  function ClassSize(): (g: ClassSizeGrid)
    ensures g.tensColX == 1716 && g.onesColX == 1764
    ensures |g.tensRowY| == ClassRowCount && |g.onesRowY| == ClassRowCount
    ensures g.tensRowY[0] == 2881 && g.tensRowY[9] == 3319
    ensures g.onesRowY[0] == 2880 && g.onesRowY[9] == 3317
  {
    ClassSizeGrid(ClassTensTop.x, ClassOnesTop.x, RowYs(ClassTensTop, ClassTensBottom, ClassRowCount),
                  RowYs(ClassOnesTop, ClassOnesBottom, ClassRowCount))
  }

  /** Every row list of the previous-school grids runs strictly down the page. */
  lemma {:induction false} RowListsIncrease()
    ensures Increasing(SchoolIdGrid().rowY)
    ensures Increasing(FinalGrades().tensRowY) && Increasing(FinalGrades().onesRowY)
    ensures Increasing(ClassSize().tensRowY) && Increasing(ClassSize().onesRowY)
  {
    RowYsIncreasing(ColTop, ColBottom, RowCount);
    RowYsIncreasing(MathTensTop, MathTensBottom, TensRowCount);
    RowYsIncreasing(MathOnesTop, MathOnesBottom, OnesRowCount);
    RowYsIncreasing(ClassTensTop, ClassTensBottom, ClassRowCount);
    RowYsIncreasing(ClassOnesTop, ClassOnesBottom, ClassRowCount);
  }

  /** `build_sy_grid`: the two options, "2015" first. */
  function SchoolYearOptions(): (os: seq<Point>)
    ensures |os| == 2 && os[0] == Sy2015 && os[1] == SyBefore
    ensures os[0].x == os[1].x && os[0].y < os[1].y
  {
    [Sy2015, SyBefore]
  }
}
