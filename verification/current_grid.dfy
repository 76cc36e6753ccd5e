/**
 * The current-school grids: the region column, the two division digit
 * columns, the six school-id digit columns and the ten school-type
 * points. Interpolated coordinates are `int(top + i * spacing)`.
 */
module CurrentGrid {
  import opened Numeric
  import opened Geometry

  const RegionTop: Point := Point(793, 2104)
  const RegionBottom: Point := Point(793, 2879)
  const RegionRows: nat := 17

  const DivCol1Top: Point := Point(841, 2150)
  const DivCol1Bottom: Point := Point(841, 2588)
  const DivLastTop: Point := Point(890, 2150)
  const DivRows: nat := 10
  const DivCols: nat := 2

  const SidCol1Top: Point := Point(939, 2150)
  const SidCol1Bottom: Point := Point(938, 2589)
  const SidColX: seq<int> := [939, 986, 1035, 1084, 1132, 1182]
  const SidRows: nat := 10

  const SchoolTypePoints: seq<Point> := [
    Point(159, 2734), Point(159, 2831), Point(159, 2881), Point(159, 2930), Point(159, 2976),
    Point(159, 3025), Point(159, 3122), Point(159, 3173), Point(159, 3220), Point(159, 3267)]

  /** `(bottom.y - top.y) / (n - 1)`. */
  function Pitch(top: Point, bottom: Point, n: nat): real
    requires n >= 2
  {
    (bottom.y - top.y) as real / (n - 1) as real
  }

  /** `build_region_grid`: 17 rows at REGION_TOP's x. */
  function RegionGrid(): (g: seq<Point>)
    ensures |g| == RegionRows && forall r :: 0 <= r < RegionRows ==> g[r].x == 793
  {
    seq(RegionRows, r requires 0 <= r < RegionRows =>
      Point(RegionTop.x, Step(RegionTop.y as real, Pitch(RegionTop, RegionBottom, RegionRows), r)))
  }

  /** The region rows run strictly down the page from 2104 to 2879: the pitch 775/16 exceeds one
      pixel. */
  lemma {:induction false} RegionGridRows(r1: nat, r2: nat)
    requires r1 < r2 < RegionRows
    ensures RegionGrid()[0].y == 2104 && RegionGrid()[16].y == 2879
    ensures RegionGrid()[r1].y < RegionGrid()[r2].y
  {
    StepEnds(2104, 2879, 17);
    StepStrict(2104.0, 775.0 / 16.0, r1, r2);
  }

  /** `build_division_grid`: two digit columns, x interpolated between the first and last column
      tops, ten rows sharing the first column's pitch. */
  function DivisionGrid(): (g: seq<seq<Point>>)
    ensures |g| == DivCols && forall c :: 0 <= c < DivCols ==> |g[c]| == DivRows
  {
    var hsp := (DivLastTop.x - DivCol1Top.x) as real / (DivCols - 1) as real;
    seq(DivCols, c requires 0 <= c < DivCols =>
      seq(DivRows, r requires 0 <= r < DivRows =>
        Point(Step(DivCol1Top.x as real, hsp, c), Step(DivCol1Top.y as real, Pitch(DivCol1Top, DivCol1Bottom, DivRows), r))))
  }

  /** The division columns sit at x 841 and 890, share their row ys, and the rows run strictly
      down the page. */
  lemma {:induction false} DivisionGridLayout(c1: nat, c2: nat, r1: nat, r2: nat)
    requires c1 < DivCols && c2 < DivCols && r1 < r2 < DivRows
    ensures DivisionGrid()[0][r1].x == 841 && DivisionGrid()[1][r1].x == 890
    ensures DivisionGrid()[c1][r1].y == DivisionGrid()[c2][r1].y
    ensures DivisionGrid()[c1][r1].y < DivisionGrid()[c1][r2].y
  {
    StepEnds(841, 890, 2);
    StepStrict(2150.0, 438.0 / 9.0, r1, r2);
  }

  /** `build_school_id_grid`: one column per SID_COL_X entry, ten rows each. */
  function SchoolIdGrid(): (g: seq<seq<Point>>)
    ensures |g| == |SidColX| && forall c :: 0 <= c < |g| ==> |g[c]| == SidRows
    ensures forall c, r :: 0 <= c < |g| && 0 <= r < SidRows ==> g[c][r].x == SidColX[c]
  {
    seq(|SidColX|, c requires 0 <= c < |SidColX| =>
      seq(SidRows, r requires 0 <= r < SidRows =>
        Point(SidColX[c], Step(SidCol1Top.y as real, Pitch(SidCol1Top, SidCol1Bottom, SidRows), r))))
  }

  /** The school-id columns share their row ys, which start at 2150 and run strictly down. */
  lemma {:induction false} SchoolIdGridRows(c1: nat, c2: nat, r1: nat, r2: nat)
    requires c1 < 6 && c2 < 6 && r1 < r2 < SidRows
    ensures SchoolIdGrid()[c1][r1].y == SchoolIdGrid()[c2][r1].y
    ensures SchoolIdGrid()[c1][0].y == 2150
    ensures SchoolIdGrid()[c1][r1].y < SchoolIdGrid()[c1][r2].y
  {
    StepEnds(2150, 2589, 10);
    StepStrict(2150.0, 439.0 / 9.0, r1, r2);
  }

  /** `build_school_type_grid`: the ten hand-placed school-type bubbles under keys 0..9, with no
      interpolation. */
  function SchoolTypeGrid(): (g: seq<(nat, Point)>)
    ensures |g| == 10
    ensures forall i :: 0 <= i < 10 ==> g[i].0 == i && g[i].1 == SchoolTypePoints[i] && g[i].1.x == 159
  {
    Enumerate(SchoolTypePoints)
  }

  /** The school types run strictly down one column, from y 2734 to y 3267. */
  lemma {:induction false} SchoolTypeGridRows(i: nat, j: nat)
    requires i < j < 10
    ensures SchoolTypeGrid()[0].1.y == 2734 && SchoolTypeGrid()[9].1.y == 3267
    ensures SchoolTypeGrid()[i].1.y < SchoolTypeGrid()[j].1.y
  {
  }
}
