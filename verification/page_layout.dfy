/**
 * The fixed answer-page layout of the geometric script: the canonical page
 * size, the perspective correction that maps the page's four corners onto
 * it, and the pill centres and boxes of the five 40-question subjects.
 */
module PageLayout {
  import opened Geometry

  const CanonWidth: int := 2550
  const CanonHeight: int := 3500

  const AnchorX: int := 733
  const ChoiceXOffsets: seq<int> := [0, 48, 97, 145]
  const BlockXOffsets: seq<int> := [0, 341, 681, 1025, 1364]

  const PillWidth: int := 30
  const PillHeight: int := 28

  const QuestionsPerBlock: nat := 8
  const Blocks: nat := 5
  const Choices: nat := 4

  const RowGap: int := 49
  const RowAdjust: seq<int> := [0, 0, 0, 0, 0, 0, 0, 0]

  /** Subject name and the y of its first row, in page order. */
  const SubjectY: seq<(string, int)> :=
    [("math", 837), ("english", 1274), ("science", 1712), ("filipino", 2146), ("ap", 2586)]

  // ---------------------------------------------------------------------------
  // Corner ordering and the perspective target
  // ---------------------------------------------------------------------------

  /** `np.argmin`: the first position holding the smallest value. */
  function ArgMinIndex(xs: seq<int>): (i: nat)
    requires |xs| > 0
    ensures i < |xs|
    ensures forall j :: 0 <= j < |xs| ==> xs[i] <= xs[j]
    ensures forall j :: 0 <= j < i ==> xs[j] > xs[i]
  {
    if |xs| == 1 then 0
    else
      var k := ArgMinIndex(xs[..|xs| - 1]);
      if xs[|xs| - 1] < xs[k] then |xs| - 1 else k
  }

  /** `np.argmax`: the first position holding the largest value. */
  function ArgMaxIndex(xs: seq<int>): (i: nat)
    requires |xs| > 0
    ensures i < |xs|
    ensures forall j :: 0 <= j < |xs| ==> xs[j] <= xs[i]
    ensures forall j :: 0 <= j < i ==> xs[j] < xs[i]
  {
    if |xs| == 1 then 0
    else
      var k := ArgMaxIndex(xs[..|xs| - 1]);
      if xs[|xs| - 1] > xs[k] then |xs| - 1 else k
  }

  function CoordSums(pts: seq<Point>): (s: seq<int>)
    ensures |s| == |pts| && forall i :: 0 <= i < |pts| ==> s[i] == pts[i].x + pts[i].y
  {
    seq(|pts|, i requires 0 <= i < |pts| => pts[i].x + pts[i].y)
  }

  function CoordDiffs(pts: seq<Point>): (d: seq<int>)
    ensures |d| == |pts| && forall i :: 0 <= i < |pts| ==> d[i] == pts[i].y - pts[i].x
  {
    seq(|pts|, i requires 0 <= i < |pts| => pts[i].y - pts[i].x)
  }

  /** The four source corners in the order top-left, top-right, bottom-right, bottom-left:
      smallest and largest `x + y`, smallest and largest `y - x`, first position on ties. */
  function OrderCorners(pts: seq<Point>): (rect: seq<Point>)
    requires |pts| == 4
    ensures |rect| == 4 && forall i :: 0 <= i < 4 ==> rect[i] in pts
    ensures forall j :: 0 <= j < 4 ==> rect[0].x + rect[0].y <= pts[j].x + pts[j].y <= rect[2].x + rect[2].y
    ensures forall j :: 0 <= j < 4 ==> rect[1].y - rect[1].x <= pts[j].y - pts[j].x <= rect[3].y - rect[3].x
  {
    var s := CoordSums(pts);
    var d := CoordDiffs(pts);
    [pts[ArgMinIndex(s)], pts[ArgMinIndex(d)], pts[ArgMaxIndex(s)], pts[ArgMaxIndex(d)]]
  }

  function Corners(l: int, t: int, r: int, b: int): seq<Point>
  {
    [Point(l, t), Point(r, t), Point(r, b), Point(l, b)]
  }

  /** The four corners of an axis-aligned rectangle, given in any order, come out as
      top-left, top-right, bottom-right, bottom-left. */
  lemma {:induction false} OrderCornersOfRectangle(pts: seq<Point>, l: int, t: int, r: int, b: int)
    requires l < r && t < b
    requires |pts| == 4 && multiset(pts) == multiset(Corners(l, t, r, b))
    ensures OrderCorners(pts) == Corners(l, t, r, b)
  {
    var cs := Corners(l, t, r, b);
    forall i | 0 <= i < 4
      ensures pts[i] in cs
    {
      assert pts[i] in multiset(pts);
    }
    forall i | 0 <= i < 4
      ensures cs[i] in pts
    {
      assert cs[i] in multiset(cs);
    }
    OrderSameCorners(pts, l, t, r, b);
  }

  lemma {:induction false} OrderSameCorners(pts: seq<Point>, l: int, t: int, r: int, b: int)
    requires l < r && t < b && |pts| == 4
    requires forall i :: 0 <= i < 4 ==> pts[i] in Corners(l, t, r, b)
    requires forall i :: 0 <= i < 4 ==> Corners(l, t, r, b)[i] in pts
    ensures OrderCorners(pts) == Corners(l, t, r, b)
  {
    var rect := OrderCorners(pts);
    var cs := Corners(l, t, r, b);
    forall c | 0 <= c < 4
      ensures rect[c] in cs
    {
      var k := PositionOf(pts, rect[c]);
    }
    var i0, i1 := PositionOf(pts, cs[0]), PositionOf(pts, cs[1]);
    var i2, i3 := PositionOf(pts, cs[2]), PositionOf(pts, cs[3]);
    CornerByExtremes(rect, l, t, r, b,
      pts[i0].x + pts[i0].y, pts[i2].x + pts[i2].y, pts[i1].y - pts[i1].x, pts[i3].y - pts[i3].x);
  }

  /** The first position of a point known to be in the list. */
  function PositionOf(pts: seq<Point>, p: Point): (k: nat)
    requires p in pts
    ensures k < |pts| && pts[k] == p
    ensures forall j :: 0 <= j < k ==> pts[j] != p
  {
    if pts[0] == p then 0 else 1 + PositionOf(pts[1..], p)
  }

  lemma {:induction false} CornerByExtremes(rect: seq<Point>, l: int, t: int, r: int, b: int,
                         minSum: int, maxSum: int, minDiff: int, maxDiff: int)
    requires l < r && t < b && |rect| == 4
    requires forall c :: 0 <= c < 4 ==> rect[c] in Corners(l, t, r, b)
    requires minSum == l + t && maxSum == r + b && minDiff == t - r && maxDiff == b - l
    requires rect[0].x + rect[0].y <= minSum && rect[2].x + rect[2].y >= maxSum
    requires rect[1].y - rect[1].x <= minDiff && rect[3].y - rect[3].x >= maxDiff
    ensures rect == Corners(l, t, r, b)
  {
    assert rect[0] in Corners(l, t, r, b);
    assert rect[1] in Corners(l, t, r, b);
    assert rect[2] in Corners(l, t, r, b);
    assert rect[3] in Corners(l, t, r, b);
  }

  /** A page turned by 45 degrees has no unique top-left: the same source point is chosen
      as top-left and top-right. */
  lemma {:induction false} OrderCornersOfDiamond()
    ensures OrderCorners([Point(1, 0), Point(2, 1), Point(1, 2), Point(0, 1)])[0] == Point(1, 0)
    ensures OrderCorners([Point(1, 0), Point(2, 1), Point(1, 2), Point(0, 1)])[1] == Point(1, 0)
  {
    var pts := [Point(1, 0), Point(2, 1), Point(1, 2), Point(0, 1)];
    var s := CoordSums(pts);
    var d := CoordDiffs(pts);
    assert s == [1, 3, 3, 1];
    assert d == [-1, -1, 1, 1];
    var i := ArgMinIndex(s);
    assert s[i] <= s[0];
    assert i == 0;
    var j := ArgMinIndex(d);
    assert d[j] <= d[0];
    assert j == 0;
  }

  /** The destination rectangle of the perspective transform for an `outW` by `outH` page. */
  function DestCorners(outW: int, outH: int): seq<Point>
  {
    Corners(0, 0, outW - 1, outH - 1)
  }

  /** The destination corners are already in the order the source corners are put in. */
  lemma {:induction false} DestCornersOrdered(outW: int, outH: int)
    requires outW >= 2 && outH >= 2
    ensures OrderCorners(DestCorners(outW, outH)) == DestCorners(outW, outH)
  {
    var pts := DestCorners(outW, outH);
    assert pts == Corners(0, 0, outW - 1, outH - 1);
    OrderSameCorners(pts, 0, 0, outW - 1, outH - 1);
  }

  /** How `normalize_page` produced its result. */
  datatype Correction = Resized | Warped(source: seq<Point>, target: seq<Point>)

  datatype Page = Page(width: int, height: int, correction: Correction)

  /** `normalize_page`: without a page contour, or when the largest contour does not
      approximate to four points, the image is only resized; otherwise its ordered corners
      are warped onto the destination rectangle. The contour search and polygon
      approximation are inputs (`hasContours`, `approx`). */
  function NormalizePage(hasContours: bool, approx: seq<Point>, outW: int, outH: int): (p: Page)
    ensures p.width == outW && p.height == outH
    ensures p.correction.Warped? <==> hasContours && |approx| == 4
    ensures p.correction.Warped? ==>
      p.correction.target == [Point(0, 0), Point(outW - 1, 0), Point(outW - 1, outH - 1), Point(0, outH - 1)]
    ensures p.correction.Warped? ==>
      |p.correction.source| == 4 && forall i :: 0 <= i < 4 ==> p.correction.source[i] in approx
    ensures p.correction.Warped? ==> forall j :: 0 <= j < |approx| ==>
      p.correction.source[0].x + p.correction.source[0].y <= approx[j].x + approx[j].y
      <= p.correction.source[2].x + p.correction.source[2].y
    ensures p.correction.Warped? ==> forall j :: 0 <= j < |approx| ==>
      p.correction.source[1].y - p.correction.source[1].x <= approx[j].y - approx[j].x
      <= p.correction.source[3].y - p.correction.source[3].x
  {
    if !hasContours then Page(outW, outH, Resized)
    else if |approx| != 4 then Page(outW, outH, Resized)
    else Page(outW, outH, Warped(OrderCorners(approx), DestCorners(outW, outH)))
  }

  /** With the default size, a corrected page is always 2550 by 3500 and a warp sends the
      top-left source corner to (0, 0) and the bottom-right one to (2549, 3499). */
  lemma {:induction false} NormalizePageDefault(hasContours: bool, approx: seq<Point>)
    ensures NormalizePage(hasContours, approx, CanonWidth, CanonHeight).width == 2550
    ensures NormalizePage(hasContours, approx, CanonWidth, CanonHeight).height == 3500
    ensures NormalizePage(hasContours, approx, CanonWidth, CanonHeight).correction.Warped? ==>
      NormalizePage(hasContours, approx, CanonWidth, CanonHeight).correction.target[0] == Point(0, 0)
      && NormalizePage(hasContours, approx, CanonWidth, CanonHeight).correction.target[2] == Point(2549, 3499)
  {
  }

  // ---------------------------------------------------------------------------
  // Pills of one subject
  // ---------------------------------------------------------------------------

  /** The question printed at row q of block `block`. */
  function QuestionNumber(block: nat, q: nat): (n: nat)
    requires block < Blocks && q < QuestionsPerBlock
    ensures 1 <= n <= 40
    ensures (n - 1) / QuestionsPerBlock == block && (n - 1) % QuestionsPerBlock == q
  {
    block * QuestionsPerBlock + q + 1
  }

  /** Every question 1..40 sits at exactly one block and row. */
  lemma {:induction false} QuestionNumberOnto(n: nat)
    requires 1 <= n <= 40
    ensures QuestionNumber((n - 1) / 8, (n - 1) % 8) == n
  {
  }

  /** The centre of choice c of row q in block `block` for a subject whose first row is at
      `anchorY`; the per-row adjustment is 0 past the end of the adjustment list. */
  function PillCentre(anchorY: int, block: nat, q: nat, c: nat): (p: Point)
    requires block < Blocks && q < QuestionsPerBlock && c < Choices
    ensures p.y == anchorY + q * RowGap
    ensures p.x == AnchorX + BlockXOffsets[block] + ChoiceXOffsets[c]
  {
    var adj := if q < |RowAdjust| then RowAdjust[q] else 0;
    Point(AnchorX + BlockXOffsets[block] + ChoiceXOffsets[c], anchorY + q * RowGap + adj)
  }

  datatype Box = Box(x1: int, y1: int, x2: int, y2: int)

  /** The drawn rectangle around a pill: `int(cx - 15) .. int(cx + 15)` by `int(cy - 14) .. int(cy + 14)`. */
  function PillBox(c: Point): (b: Box)
    ensures b.x2 - b.x1 == PillWidth && b.y2 - b.y1 == PillHeight
    ensures b.x1 + b.x2 == 2 * c.x && b.y1 + b.y2 == 2 * c.y
  {
    Box(c.x - PillWidth / 2, c.y - PillHeight / 2, c.x + PillWidth / 2, c.y + PillHeight / 2)
  }

  predicate Overlap(a: Box, b: Box)
  {
    a.x1 <= b.x2 && b.x1 <= a.x2 && a.y1 <= b.y2 && b.y1 <= a.y2
  }

  /** Two different pills of the page, in the same subject or not, have disjoint boxes. */
  lemma {:induction false} PillBoxesDisjoint(s1: nat, b1: nat, q1: nat, c1: nat, s2: nat, b2: nat, q2: nat, c2: nat)
    requires s1 < |SubjectY| && s2 < |SubjectY|
    requires b1 < Blocks && q1 < QuestionsPerBlock && c1 < Choices
    requires b2 < Blocks && q2 < QuestionsPerBlock && c2 < Choices
    requires (s1, b1, q1, c1) != (s2, b2, q2, c2)
    ensures !Overlap(PillBox(PillCentre(SubjectY[s1].1, b1, q1, c1)), PillBox(PillCentre(SubjectY[s2].1, b2, q2, c2)))
  {
    var p1 := PillCentre(SubjectY[s1].1, b1, q1, c1);
    var p2 := PillCentre(SubjectY[s2].1, b2, q2, c2);
    if (b1, c1) != (b2, c2) {
      ColumnsApart(b1, c1, b2, c2);
    } else if s1 != s2 {
      assert s1 < s2 ==> SubjectY[s1].1 + 7 * RowGap + 28 < SubjectY[s2].1;
      assert s2 < s1 ==> SubjectY[s2].1 + 7 * RowGap + 28 < SubjectY[s1].1;
    } else {
      assert q1 != q2;
    }
  }

  /** Pill columns are at least 31 pixels apart, wider than a box. */
  lemma {:induction false} ColumnsApart(b1: nat, c1: nat, b2: nat, c2: nat)
    requires b1 < Blocks && c1 < Choices && b2 < Blocks && c2 < Choices && (b1, c1) != (b2, c2)
    ensures BlockXOffsets[b1] + ChoiceXOffsets[c1] - (BlockXOffsets[b2] + ChoiceXOffsets[c2]) > PillWidth
         || BlockXOffsets[b2] + ChoiceXOffsets[c2] - (BlockXOffsets[b1] + ChoiceXOffsets[c1]) > PillWidth
  {
    assert BlockXOffsets == [0, 341, 681, 1025, 1364];
    assert ChoiceXOffsets == [0, 48, 97, 145];
  }

  datatype Pill = Pill(question: nat, choice: nat, centre: Point)

  /** The pills of row q of block `block`, choices A to D; a row whose question number
      exceeds 40 is skipped. */
  function RowPills(anchorY: int, block: nat, q: nat): seq<Pill>
    requires block < Blocks && q < QuestionsPerBlock
  {
    var n := QuestionNumber(block, q);
    if n > 40 then []
    else seq(Choices, c requires 0 <= c < Choices => Pill(n, c, PillCentre(anchorY, block, q, c)))
  }

  /** The rows of the two nested loops, block-major: row k is row `k % 8` of block `k / 8`. */
  function SubjectRows(anchorY: int): (rows: seq<seq<Pill>>)
    ensures |rows| == Blocks * QuestionsPerBlock
  {
    seq(Blocks * QuestionsPerBlock, k requires 0 <= k < Blocks * QuestionsPerBlock =>
      RowPills(anchorY, k / QuestionsPerBlock, k % QuestionsPerBlock))
  }

  function Concat<T>(xss: seq<seq<T>>): seq<T>
  {
    if |xss| == 0 then [] else xss[0] + Concat(xss[1..])
  }

  /** The pills the script visits for one subject, in visiting order. */
  function SubjectPills(anchorY: int): seq<Pill>
  {
    Concat(SubjectRows(anchorY))
  }

  /** The pill of choice c in the r-th row of a list of rows of four. */
  function PillAt(ps: seq<Pill>, r: nat, c: nat): Pill
    requires c < 4 && 4 * r + c < |ps|
  {
    ps[4 * r + c]
  }

  /** Rows of four concatenate to four times as many pills, row r occupying `4r .. 4r+3`. */
  lemma {:induction false} ConcatRowsOfFour(xss: seq<seq<Pill>>)
    requires forall r :: 0 <= r < |xss| ==> |xss[r]| == 4
    ensures |Concat(xss)| == 4 * |xss|
    ensures forall r, c :: 0 <= r < |xss| && 0 <= c < 4 ==> PillAt(Concat(xss), r, c) == xss[r][c]
  {
    if |xss| > 0 {
      var tail := xss[1..];
      ConcatRowsOfFour(tail);
      forall r, c | 0 <= r < |xss| && 0 <= c < 4
        ensures PillAt(Concat(xss), r, c) == xss[r][c]
      {
        if r > 0 {
          assert PillAt(Concat(tail), r - 1, c) == tail[r - 1][c];
        }
      }
    }
  }

  /** Every row of every block is drawn: no question number exceeds 40. */
  lemma {:induction false} RowPillsLayout(anchorY: int, k: nat)
    requires k < 40
    ensures |RowPills(anchorY, k / 8, k % 8)| == 4
    ensures forall c :: 0 <= c < 4 ==>
      RowPills(anchorY, k / 8, k % 8)[c] == Pill(k + 1, c, PillCentre(anchorY, k / 8, k % 8, c))
  {
    assert QuestionNumber(k / 8, k % 8) == k + 1;
  }

  /** The subject's pills are 160, four per question 1..40 in question order, so the `> 40`
      guard never skips a row. */
  lemma {:induction false} SubjectPillsLayout(anchorY: int)
    ensures |SubjectPills(anchorY)| == 160
    ensures forall r, c :: 0 <= r < 40 && 0 <= c < 4 ==>
      PillAt(SubjectPills(anchorY), r, c) == Pill(r + 1, c, PillCentre(anchorY, r / 8, r % 8, c))
  {
    var rows := SubjectRows(anchorY);
    forall k | 0 <= k < 40
      ensures |rows[k]| == 4
    {
      RowPillsLayout(anchorY, k);
    }
    ConcatRowsOfFour(rows);
    forall r, c | 0 <= r < 40 && 0 <= c < 4
      ensures PillAt(SubjectPills(anchorY), r, c) == Pill(r + 1, c, PillCentre(anchorY, r / 8, r % 8, c))
    {
      RowPillsLayout(anchorY, r);
    }
  }
}
