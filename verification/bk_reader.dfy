/**
 * The contour-based answer-page script: each pill's inner window is scored
 * from the ink contours found in it (weighted by closeness to the centre),
 * the subject's floor is calibrated from the per-pill "max" scores, and the
 * question is BLANK, REVIEW or OK by its best "max" score.
 */
module BkReader {
  import opened Wrappers
  import opened Numeric
  import opened Ranking
  import opened Calibration
  import opened Bitmap
  import opened PageLayout

  const MinInkRatio: real := 0.04
  const InnerPadX: int := 13
  const InnerPadY: int := 9
  const MinContourArea: real := 12.0
  const ReviewFactor: real := 1.15

  /** What contour extraction reports for one contour of the masked window: its area, bounding
      rectangle, zeroth moment and the distance of its centroid from the window centre. */
  datatype Contour = Contour(area: real, x: int, y: int, wc: int, hc: int, m00: real, dist: real)
  {
    predicate Valid()
    {
      x >= 0 && y >= 0 && wc >= 1 && hc >= 1 && dist >= 0.0
    }
  }

  predicate AllValid(cs: seq<Contour>)
  {
    forall i :: 0 <= i < |cs| ==> cs[i].Valid()
  }

  /** The `int(cx - 15) + 13 .. int(cx + 15) - 13` by `int(cy - 14) + 9 .. int(cy + 14) - 9`
      window of a pill. */
  function InnerWindow(m: Mask, cx: int, cy: int): (w: (Span, Span))
    requires m.Valid()
    ensures w.0.Within(m.Height()) && w.1.Within(m.width)
  {
    (PySlice(cy - PillHeight / 2 + InnerPadY, cy + PillHeight / 2 - InnerPadY, m.Height()),
     PySlice(cx - PillWidth / 2 + InnerPadX, cx + PillWidth / 2 - InnerPadX, m.width))
  }

  /** Inside the image the inner window is always 10 rows by 4 columns. */
  lemma {:induction false} InnerWindowInterior(m: Mask, cx: int, cy: int)
    requires m.Valid() && 0 <= cx - 2 && cx + 2 <= m.width && 0 <= cy - 5 && cy + 5 <= m.Height()
    ensures InnerWindow(m, cx, cy).0.Len() == 10 && InnerWindow(m, cx, cy).1.Len() == 4
  {
  }

  /** Rows `int(h * 0.20) .. int(h * 0.85)` of the window are scored. */
  function MaskRows(h: nat): (s: Span)
    ensures s.lo <= s.hi <= h
  {
    Span((h * 20) / 100, (h * 85) / 100)
  }

  /** Columns `int(w * 0.40) .. int(w * 0.95)` of the window are scored. */
  function MaskCols(w: nat): (s: Span)
    ensures s.lo <= s.hi <= w
  {
    Span((w * 40) / 100, (w * 95) / 100)
  }

  /** `cv2.countNonZero(mask)`: the number of scored pixels. */
  function ValidPixels(h: nat, w: nat): nat
  {
    MaskRows(h).Len() * MaskCols(w).Len()
  }

  /** A contour survives the filters: area at least 12, clear of the window border by more than
      one pixel, no wider or taller than 60% of the window, non-degenerate, and within 55% of the
      half-diagonal `maxDist` of the centre. */
  predicate Kept(c: Contour, h: nat, w: nat, maxDist: real)
  {
    c.area >= MinContourArea
    && !(c.x <= 1 || c.y <= 1 || c.x + c.wc >= w - 1 || c.y + c.hc >= h - 1)
    && !(c.wc as real > w as real * 0.6 || c.hc as real > h as real * 0.6)
    && c.m00 != 0.0
    && !(c.dist > maxDist * 0.55)
  }

  /** `1 - dist / (0.55 * maxDist)`: 1 at the centre, falling to 0 at the cut-off. */
  function Weight(c: Contour, maxDist: real): (wt: real)
    requires maxDist > 0.0 && c.Valid() && c.dist <= maxDist * 0.55
    ensures 0.0 <= wt <= 1.0
  {
    var lim := maxDist * 0.55;
    assert c.dist / lim <= 1.0;
    1.0 - c.dist / lim
  }

  /** The centre-weighted area of the kept contours. */
  function WeightedArea(cs: seq<Contour>, h: nat, w: nat, maxDist: real): (a: real)
    requires maxDist > 0.0 && AllValid(cs)
    ensures a >= 0.0
    ensures (forall i :: 0 <= i < |cs| ==> !Kept(cs[i], h, w, maxDist)) ==> a == 0.0
  {
    if |cs| == 0 then 0.0
    else
      var rest := WeightedArea(cs[1..], h, w, maxDist);
      if Kept(cs[0], h, w, maxDist) then
        var wt := Weight(cs[0], maxDist);
        assert cs[0].area * wt >= 0.0;
        rest + cs[0].area * wt
      else rest
  }

  /** The largest kept contour area, 0 when none is kept. */
  function MaxKeptArea(cs: seq<Contour>, h: nat, w: nat, maxDist: real): (a: real)
    ensures a >= 0.0
    ensures forall i :: 0 <= i < |cs| && Kept(cs[i], h, w, maxDist) ==> cs[i].area <= a
    ensures a == 0.0 || exists i :: 0 <= i < |cs| && Kept(cs[i], h, w, maxDist) && cs[i].area == a
  {
    if |cs| == 0 then 0.0
    else
      var rest := MaxKeptArea(cs[1..], h, w, maxDist);
      assert forall i :: 1 <= i < |cs| ==> cs[i] == cs[1..][i - 1];
      if Kept(cs[0], h, w, maxDist) && cs[0].area > rest then cs[0].area else rest
  }

  datatype PillReading = PillReading(weighted: real, max: real)

  /** `fill_ratio` as written: the weighted score over the scored pixels and, because the
      running `max_area` starts at 0 and is never updated, a second score that is always 0. */
  function FillAsWritten(h: nat, w: nat, cs: seq<Contour>, maxDist: real): (r: PillReading)
    requires maxDist > 0.0 && AllValid(cs)
    ensures r.max == 0.0
    ensures r.weighted >= 0.0
  {
    if h * w == 0 then PillReading(0.0, 0.0)
    else
      var valid := ValidPixels(h, w);
      var maxArea := 0.0;
      var weighted := if valid > 0 then WeightedArea(cs, h, w, maxDist) / valid as real else 0.0;
      var maxScore := if valid > 0 then maxArea / valid as real else 0.0;
      RoundToKeepsGridLowerBound(weighted, 0, 1000);
      Round3Zero();
      PillReading(Round3(weighted), Round3(maxScore))
  }

  /** `fill_ratio` with `max_area` tracking the largest kept contour: the second score is that
      area over the scored pixels, positive-or-zero, and at least 12 pixels' worth when some
      contour is kept. */
  function FillCorrected(h: nat, w: nat, cs: seq<Contour>, maxDist: real): (r: PillReading)
    requires maxDist > 0.0 && AllValid(cs)
    ensures r.weighted == FillAsWritten(h, w, cs, maxDist).weighted
    ensures h * w > 0 && ValidPixels(h, w) > 0 ==>
      r.max == Round3(MaxKeptArea(cs, h, w, maxDist) / ValidPixels(h, w) as real)
    ensures (exists i :: 0 <= i < |cs| && Kept(cs[i], h, w, maxDist)) ==> MaxKeptArea(cs, h, w, maxDist) >= MinContourArea
  {
    if h * w == 0 then PillReading(0.0, 0.0)
    else
      var valid := ValidPixels(h, w);
      var weighted := if valid > 0 then WeightedArea(cs, h, w, maxDist) / valid as real else 0.0;
      var maxScore := if valid > 0 then MaxKeptArea(cs, h, w, maxDist) / valid as real else 0.0;
      PillReading(Round3(weighted), Round3(maxScore))
  }

  /** The discrepancy on a concrete pill: in a 20 by 20 window one centred contour of area 30
      passes every filter, yet the as-written "max" score is 0 while the corrected one is
      positive. */
  lemma {:induction false} MaxAreaDiscrepancy()
    ensures var c := Contour(30.0, 8, 8, 4, 4, 30.0, 0.0);
      Kept(c, 20, 20, 10.0) && FillAsWritten(20, 20, [c], 10.0).max == 0.0
      && FillCorrected(20, 20, [c], 10.0).max > 0.0
  {
    var c := Contour(30.0, 8, 8, 4, 4, 30.0, 0.0);
    assert Kept(c, 20, 20, 10.0);
    assert MaxKeptArea([c], 20, 20, 10.0) == 30.0;
    assert ValidPixels(20, 20) == 143;
    var x := 30.0 / 143.0;
    assert x >= Unscale(1, 1000);
    RoundToKeepsGridLowerBound(x, 1, 1000);
  }

  /** In a window at most four pixels wide every contour touches the left or right border
      margin, so nothing is kept; the locked 4-pixel inner window therefore always scores 0,
      whichever way `max_area` is kept. */
  lemma {:induction false} NarrowWindowKeepsNothing(cs: seq<Contour>, h: nat, w: nat, maxDist: real)
    requires w <= 4 && maxDist > 0.0 && AllValid(cs)
    ensures forall i :: 0 <= i < |cs| ==> !Kept(cs[i], h, w, maxDist)
    ensures FillCorrected(h, w, cs, maxDist) == PillReading(0.0, 0.0)
  {
    forall i | 0 <= i < |cs|
      ensures !Kept(cs[i], h, w, maxDist)
    {
      var c := cs[i];
      assert c.x <= 1 || c.x + c.wc >= w - 1;
    }
    Round3Zero();
    if h * w > 0 && ValidPixels(h, w) > 0 {
      assert MaxKeptArea(cs, h, w, maxDist) == 0.0;
      assert WeightedArea(cs, h, w, maxDist) == 0.0;
    }
  }

  lemma {:induction false} Round3Zero()
    ensures Round3(0.0) == 0.0
  {
    RoundToFixesGrid(0, 1000);
  }

  datatype Status = Blank | Review | Ok

  datatype Outcome = Outcome(answer: Option<string>, status: Status, confidence: real)

  /** The floor a subject is judged against: its calibrated floor, or 0.04 when it has none. */
  function MinInkFor(floors: map<string, real>, subject: string): (r: real)
    ensures subject in floors ==> r == floors[subject]
    ensures subject !in floors ==> r == MinInkRatio
  {
    if subject in floors then floors[subject] else MinInkRatio
  }

  /** The decision for one question from its four "max" scores in A..D order: BLANK below the
      floor, REVIEW ("MULTIPLE") when the best does not beat the runner-up by 15%, OK otherwise.
      The source sorts the scores descending (stably) and reads the first two entries; the model
      reads the first maximum and the runner-up directly, which `Ranking.SortDescTop` shows are
      those entries. */
  function Decide(scores: seq<Scored<string>>, minInk: real): (o: Outcome)
    requires |scores| == 4
    ensures o.status == Blank <==> MaxScore(scores) < minInk
    ensures o.status == Review <==> minInk <= MaxScore(scores) < SecondScore(scores) * ReviewFactor
    ensures o.status == Blank <==> o.answer == None
    ensures o.status == Review ==> o.answer == Some("MULTIPLE")
    ensures o.status == Ok ==> o.answer == Some(scores[ArgMaxFirst(scores)].key)
  {
    var best, second := scores[ArgMaxFirst(scores)], SecondScore(scores);
    var confidence := Round3(best.score - second);
    if best.score < minInk then Outcome(None, Blank, confidence)
    else if best.score < second * ReviewFactor then Outcome(Some("MULTIPLE"), Review, confidence)
    else Outcome(Some(best.key), Ok, confidence)
  }

  /** The confidence is the gap between the two best "max" scores rounded to three decimals,
      and so never negative. */
  lemma {:induction false} DecideConfidence(scores: seq<Scored<string>>, minInk: real)
    requires |scores| == 4
    ensures Decide(scores, minInk).confidence == Round3(MaxScore(scores) - SecondScore(scores))
    ensures Decide(scores, minInk).confidence >= 0.0
  {
    RoundToNonNegative(MaxScore(scores) - SecondScore(scores), 1000);
  }

  /** A question's "max" scores in A..D order, taken from the subject's 160 readings. */
  function QuestionMaxScores(readings: seq<PillReading>, n: nat): (s: seq<Scored<string>>)
    requires |readings| == 160 && n < 40
    ensures |s| == 4 && forall c :: 0 <= c < 4 ==> s[c] == Scored(["A", "B", "C", "D"][c], readings[4 * n + c].max)
  {
    seq(4, c requires 0 <= c < 4 => Scored(["A", "B", "C", "D"][c], readings[4 * n + c].max))
  }

  function MaxValues(readings: seq<PillReading>): (vs: seq<real>)
    ensures |vs| == |readings| && forall i :: 0 <= i < |vs| ==> vs[i] == readings[i].max
  {
    seq(|readings|, i requires 0 <= i < |readings| => readings[i].max)
  }

  /** One subject's outcomes from its pill readings in visiting order: the floor is calibrated
      from all 160 "max" scores and every question is judged against it. */
  function ReadSubject(readings: seq<PillReading>): (r: seq<Outcome>)
    requires |readings| == 160
    ensures |r| == 40
    ensures forall n :: 0 <= n < 40 ==> r[n] == Decide(QuestionMaxScores(readings, n), BkFloor(MaxValues(readings)))
  {
    var floor := BkFloor(MaxValues(readings));
    seq(40, n requires 0 <= n < 40 => Decide(QuestionMaxScores(readings, n), floor))
  }

  /** With the readings `fill_ratio` produces as written (every "max" score 0), the floor stays
      at 0.010 and every question of every subject is BLANK. */
  lemma {:induction false} EveryQuestionBlankAsWritten(readings: seq<PillReading>)
    requires |readings| == 160
    requires forall i :: 0 <= i < 160 ==> readings[i].max == 0.0
    ensures forall n :: 0 <= n < 40 ==> ReadSubject(readings)[n].status == Blank
  {
    BkFloorOfZeros(MaxValues(readings));
    forall n | 0 <= n < 40
      ensures MaxScore(QuestionMaxScores(readings, n)) == 0.0
    {
      var s := QuestionMaxScores(readings, n);
      var k := ArgMaxFirst(s);
    }
  }
}
