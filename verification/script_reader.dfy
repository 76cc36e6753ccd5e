/**
 * The geometric answer-page script: every pill of a subject is measured with
 * the letter-stripped window, the subject's ink floor is calibrated from
 * those ratios, and each question's four ratios are classified as NOISE,
 * BLANK, OK or REVIEW.
 */
module ScriptReader {
  import opened Wrappers
  import opened Numeric
  import opened Ranking
  import opened Calibration
  import opened Bitmap
  import opened Geometry
  import opened PageLayout

  const ChoiceLabels: seq<string> := ["A", "B", "C", "D"]
  const DominanceRatio: real := 1.5
  const MinGap: real := 0.04
  const UniformFactor: real := 3.0
  const Multiple: string := "MULTIPLE"

  const BorderPad: int := 3

  /** The geometric script's `fill_ratio`: the pill box shrunk by the border pad and clamped
      into the image, its leftmost `int(0.30 * width)` columns (the printed letter) dropped,
      and the ink ratio of the rest rounded to four decimals; 0 for an empty window. */
  function PillFillRatio(m: Mask, cx: int, cy: int): (r: real)
    requires m.Valid()
    ensures 0.0 <= r <= 1.0
  {
    var x1 := MaxInt(cx - PillWidth / 2 + BorderPad, 0);
    var y1 := MaxInt(cy - PillHeight / 2 + BorderPad, 0);
    var x2 := MinInt(cx + PillWidth / 2 - BorderPad, m.width - 1);
    var y2 := MinInt(cy + PillHeight / 2 - BorderPad, m.Height() - 1);
    var rs := PySlice(y1, y2, m.Height());
    var cs := PySlice(x1, x2, m.width);
    if rs.Len() * cs.Len() == 0 then 0.0
    else
      var letterCols := (cs.Len() * 3) / 10;
      var clean := Span(cs.lo + letterCols, cs.hi);
      if rs.Len() * clean.Len() == 0 then 0.0
      else
        var q := Ratio(m, rs, clean);
        RoundToUnit(q, 10000);
        Round4(q)
  }

  /** Away from the image edges the pill window is the 22 rows `cy-11 .. cy+10` by the
      17 columns `cx-5 .. cx+11`, and the ratio is its ink count over 374. */
  lemma {:induction false} PillFillRatioInterior(m: Mask, cx: int, cy: int)
    requires m.Valid()
    requires cx - 12 >= 0 && cx + 12 <= m.width - 1
    requires cy - 11 >= 0 && cy + 11 <= m.Height() - 1
    ensures PillFillRatio(m, cx, cy)
      == Round4(Count(m, Span(cy - 11, cy + 11), Span(cx - 5, cx + 12)) as real / 374.0)
  {
    var rs := PySlice(cy - 11, cy + 11, m.Height());
    var cs := PySlice(cx - 12, cx + 12, m.width);
    assert rs == Span(cy - 11, cy + 11) && rs.Len() == 22;
    assert cs == Span(cx - 12, cx + 12) && cs.Len() == 24;
    assert (cs.Len() * 3) / 10 == 7;
    var clean := Span(cx - 5, cx + 12);
    assert clean.Len() == 17 && rs.Len() * clean.Len() == 374;
    assert Ratio(m, rs, clean) == Count(m, rs, clean) as real / 374.0;
  }

  /** A non-empty pill window always keeps columns after the letter strip is dropped, so
      the second emptiness test of `fill_ratio` never decides the result. */
  lemma {:induction false} LetterStripLeavesColumns(w: nat)
    requires w > 0
    ensures (w * 3) / 10 < w
  {
  }

  datatype Status = Noise | Blank | Ok | Review

  datatype Outcome = Outcome(answer: Option<string>, status: Status, confidence: real)

  /** All four pills reading above three times the floor. */
  predicate Uniform(scores: seq<Scored<string>>, floor: real)
    requires |scores| == 4
  {
    MinScore(scores) > floor * UniformFactor
  }

  /** The decision for one question from its four ratios in A..D order. The source sorts the
      ratios descending (stably) and reads positions 0, 1 and 3; the model reads the first
      maximum, the runner-up and the least directly, which `SortedRatios` shows are those
      positions. Confidence is the rounded gap between the best two, and the first matching
      rule of NOISE, BLANK, OK wins, REVIEW otherwise. */
  function Decide(scores: seq<Scored<string>>, floor: real): (o: Outcome)
    requires |scores| == 4
    ensures o.status == Noise <==> Uniform(scores, floor) && MaxScore(scores) >= floor
    ensures o.status == Blank <==> !(Uniform(scores, floor) && MaxScore(scores) >= floor) && MaxScore(scores) < floor
    ensures o.status == Ok <==>
      MaxScore(scores) >= floor && !Uniform(scores, floor)
      && MaxScore(scores) >= SecondScore(scores) * DominanceRatio && o.confidence >= MinGap
    ensures o.status in {Noise, Blank} <==> o.answer == None
    ensures o.status == Ok ==> o.answer == Some(scores[ArgMaxFirst(scores)].key)
    ensures o.status == Review ==> o.answer == Some(Multiple)
  {
    var best, second, least := scores[ArgMaxFirst(scores)], SecondScore(scores), MinScore(scores);
    var confidence := Round4(best.score - second);
    var uniformNoise := least > floor * UniformFactor;
    if uniformNoise && best.score >= floor then Outcome(None, Noise, confidence)
    else if best.score < floor then Outcome(None, Blank, confidence)
    else if best.score >= second * DominanceRatio && confidence >= MinGap then Outcome(Some(best.key), Ok, confidence)
    else Outcome(Some(Multiple), Review, confidence)
  }

  /** After the descending sort the first entry is the first maximum, the second holds the
      runner-up score and the last the least. */
  lemma {:induction false} SortedRatios(scores: seq<Scored<string>>)
    requires |scores| == 4
    ensures var s := SortDesc(scores);
      |s| == 4 && s[0] == scores[ArgMaxFirst(scores)] && s[0].score == MaxScore(scores)
      && s[1].score == SecondScore(scores) && s[3].score == MinScore(scores)
  {
    SortDescPositions(scores);
  }

  /** The confidence is the gap between the greatest and the runner-up score, rounded to four
      decimals, and so never negative. */
  lemma {:induction false} DecideConfidence(scores: seq<Scored<string>>, floor: real)
    requires |scores| == 4
    ensures Decide(scores, floor).confidence == Round4(MaxScore(scores) - SecondScore(scores))
    ensures Decide(scores, floor).confidence >= 0.0
  {
    RoundedGap(scores[ArgMaxFirst(scores)].score, SecondScore(scores), MaxScore(scores), SecondScore(scores));
  }

  /** The rounded gap depends only on the two scores, and is not negative when they are ordered. */
  lemma {:induction false} RoundedGap(best: real, second: real, max: real, runnerUp: real)
    requires best == max && second == runnerUp && runnerUp <= max
    ensures Round4(best - second) == Round4(max - runnerUp) >= 0.0
  {
    RoundToNonNegative(max - runnerUp, 10000);
  }

  /** With a positive floor the `best >= floor` half of the NOISE rule never changes the outcome:
      NOISE holds exactly when all four ratios exceed three times the floor. */
  lemma {:induction false} NoiseNeedsOnlyUniform(scores: seq<Scored<string>>, floor: real)
    requires |scores| == 4 && floor > 0.0
    ensures Decide(scores, floor).status == Noise <==> Uniform(scores, floor)
  {
    var k := ArgMin(scores);
    assert MaxScore(scores) >= scores[k].score;
  }

  /** Ratios already rounded to four decimals have an exact gap: an OK answer then beats the
      runner-up by at least 0.04 and by the factor 1.5. */
  lemma {:induction false} OkGapOnGrid(scores: seq<Scored<string>>, floor: real)
    requires |scores| == 4
    requires forall i :: 0 <= i < 4 ==> Round4(scores[i].score) == scores[i].score
    ensures Decide(scores, floor).status == Ok ==>
      MaxScore(scores) - SecondScore(scores) >= MinGap
      && MaxScore(scores) >= SecondScore(scores) * DominanceRatio
      && Decide(scores, floor).confidence == MaxScore(scores) - SecondScore(scores)
  {
    DecideConfidence(scores, floor);
    GapOnGrid(scores);
  }

  lemma {:induction false} GapOnGrid(scores: seq<Scored<string>>)
    requires |scores| == 4
    requires forall i :: 0 <= i < 4 ==> Round4(scores[i].score) == scores[i].score
    ensures Round4(MaxScore(scores) - SecondScore(scores)) == MaxScore(scores) - SecondScore(scores)
  {
    var i := ArgMaxFirst(scores);
    var j := SecondIndex(scores);
    var best, second := scores[i].score, scores[j].score;
    assert Round4(best) == best && Round4(second) == second;
    Round4Difference(best, second);
    assert best - second == MaxScore(scores) - SecondScore(scores);
  }

  /** Ties between the best two go to the earlier letter, and the gap is then 0. */
  lemma {:induction false} TieGoesToEarlierLabel(scores: seq<Scored<string>>, floor: real, i: nat, j: nat)
    requires |scores| == 4 && i < j < 4
    requires scores[i].score == scores[j].score == MaxScore(scores)
    ensures ArgMaxFirst(scores) <= i
    ensures Decide(scores, floor).confidence == 0.0
  {
    DecideConfidence(scores, floor);
    TieSecond(scores, i, j);
    var g := MaxScore(scores) - SecondScore(scores);
    assert g == 0.0;
    Round4Zero();
    assert Round4(g) == 0.0;
  }

  lemma {:induction false} TieSecond(scores: seq<Scored<string>>, i: nat, j: nat)
    requires |scores| == 4 && i < j < 4
    requires scores[i].score == scores[j].score == MaxScore(scores)
    ensures SecondScore(scores) == MaxScore(scores)
  {
    SecondScoreBounds(scores);
    if ArgMaxFirst(scores) == i {
      assert scores[j].score <= SecondScore(scores);
    } else {
      assert scores[i].score <= SecondScore(scores);
    }
  }

  /** The four pill centres of question n (0-based) of a subject. */
  function QuestionCentres(anchorY: int, n: nat): seq<Point>
    requires n < 40
  {
    seq(4, c requires 0 <= c < 4 => PillCentre(anchorY, n / 8, n % 8, c))
  }

  /** Every pill ratio of a subject, in the order the single pass measures them. */
  function SubjectRatios(m: Mask, anchorY: int): (rs: seq<real>)
    requires m.Valid()
    ensures |rs| == |SubjectPills(anchorY)|
    ensures forall i :: 0 <= i < |rs| ==> 0.0 <= rs[i] <= 1.0
  {
    var ps := SubjectPills(anchorY);
    seq(|ps|, i requires 0 <= i < |ps| => PillFillRatio(m, ps[i].centre.x, ps[i].centre.y))
  }

  /** The labelled ratios of question n, in A..D order. */
  function QuestionScores(m: Mask, anchorY: int, n: nat): (s: seq<Scored<string>>)
    requires m.Valid() && n < 40
    ensures |s| == 4
    ensures forall c :: 0 <= c < 4 ==> s[c].key == ChoiceLabels[c]
  {
    var cs := QuestionCentres(anchorY, n);
    seq(4, c requires 0 <= c < 4 => Scored(ChoiceLabels[c], PillFillRatio(m, cs[c].x, cs[c].y)))
  }

  /** The question's scores are the entries `4n .. 4n+3` of the calibration sample. */
  lemma {:induction false} QuestionScoresInSample(m: Mask, anchorY: int, n: nat, c: nat)
    requires m.Valid() && n < 40 && c < 4
    ensures |SubjectRatios(m, anchorY)| == 160
    ensures QuestionScores(m, anchorY, n)[c].score == SubjectRatios(m, anchorY)[4 * n + c]
  {
    SubjectPillsLayout(anchorY);
    assert PillAt(SubjectPills(anchorY), n, c).centre == PillCentre(anchorY, n / 8, n % 8, c);
  }

  /** One subject's 40 outcomes, question 1 first, all judged against the subject's floor. */
  function ReadSubject(m: Mask, anchorY: int): (r: seq<Outcome>)
    requires m.Valid()
    ensures |r| == 40
    ensures forall n :: 0 <= n < 40 ==>
      r[n] == Decide(QuestionScores(m, anchorY, n), ReadAnswersFloor(SubjectRatios(m, anchorY)))
  {
    var floor := ReadAnswersFloor(SubjectRatios(m, anchorY));
    seq(40, n requires 0 <= n < 40 => Decide(QuestionScores(m, anchorY, n), floor))
  }

  /** Every subject's floor lies in [0.04, 0.15), so a question whose best ratio is below 0.04
      is always BLANK and one whose best ratio is at least 0.15 is never BLANK. */
  lemma {:induction false} ReadSubjectBlankBounds(m: Mask, anchorY: int, n: nat)
    requires m.Valid() && n < 40
    ensures MaxScore(QuestionScores(m, anchorY, n)) < 0.04 ==> ReadSubject(m, anchorY)[n].status == Blank
    ensures MaxScore(QuestionScores(m, anchorY, n)) >= 0.15 ==> ReadSubject(m, anchorY)[n].status != Blank
  {
    ReadAnswersFloorRange(SubjectRatios(m, anchorY));
  }

  /** The script's results: each subject of the page with its outcomes. */
  function ReadPage(m: Mask): (r: seq<(string, seq<Outcome>)>)
    requires m.Valid()
    ensures |r| == |SubjectY|
    ensures forall s :: 0 <= s < |r| ==> r[s].0 == SubjectY[s].0 && r[s].1 == ReadSubject(m, SubjectY[s].1)
  {
    seq(|SubjectY|, s requires 0 <= s < |SubjectY| => (SubjectY[s].0, ReadSubject(m, SubjectY[s].1)))
  }
}
