/**
 * The current-school readers. Both versions decide a column by the best
 * rounded score against a per-field threshold and a dominance gap of
 * 0.10; `read_grid` reads a flat grid as one column and a nested grid
 * column by column; the first reader wraps each field with a confidence
 * and a review flag, the second reports a status and maps the region
 * letter to a region name. Scores enter as the measured ratio of each row.
 */
module CurrentRead {
  import opened Wrappers
  import opened Numeric
  import opened Ranking

  const DominanceGap: real := 0.10
  const ReviewBelow: real := 0.50
  const RegionThreshold: real := 0.38
  const DigitThreshold: real := 0.42
  const SchoolTypeThreshold: real := 0.40
  const LetterRegionThreshold: real := 0.40

  const RegionNames: seq<string> := [
    "REGION I", "REGION II", "REGION III", "REGION IV-A", "REGION V", "REGION VI", "REGION VII",
    "REGION VIII", "REGION IX", "REGION X", "REGION XI", "REGION XII", "NCR", "CAR", "BARMM",
    "CARAGA", "NIR"]
  const DigitRows: seq<string> := ["0", "1", "2", "3", "4", "5", "6", "7", "8", "9"]
  const SchoolTypeRows: seq<string> := [
    "National Barangay/Community HS", "National Comprehensive HS", "Integrated School",
    "Public Science HS", "Public Vocational HS", "State College/University",
    "Private Non-Sectarian HS", "Private Sectarian HS", "Private Vocational HS", "Private Science HS"]

  /** `decide_selection`: the best label (first maximum of a stable descending sort) when it
      reaches the threshold and leads the runner-up (0 for a single candidate) by 0.10; the best
      score is returned in every case. The source indexes the sorted list, so it needs at least
      one candidate. */
  function DecideSelection(scores: seq<Scored<string>>, threshold: real): (r: (Option<string>, real))
    requires |scores| > 0
    ensures r.0.Some? <==> MaxScore(scores) >= threshold && MaxScore(scores) - SecondOrZero(scores) >= DominanceGap
    ensures r.0.Some? ==> r.0.value == scores[ArgMaxFirst(scores)].key
    ensures r.1 == MaxScore(scores)
  {
    var sorted := SortDesc(scores);
    SortDescTop(scores);
    var top := sorted[0];
    var second := if |sorted| > 1 then sorted[1].score else 0.0;
    if top.score < threshold then (None, top.score)
    else if top.score - second < DominanceGap then (None, top.score)
    else (Some(top.key), top.score)
  }

  datatype Status = Blank | Multi | Single

  /** The second reader's `decide_selection`, which also reports why nothing was selected. */
  function DecideWithStatus(scores: seq<Scored<string>>, threshold: real): (r: (Option<string>, real, Status))
    requires |scores| > 0
    ensures r.2 == Blank <==> MaxScore(scores) < threshold
    ensures r.2 == Multi <==> MaxScore(scores) >= threshold && MaxScore(scores) - SecondOrZero(scores) < DominanceGap
    ensures r.0.Some? <==> r.2 == Single
  {
    var sorted := SortDesc(scores);
    SortDescTop(scores);
    var top := sorted[0];
    var second := if |sorted| > 1 then sorted[1].score else 0.0;
    if top.score < threshold then (None, top.score, Blank)
    else if top.score - second < DominanceGap then (None, top.score, Multi)
    else (Some(top.key), top.score, Single)
  }

  /** The two versions of the rule select the same label and report the same score. */
  lemma {:induction false} DecisionsAgree(scores: seq<Scored<string>>, threshold: real)
    requires |scores| > 0
    ensures DecideWithStatus(scores, threshold).0 == DecideSelection(scores, threshold).0
    ensures DecideWithStatus(scores, threshold).1 == DecideSelection(scores, threshold).1
  {
    SortDescTop(scores);
  }

  /** `scores[rows[i]] = round(ratio_i, n)`: the scores of one column, labelled by row. */
  function LabelledScores(ratios: seq<real>, rows: seq<string>, scale: Scale): (s: seq<Scored<string>>)
    requires |ratios| <= |rows|
    ensures |s| == |ratios|
    ensures forall i :: 0 <= i < |s| ==> s[i] == Scored(rows[i], RoundTo(ratios[i], scale))
  {
    seq(|ratios|, i requires 0 <= i < |ratios| => Scored(rows[i], RoundTo(ratios[i], scale)))
  }

  /** The two shapes `read_grid` accepts: a flat `{row: point}` grid, or `{col: {row: point}}`. */
  datatype Grid = Flat(rows: seq<real>) | Nested(cols: seq<seq<real>>)

  predicate WellFormed(g: Grid, labels: seq<string>)
  {
    match g
    case Flat(rs) => 0 < |rs| <= |labels|
    case Nested(cs) => forall c :: 0 <= c < |cs| ==> 0 < |cs[c]| <= |labels|
  }

  datatype ColumnResult = ColumnResult(selected: Option<string>, confidence: real, scores: seq<Scored<string>>)

  /** One column of `read_grid`: its decision, with the confidence rounded again. */
  function ReadColumn(ratios: seq<real>, labels: seq<string>, threshold: real, scale: Scale): (c: ColumnResult)
    requires 0 < |ratios| <= |labels|
    ensures c.scores == LabelledScores(ratios, labels, scale)
    ensures c.selected.Some? <==> MaxScore(c.scores) >= threshold && MaxScore(c.scores) - SecondOrZero(c.scores) >= DominanceGap
    ensures c.selected.Some? ==> c.selected.value == labels[ArgMaxFirst(c.scores)]
    ensures c.confidence == RoundTo(MaxScore(c.scores), scale)
  {
    var scores := LabelledScores(ratios, labels, scale);
    var d := DecideSelection(scores, threshold);
    ColumnResult(d.0, RoundTo(d.1, scale), scores)
  }

  /** `if selected: decoded += selected`: a present, non-empty label. */
  function Contribution(sel: Option<string>): (s: string)
    ensures sel.None? ==> s == []
    ensures sel.Some? ==> s == sel.value
  {
    if sel.Some? && |sel.value| > 0 then sel.value else []
  }

  function ColumnResults(cols: seq<seq<real>>, labels: seq<string>, threshold: real, scale: Scale)
    : (rs: seq<(nat, ColumnResult)>)
    requires forall c :: 0 <= c < |cols| ==> 0 < |cols[c]| <= |labels|
    ensures |rs| == |cols|
    ensures forall c :: 0 <= c < |cols| ==> rs[c] == (c, ReadColumn(cols[c], labels, threshold, scale))
  {
    seq(|cols|, c requires 0 <= c < |cols| => (c, ReadColumn(cols[c], labels, threshold, scale)))
  }

  /** The concatenated selections of columns from..end, in column order. */
  function Decoded(rs: seq<(nat, ColumnResult)>): (s: string)
  {
    if |rs| == 0 then [] else Contribution(rs[0].1.selected) + Decoded(rs[1..])
  }

  /** `read_grid`: the decoded string and the per-column results. */
  function ReadGrid(g: Grid, labels: seq<string>, threshold: real, scale: Scale): (r: (string, seq<(nat, ColumnResult)>))
    requires WellFormed(g, labels)
    ensures g.Flat? ==> |r.1| == 1 && r.1[0].0 == 0
    ensures g.Nested? ==> |r.1| == |g.cols| && forall c :: 0 <= c < |g.cols| ==> r.1[c].0 == c
    ensures r.0 == Decoded(r.1)
  {
    match g
    case Flat(rows) =>
      var res := [(0, ReadColumn(rows, labels, threshold, scale))];
      assert res[1..] == [];
      (Contribution(res[0].1.selected), res)
    case Nested(cols) =>
      var res := ColumnResults(cols, labels, threshold, scale);
      (Decoded(res), res)
  }

  /** Over one-character labels the decoded string has one character per selected column and
      skips the others: its length is the number of selected columns. */
  lemma {:induction false} DecodedCountsSelections(rs: seq<(nat, ColumnResult)>)
    requires forall k :: 0 <= k < |rs| && rs[k].1.selected.Some? ==> |rs[k].1.selected.value| == 1
    ensures |Decoded(rs)| == SelectedCount(rs)
    ensures |Decoded(rs)| <= |rs|
  {
    if |rs| > 0 {
      DecodedCountsSelections(rs[1..]);
    }
  }

  function SelectedCount(rs: seq<(nat, ColumnResult)>): nat
  {
    if |rs| == 0 then 0 else (if rs[0].1.selected.Some? then 1 else 0) + SelectedCount(rs[1..])
  }

  /** Each digit column decided from the digit labels selects a one-character label. */
  lemma {:induction false} DigitSelectionsAreDigits(cols: seq<seq<real>>, threshold: real, scale: Scale)
    requires forall c :: 0 <= c < |cols| ==> 0 < |cols[c]| <= |DigitRows|
    ensures forall k :: 0 <= k < |cols| && ColumnResults(cols, DigitRows, threshold, scale)[k].1.selected.Some? ==>
      ColumnResults(cols, DigitRows, threshold, scale)[k].1.selected.value in DigitRows
    ensures forall k :: 0 <= k < |cols| && ColumnResults(cols, DigitRows, threshold, scale)[k].1.selected.Some? ==>
      |ColumnResults(cols, DigitRows, threshold, scale)[k].1.selected.value| == 1
  {
    var rs := ColumnResults(cols, DigitRows, threshold, scale);
    forall k | 0 <= k < |cols| && rs[k].1.selected.Some?
      ensures rs[k].1.selected.value in DigitRows && |rs[k].1.selected.value| == 1
    {
      var scores := LabelledScores(cols[k], DigitRows, scale);
      var i := ArgMaxFirst(scores);
      assert scores[i].key == DigitRows[i];
      assert |DigitRows[i]| == 1;
    }
  }

  /** `wrap_field`'s output. */
  datatype Field = Field(answer: string, confidence: real, review: bool, digits: seq<ColumnResult>)

  function Confidences(rs: seq<(nat, ColumnResult)>): (cs: seq<real>)
    ensures |cs| == |rs| && forall k :: 0 <= k < |rs| ==> cs[k] == Round2(rs[k].1.confidence)
  {
    seq(|rs|, k requires 0 <= k < |rs| => Round2(rs[k].1.confidence))
  }

  /** `wrap_field`: no details give confidence 0 and review; several columns give the mean of the
      columns' rounded confidences, selected or not; a single column gives its own rounded
      confidence; review is required below 0.50. */
  function WrapField(answer: string, details: seq<(nat, ColumnResult)>): (f: Field)
    ensures |details| == 0 ==> f.confidence == 0.0 && f.review
    ensures |details| > 0 ==> (f.review <==> f.confidence < ReviewBelow)
    ensures |details| == 1 ==> f.confidence == Round2(details[0].1.confidence)
    ensures |details| > 1 ==> f.confidence == Round2(Mean(Confidences(details)))
    ensures f.answer == answer
  {
    if |details| == 0 then Field(answer, 0.0, true, [])
    else if |details| > 1 then
      var conf := Round2(Mean(Confidences(details)));
      Field(answer, conf, conf < ReviewBelow, seq(|details|, k requires 0 <= k < |details| => details[k].1))
    else
      var conf := Round2(details[0].1.confidence);
      Field(answer, conf, conf < ReviewBelow, [])
  }

  /** A field whose columns all reach 0.50 (after rounding) never needs review: the mean of values
      at or above a two-decimal grid point, rounded to two decimals, stays at or above it. */
  lemma {:induction false} WrapFieldReview(answer: string, details: seq<(nat, ColumnResult)>)
    requires |details| > 0
    requires forall k :: 0 <= k < |details| ==> Round2(details[k].1.confidence) >= ReviewBelow
    ensures !WrapField(answer, details).review
  {
    var cs := Confidences(details);
    assert ReviewBelow == Unscale(50, 100);
    if |details| > 1 {
      MeanAtLeast(cs, Unscale(50, 100));
      RoundToKeepsGridLowerBound(Mean(cs), 50, 100);
    }
  }

  /** The measured page of the current-school block. */
  datatype SchoolPage = SchoolPage(region: seq<real>, division: seq<seq<real>>, schoolId: seq<seq<real>>,
                                   schoolType: seq<real>)

  predicate PageShape(p: SchoolPage, regionLabels: nat)
  {
    0 < |p.region| <= regionLabels
    && (forall c :: 0 <= c < |p.division| ==> 0 < |p.division[c]| <= 10)
    && (forall c :: 0 <= c < |p.schoolId| ==> 0 < |p.schoolId[c]| <= 10)
    && 0 < |p.schoolType| <= |SchoolTypeRows|
  }

  datatype CurrentSchool = CurrentSchool(region: Field, division: Field, schoolId: Field, schoolType: Field)

  /** A one-column field as the first reader builds it: the grid read at `threshold` over
      two-decimal scores, then wrapped. Its answer is empty or the label of the darkest row, and a
      label is read only when that row reaches the threshold. */
  function FlatField(rows: seq<real>, labels: seq<string>, threshold: real): (f: Field)
    requires 0 < |rows| <= |labels|
    ensures var g := ReadGrid(Flat(rows), labels, threshold, 100); f == WrapField(g.0, g.1)
    ensures f.answer == [] || f.answer in labels
    ensures f.answer != [] ==> MaxScore(LabelledScores(rows, labels, 100)) >= threshold
    ensures !f.review <==> f.confidence >= ReviewBelow
  {
    FlatDecodedIsLabel(rows, labels, threshold, 100);
    var g := ReadGrid(Flat(rows), labels, threshold, 100);
    WrapField(g.0, g.1)
  }

  /** A digit-per-column field as the first reader builds it: each column read against "0".."9" at
      `threshold` over two-decimal scores, the selected digits joined, then wrapped. */
  function DigitsField(cols: seq<seq<real>>, threshold: real): (f: Field)
    requires forall c :: 0 <= c < |cols| ==> 0 < |cols[c]| <= 10
    ensures var g := ReadGrid(Nested(cols), DigitRows, threshold, 100); f == WrapField(g.0, g.1)
    ensures |f.answer| <= |cols|
  {
    NestedDigitsLength(cols, threshold, 100);
    var g := ReadGrid(Nested(cols), DigitRows, threshold, 100);
    WrapField(g.0, g.1)
  }

  /** The first reader's `read_current_school_info`: a missing image raises ValueError; otherwise
      each field is read at its own threshold (region 0.38, division and school id 0.42, school
      type 0.40) with two-decimal scores and wrapped. */
  function ReadCurrentSchoolInfo(page: Option<SchoolPage>): (r: Result<CurrentSchool>)
    requires page.Some? ==> PageShape(page.value, |RegionNames|)
    ensures r.Failure? <==> page.None?
    ensures r.Success? ==> r.value.region == FlatField(page.value.region, RegionNames, RegionThreshold)
    ensures r.Success? ==> r.value.division == DigitsField(page.value.division, DigitThreshold)
    ensures r.Success? ==> r.value.schoolId == DigitsField(page.value.schoolId, DigitThreshold)
    ensures r.Success? ==> r.value.schoolType == FlatField(page.value.schoolType, SchoolTypeRows, SchoolTypeThreshold)
    ensures r.Success? ==> r.value.region.answer == [] || r.value.region.answer in RegionNames
    ensures r.Success? ==> r.value.schoolType.answer == [] || r.value.schoolType.answer in SchoolTypeRows
    ensures r.Success? ==> |r.value.division.answer| <= |page.value.division|
    ensures r.Success? ==> |r.value.schoolId.answer| <= |page.value.schoolId|
    ensures r.Success? ==> (!r.value.region.review <==> r.value.region.confidence >= ReviewBelow)
    ensures r.Success? && r.value.region.answer != [] ==>
      MaxScore(LabelledScores(page.value.region, RegionNames, 100)) >= RegionThreshold
    ensures r.Success? && r.value.schoolType.answer != [] ==>
      MaxScore(LabelledScores(page.value.schoolType, SchoolTypeRows, 100)) >= SchoolTypeThreshold
  {
    if page.None? then Failure("ValueError: Unable to load image.")
    else
      var p := page.value;
      Success(CurrentSchool(FlatField(p.region, RegionNames, RegionThreshold),
                            DigitsField(p.division, DigitThreshold), DigitsField(p.schoolId, DigitThreshold),
                            FlatField(p.schoolType, SchoolTypeRows, SchoolTypeThreshold)))
  }

  /** `list("ABCDEFGHIJKLMNOPQRSTUVWXYZ")`: the one-letter strings A to Z, in order. */
  function RegionLetters(): (ls: seq<string>)
    ensures |ls| == 26 && forall i :: 0 <= i < 26 ==> ls[i] == [(65 + i) as char]
  {
    seq(26, i requires 0 <= i < 26 => [(65 + i) as char])
  }

  /** `REGION_ROWS.index(v)`: the position of a region letter, read off its character code. */
  function LetterIndex(v: string): (i: nat)
    requires v in RegionLetters()
    ensures i < 26 && RegionLetters()[i] == v
    ensures forall k :: 0 <= k < 26 && RegionLetters()[k] == v ==> k == i
  {
    var ls := RegionLetters();
    assert |v| == 1 && 65 <= v[0] as int < 91;
    var i := v[0] as int - 65;
    assert ls[i] == v;
    assert forall k :: 0 <= k < 26 && ls[k] == v ==> k == i by {
      forall k | 0 <= k < 26 && ls[k] == v ensures k == i {
        assert ls[k][0] == v[0];
      }
    }
    i
  }

  /** The region name of a decoded region letter: the letter at position k names REGION_MAP[k + 1]
      for the first fifteen letters, later letters pass through, and an empty value stays empty. */
  function MapRegion(v: string): (r: string)
    requires v == [] || v in RegionLetters()
    ensures v == [] ==> r == []
    ensures forall k :: 0 <= k < 15 && v == RegionLetters()[k] ==> r == RegionNames[k]
    ensures forall k :: 15 <= k < 26 && v == RegionLetters()[k] ==> r == v
  {
    if v == [] then v
    else if LetterIndex(v) + 1 <= 15 then RegionNames[LetterIndex(v)]
    else v
  }

  datatype SchoolValues = SchoolValues(region: string, division: string, schoolId: string, schoolType: string)

  /** The region letter the second reader decodes at threshold 0.40: none, or the letter of the
      darkest row, whose score then reaches the threshold. */
  function RegionLetter(rows: seq<real>): (v: string)
    requires 0 < |rows| <= 26
    ensures v == [] || v in RegionLetters()
    ensures v == ReadGrid(Flat(rows), RegionLetters(), 0.40, 1000).0
    ensures v != [] ==> MaxScore(LabelledScores(rows, RegionLetters(), 1000)) >= 0.40
  {
    FlatDecodedIsLabel(rows, RegionLetters(), LetterRegionThreshold, 1000);
    ReadGrid(Flat(rows), RegionLetters(), LetterRegionThreshold, 1000).0
  }

  /** A mapped region value is empty, a region name, or a letter left as it was. */
  lemma {:induction false} MappedRegionKinds(v: string)
    requires v == [] || v in RegionLetters()
    ensures MapRegion(v) == [] || MapRegion(v) in RegionNames || MapRegion(v) in RegionLetters()
  {
    if v != [] {
      var i := LetterIndex(v);
      if i < 15 {
        assert MapRegion(v) == RegionNames[i];
      }
    }
  }

  /** The second reader's `read_current_school_info`: three-decimal scores; division and school
      id decoded digit by digit at 0.42, the region letter decoded at 0.40 and mapped to a region
      name, the school type decoded at 0.40. */
  function ReadSchoolValues(page: Option<SchoolPage>): (r: Result<SchoolValues>)
    requires page.Some? ==> PageShape(page.value, 26)
    ensures r.Failure? <==> page.None?
    ensures r.Success? ==> r.value.region == [] || r.value.region in RegionNames || r.value.region in RegionLetters()
    ensures r.Success? ==> |r.value.division| <= |page.value.division| && |r.value.schoolId| <= |page.value.schoolId|
    ensures r.Success? ==> r.value.schoolType == [] || r.value.schoolType in SchoolTypeRows
    ensures r.Success? ==> r.value.region == MapRegion(RegionLetter(page.value.region))
    ensures r.Success? ==>
      r.value.division == ReadGrid(Nested(page.value.division), DigitRows, 0.42, 1000).0
      && r.value.schoolId == ReadGrid(Nested(page.value.schoolId), DigitRows, 0.42, 1000).0
      && r.value.schoolType == ReadGrid(Flat(page.value.schoolType), SchoolTypeRows, 0.40, 1000).0
  {
    if page.None? then Failure("ValueError: Unable to load image.")
    else
      var p := page.value;
      var letter := RegionLetter(p.region);
      NestedDigitsLength(p.division, DigitThreshold, 1000);
      NestedDigitsLength(p.schoolId, DigitThreshold, 1000);
      FlatDecodedIsLabel(p.schoolType, SchoolTypeRows, SchoolTypeThreshold, 1000);
      var division := ReadGrid(Nested(p.division), DigitRows, DigitThreshold, 1000);
      var schoolId := ReadGrid(Nested(p.schoolId), DigitRows, DigitThreshold, 1000);
      var schoolType := ReadGrid(Flat(p.schoolType), SchoolTypeRows, SchoolTypeThreshold, 1000);
      MappedRegionKinds(letter);
      Success(SchoolValues(MapRegion(letter), division.0, schoolId.0, schoolType.0))
  }

  /** The decoded value of a flat grid is empty or one of the row labels. */
  lemma {:induction false} FlatDecodedIsLabel(rows: seq<real>, labels: seq<string>, threshold: real, scale: Scale)
    requires 0 < |rows| <= |labels|
    ensures var v := ReadGrid(Flat(rows), labels, threshold, scale).0;
      v == [] || v in labels
  {
    var scores := LabelledScores(rows, labels, scale);
    var i := ArgMaxFirst(scores);
    assert scores[i].key == labels[i];
  }

  /** A digit grid decodes to at most one digit per column. */
  lemma {:induction false} NestedDigitsLength(cols: seq<seq<real>>, threshold: real, scale: Scale)
    requires forall c :: 0 <= c < |cols| ==> 0 < |cols[c]| <= |DigitRows|
    ensures |ReadGrid(Nested(cols), DigitRows, threshold, scale).0| <= |cols|
  {
    var rs := ColumnResults(cols, DigitRows, threshold, scale);
    DigitSelectionsAreDigits(cols, threshold, scale);
    DecodedCountsSelections(rs);
  }
}
