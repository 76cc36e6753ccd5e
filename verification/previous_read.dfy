/**
 * The previous-school reader. Each column is read by `read_column`: the
 * first row with the greatest fill score, selected when that score is at
 * least 0.25. The school id joins six digit columns; a final grade and
 * the class size each join a tens and a ones column and exist only when
 * both halves are read; the school year keeps the first option whose score
 * strictly beats all earlier ones. Confidences are `round(x, 2)` and a
 * field asks for review when its confidence is below 0.25.
 */
module PreviousRead {
  import opened Wrappers
  import opened Numeric
  import opened Text
  import opened Ranking

  const FillThreshold: real := 0.25
  const ReviewThreshold: real := 0.25

  /** `list("0123456789")`. */
  function DigitLabels(): (ls: seq<string>)
    ensures |ls| == 10 && forall d :: 0 <= d < 10 ==> ls[d] == [DigitChar(d)]
  {
    seq(10, d requires 0 <= d < 10 => [DigitChar(d)])
  }

  /** `["6", "7", "8", "9"]`: the tens digits of a final grade. */
  function TensLabels(): (ls: seq<string>)
    ensures |ls| == 4 && forall d :: 0 <= d < 4 ==> ls[d] == [DigitChar(6 + d)]
  {
    seq(4, d requires 0 <= d < 4 => [DigitChar(6 + d)])
  }

  const SubjectNames: seq<string> := ["Math", "English", "Science", "Filipino", "AP"]

  /** The score dict of a column: each row's label with its measured score, in row order. */
  function Labelled(scores: seq<real>, values: seq<string>): (s: seq<Scored<string>>)
    requires |scores| <= |values|
    ensures |s| == |scores| && forall i :: 0 <= i < |scores| ==> s[i] == Scored(values[i], scores[i])
  {
    seq(|scores|, i requires 0 <= i < |scores| => Scored(values[i], scores[i]))
  }

  datatype ColumnRead = ColumnRead(selected: Option<string>, confidence: real, scores: seq<Scored<string>>)

  /** `read_column`: the best row is the first with the greatest score; it is selected iff its
      score reaches 0.25, and its score is the column's confidence either way. The source takes
      `max` of the score dict, so a column needs at least one row. */
  function ReadColumn(scores: seq<real>, values: seq<string>): (c: ColumnRead)
    requires 0 < |scores| <= |values|
    ensures c.scores == Labelled(scores, values)
    ensures exists b :: (0 <= b < |scores| && c.confidence == scores[b]
      && (forall j :: 0 <= j < |scores| ==> scores[j] <= scores[b])
      && (forall j :: 0 <= j < b ==> scores[j] < scores[b])
      && (c.selected.Some? ==> c.selected.value == values[b]))
    ensures c.selected.Some? <==> c.confidence >= FillThreshold
  {
    var dict := Labelled(scores, values);
    var b := ArgMaxFirst(dict);
    FirstBestRow(scores, values, b);
    var best := dict[b].score;
    if best >= FillThreshold then ColumnRead(Some(dict[b].key), best, dict)
    else ColumnRead(None, best, dict)
  }

  /** The first maximum of the score dict is row b of the column: its score is the column's
      greatest and every earlier row scores strictly less. */
  lemma {:induction false} FirstBestRow(scores: seq<real>, values: seq<string>, b: nat)
    requires 0 < |scores| <= |values| && b == ArgMaxFirst(Labelled(scores, values))
    ensures b < |scores| && Labelled(scores, values)[b] == Scored(values[b], scores[b])
    ensures forall j :: 0 <= j < |scores| ==> scores[j] <= scores[b]
    ensures forall j :: 0 <= j < b ==> scores[j] < scores[b]
  {
    var dict := Labelled(scores, values);
    assert forall j :: 0 <= j < |scores| ==> dict[j].score == scores[j];
  }

  /** A field of the result: answer, two-decimal confidence and review flag. */
  datatype Field = Field(answer: Option<string>, confidence: real, review: bool)

  /** `sum(confidences) / len(confidences) if confidences else 0.0`. */
  function AvgOrZero(cs: seq<real>): (a: real)
    ensures |cs| == 0 ==> a == 0.0
    ensures (forall i :: 0 <= i < |cs| ==> FillThreshold <= cs[i]) ==> |cs| > 0 ==> a >= FillThreshold
  {
    if |cs| == 0 then 0.0
    else
      MeanAtLeastIf(cs);
      Mean(cs)
  }

  lemma {:induction false} MeanAtLeastIf(cs: seq<real>)
    requires |cs| > 0
    ensures (forall i :: 0 <= i < |cs| ==> FillThreshold <= cs[i]) ==> Mean(cs) >= FillThreshold
  {
    if forall i :: 0 <= i < |cs| ==> FillThreshold <= cs[i] {
      MeanAtLeast(cs, FillThreshold);
    }
  }

  /** The confidence and review flag of an average: review below 0.25 after rounding. */
  function Rated(answer: Option<string>, avg: real): (f: Field)
    ensures f.answer == answer && f.confidence == Round2(avg)
    ensures f.review <==> Round2(avg) < ReviewThreshold
  {
    Field(answer, Round2(avg), Round2(avg) < ReviewThreshold)
  }

  /** An average of selected confidences (each at least 0.25), or 0 when nothing is selected, asks
      for review exactly when nothing is selected: 0.25 lies on the two-decimal grid, so rounding
      keeps an average at or above it there. */
  lemma {:induction false} RatedReview(answer: Option<string>, cs: seq<real>)
    requires forall i :: 0 <= i < |cs| ==> FillThreshold <= cs[i]
    ensures Rated(answer, AvgOrZero(cs)).review <==> |cs| == 0
  {
    assert ReviewThreshold == Unscale(25, 100);
    if |cs| == 0 {
      RoundToFixesGrid(0, 100);
      assert Round2(0.0) == Unscale(0, 100);
    } else {
      RoundToKeepsGridLowerBound(AvgOrZero(cs), 25, 100);
    }
  }

  /** The school-id digits: a selected column contributes its digit, any other column "". */
  function JoinDigits(rs: seq<ColumnRead>): (s: string)
  {
    if |rs| == 0 then []
    else (if rs[0].selected.Some? then rs[0].selected.value else []) + JoinDigits(rs[1..])
  }

  /** The raw confidences of the selected columns, in column order. */
  function SelectedConfidences(rs: seq<ColumnRead>): (cs: seq<real>)
    ensures |cs| <= |rs|
  {
    if |rs| == 0 then []
    else (if rs[0].selected.Some? then [rs[0].confidence] else []) + SelectedConfidences(rs[1..])
  }

  /** Columns read by `read_column` keep their selection at or above the fill threshold. */
  predicate ThresholdRespected(rs: seq<ColumnRead>)
  {
    forall k :: 0 <= k < |rs| ==> (rs[k].selected.Some? <==> rs[k].confidence >= FillThreshold)
  }

  predicate SingleCharSelections(rs: seq<ColumnRead>)
  {
    forall k :: 0 <= k < |rs| && rs[k].selected.Some? ==> |rs[k].selected.value| == 1
  }

  predicate NoneSelected(rs: seq<ColumnRead>)
  {
    forall k :: 0 <= k < |rs| ==> rs[k].selected.None?
  }

  /** Over one-character selections the joined digits hold one character per selected column, and
      every selected confidence reaches the fill threshold. */
  lemma {:induction false} JoinedDigits(rs: seq<ColumnRead>)
    requires ThresholdRespected(rs) && SingleCharSelections(rs)
    ensures |JoinDigits(rs)| == |SelectedConfidences(rs)|
    ensures |JoinDigits(rs)| == 0 <==> NoneSelected(rs)
    ensures forall i :: 0 <= i < |SelectedConfidences(rs)| ==> FillThreshold <= SelectedConfidences(rs)[i]
  {
    if |rs| > 0 {
      var t := rs[1..];
      JoinedDigits(t);
      assert NoneSelected(rs) <==> rs[0].selected.None? && NoneSelected(t) by {
        if rs[0].selected.None? && NoneSelected(t) {
          forall k | 0 <= k < |rs| ensures rs[k].selected.None? {
            if k > 0 { assert rs[k] == t[k - 1]; }
          }
        }
      }
    }
  }

  /** The digits are joined column by column in order: joining two runs of columns joins their
      digits (`JoinDigitsOne` gives what each column adds). */
  lemma {:induction false} JoinDigitsConcat(a: seq<ColumnRead>, b: seq<ColumnRead>)
    ensures JoinDigits(a + b) == JoinDigits(a) + JoinDigits(b)
    decreases |a|
  {
    if |a| == 0 {
      assert a + b == b;
    } else {
      assert (a + b)[1..] == a[1..] + b;
      JoinDigitsConcat(a[1..], b);
    }
  }

  /** A selected column adds its digit and an unselected one the empty string. */
  lemma {:induction false} JoinDigitsOne()
    ensures forall r: ColumnRead :: JoinDigits([r]) == if r.selected.Some? then r.selected.value else []
  {
    forall r: ColumnRead ensures JoinDigits([r]) == if r.selected.Some? then r.selected.value else [] {
      assert [r][1..] == [];
    }
  }

  /** The six school-id columns, each read against the digits 0-9. */
  function ReadDigitColumns(cols: seq<seq<real>>): (rs: seq<ColumnRead>)
    requires forall c :: 0 <= c < |cols| ==> 0 < |cols[c]| <= 10
    ensures |rs| == |cols| && forall c :: 0 <= c < |cols| ==> rs[c] == ReadColumn(cols[c], DigitLabels())
    ensures ThresholdRespected(rs) && SingleCharSelections(rs)
  {
    var rs := seq(|cols|, c requires 0 <= c < |cols| => ReadColumn(cols[c], DigitLabels()));
    assert SingleCharSelections(rs) by {
      forall k | 0 <= k < |rs| && rs[k].selected.Some? ensures |rs[k].selected.value| == 1 {
        var dict := Labelled(cols[k], DigitLabels());
        assert rs[k].selected.value == dict[ArgMaxFirst(dict)].key;
      }
    }
    rs
  }

  /** The school-id field: the joined digits, None when no column is selected; the confidence
      averages the selected columns only. */
  function SchoolIdField(rs: seq<ColumnRead>): (f: Field)
    requires ThresholdRespected(rs) && SingleCharSelections(rs)
    ensures f.answer.None? <==> NoneSelected(rs)
    ensures f.answer.Some? ==> |f.answer.value| == |SelectedConfidences(rs)|
    ensures f.answer.Some? ==> f.answer.value == JoinDigits(rs)
    ensures f.confidence == Round2(AvgOrZero(SelectedConfidences(rs)))
    ensures f.review <==> NoneSelected(rs)
  {
    JoinedDigits(rs);
    RatedReview(None, SelectedConfidences(rs));
    var joined := JoinDigits(rs);
    Rated(if |joined| > 0 then Some(joined) else None, AvgOrZero(SelectedConfidences(rs)))
  }

  /** A field built from a tens and a ones column (a final grade, the class size): the answer
      exists only when both halves are selected; the confidence averages the selected halves. */
  function PairField(tens: ColumnRead, ones: ColumnRead): (f: Field)
    requires tens.selected.Some? <==> tens.confidence >= FillThreshold
    requires ones.selected.Some? <==> ones.confidence >= FillThreshold
    ensures f.answer.Some? <==> tens.selected.Some? && ones.selected.Some?
    ensures f.answer.Some? ==> f.answer.value == tens.selected.value + ones.selected.value
    ensures tens.selected.Some? && ones.selected.Some? ==> f.confidence == Round2((tens.confidence + ones.confidence) / 2.0)
    ensures tens.selected.Some? && ones.selected.None? ==> f.confidence == Round2(tens.confidence)
    ensures tens.selected.None? && ones.selected.Some? ==> f.confidence == Round2(ones.confidence)
    ensures f.review <==> tens.selected.None? && ones.selected.None?
  {
    var cs := HalfConfidences(tens, ones);
    RatedReview(None, cs);
    var answer := if tens.selected.Some? && ones.selected.Some? then Some(tens.selected.value + ones.selected.value) else None;
    Rated(answer, AvgOrZero(cs))
  }

  /** `confidences`: the tens then the ones confidence, each only when its half is selected. */
  function HalfConfidences(tens: ColumnRead, ones: ColumnRead): (cs: seq<real>)
    requires tens.selected.Some? <==> tens.confidence >= FillThreshold
    requires ones.selected.Some? <==> ones.confidence >= FillThreshold
    ensures forall i :: 0 <= i < |cs| ==> FillThreshold <= cs[i]
    ensures |cs| == 0 <==> tens.selected.None? && ones.selected.None?
    ensures tens.selected.Some? && ones.selected.Some? ==> AvgOrZero(cs) == (tens.confidence + ones.confidence) / 2.0
    ensures tens.selected.Some? && ones.selected.None? ==> AvgOrZero(cs) == tens.confidence
    ensures tens.selected.None? && ones.selected.Some? ==> AvgOrZero(cs) == ones.confidence
  {
    var cs := (if tens.selected.Some? then [tens.confidence] else []) + (if ones.selected.Some? then [ones.confidence] else []);
    if |cs| == 1 then
      MeanOfOne(cs[0]);
      cs
    else if |cs| == 2 then
      MeanOfTwo(tens.confidence, ones.confidence);
      assert cs == [tens.confidence, ones.confidence];
      cs
    else cs
  }

  lemma {:induction false} MeanOfOne(a: real)
    ensures AvgOrZero([a]) == a
  {
    assert Sum([a]) == Sum([a][..0]) + a;
  }

  lemma {:induction false} MeanOfTwo(a: real, b: real)
    ensures AvgOrZero([a, b]) == (a + b) / 2.0
  {
    assert [a, b][..1] == [a];
    assert Sum([a]) == Sum([a][..0]) + a;
    assert Sum([a, b]) == Sum([a]) + b;
  }

  /** With one half read and the other not, a grade has no answer yet is not flagged for review. */
  lemma {:induction false} HalfReadNotReviewed(tens: ColumnRead, ones: ColumnRead)
    requires tens.selected.Some? <==> tens.confidence >= FillThreshold
    requires ones.selected.Some? <==> ones.confidence >= FillThreshold
    requires tens.selected.Some? != ones.selected.Some?
    ensures PairField(tens, ones).answer.None? && !PairField(tens, ones).review
  {
  }

  /** `read_previous_school_info`'s final grades: columns 2k and 2k+1 are the tens (6-9) and ones
      (0-9) of subject k. */
  function FinalGrades(cols: seq<seq<real>>): (gs: seq<(string, Field)>)
    requires |cols| == 10
    requires forall k :: 0 <= k < 5 ==> GradeShape(cols, k)
    ensures |gs| == 5
    ensures forall k :: 0 <= k < 5 ==> gs[k] == (SubjectNames[k], Grade(cols, k))
  {
    seq(5, k requires 0 <= k < 5 && GradeShape(cols, k) => (SubjectNames[k], Grade(cols, k)))
  }

  /** Subject k's tens column has one row per digit 6-9 at most and its ones column one per digit. */
  predicate GradeShape(cols: seq<seq<real>>, k: int)
  {
    0 <= 2 * k && 2 * k + 1 < |cols| && 0 < |cols[2 * k]| <= 4 && 0 < |cols[2 * k + 1]| <= 10
  }

  /** Subject k's grade: its tens column read against 6-9 joined with its ones column read
      against 0-9. */
  function Grade(cols: seq<seq<real>>, k: int): Field
    requires GradeShape(cols, k)
  {
    PairField(ReadColumn(cols[2 * k], TensLabels()), ReadColumn(cols[2 * k + 1], DigitLabels()))
  }

  /** A final grade that is read is a two-digit number from 60 to 99. */
  lemma {:induction false} FinalGradeRange(tens: seq<real>, ones: seq<real>)
    requires 0 < |tens| <= 4 && 0 < |ones| <= 10
    requires PairField(ReadColumn(tens, TensLabels()), ReadColumn(ones, DigitLabels())).answer.Some?
    ensures var v := ParseNat(PairField(ReadColumn(tens, TensLabels()), ReadColumn(ones, DigitLabels())).answer.value);
      v.Some? && 60 <= v.value <= 99
  {
    var t := Labelled(tens, TensLabels());
    var o := Labelled(ones, DigitLabels());
    var a := ArgMaxFirst(t);
    var b := ArgMaxFirst(o);
    assert ReadColumn(tens, TensLabels()).selected.value == [DigitChar(6 + a)];
    assert ReadColumn(ones, DigitLabels()).selected.value == [DigitChar(b)];
    assert [DigitChar(6 + a)] + [DigitChar(b)] == [DigitChar(6 + a), DigitChar(b)];
    TwoDigits(6 + a, b);
  }

  /** The class size: tens and ones both over the digits 0-9. */
  function ClassSize(tens: seq<real>, ones: seq<real>): (f: Field)
    requires 0 < |tens| <= 10 && 0 < |ones| <= 10
    ensures f == PairField(ReadColumn(tens, DigitLabels()), ReadColumn(ones, DigitLabels()))
    ensures f.answer.Some? ==> ParseNat(f.answer.value).Some? && ParseNat(f.answer.value).value <= 99
  {
    var t := Labelled(tens, DigitLabels());
    var o := Labelled(ones, DigitLabels());
    var a := ArgMaxFirst(t);
    var b := ArgMaxFirst(o);
    TwoDigits(a, b);
    assert [DigitChar(a)] + [DigitChar(b)] == [DigitChar(a), DigitChar(b)];
    PairField(ReadColumn(tens, DigitLabels()), ReadColumn(ones, DigitLabels()))
  }

  const SyLabels: seq<string> := ["SY 2015-2016", "Before SY 2015-2016"]

  /** The school-year pick: scanning the options in order from a best score of 0, an option wins
      when its score is strictly greater than the best so far; the pick is dropped when the final
      best is below 0.25. */
  method PickSchoolYear(scores: seq<real>) returns (selected: Option<string>, best: real)
    requires |scores| <= |SyLabels|
    ensures best == if |scores| == 0 then 0.0 else MaxReal(0.0, MaxScore(Labelled(scores, SyLabels)))
    ensures selected.Some? <==> best >= FillThreshold
    ensures selected.Some? ==> selected.value == SyLabels[ArgMaxFirst(Labelled(scores, SyLabels))]
  {
    var winner: Option<nat> := None;
    best := 0.0;
    var i := 0;
    while i < |scores|
      invariant 0 <= i <= |scores|
      invariant best >= 0.0
      invariant forall j :: 0 <= j < i ==> scores[j] <= best
      invariant winner.None? ==> best == 0.0
      invariant winner.Some? ==> (winner.value < i && scores[winner.value] == best && best > 0.0
        && forall j :: 0 <= j < winner.value ==> scores[j] < best)
    {
      if scores[i] > best {
        best := scores[i];
        winner := Some(i);
      }
      i := i + 1;
    }
    if |scores| > 0 {
      var dict := Labelled(scores, SyLabels);
      var m := ArgMaxFirst(dict);
      assert forall j :: 0 <= j < |scores| ==> dict[j].score == scores[j];
      if winner.Some? {
        assert scores[m] == best;
        assert m == winner.value;
      }
    }
    if best >= FillThreshold {
      selected := Some(SyLabels[winner.value]);
    } else {
      selected := None;
    }
  }

  /** The school-year field: the pick with its rounded best score; with no option marked the best
      stays 0 and the field asks for review. */
  method SchoolYear(scores: seq<real>) returns (f: Field)
    requires |scores| <= |SyLabels|
    ensures f.answer.Some? ==> f.answer.value in SyLabels
    ensures (forall j :: 0 <= j < |scores| ==> scores[j] <= 0.0) ==> f.answer.None? && f.confidence == 0.0 && f.review
    ensures f.review <==> f.confidence < ReviewThreshold
    ensures var best := if |scores| == 0 then 0.0 else MaxReal(0.0, MaxScore(Labelled(scores, SyLabels)));
      f.confidence == Round2(best) && (f.answer.Some? <==> best >= FillThreshold)
      && (f.answer.Some? ==> f.answer.value == SyLabels[ArgMaxFirst(Labelled(scores, SyLabels))])
  {
    var selected, best := PickSchoolYear(scores);
    if forall j :: 0 <= j < |scores| ==> scores[j] <= 0.0 {
      if |scores| > 0 {
        var dict := Labelled(scores, SyLabels);
        var k := ArgMaxFirst(dict);
        assert dict[k].score == scores[k];
      }
      assert best == 0.0;
      RoundToFixesGrid(0, 100);
      assert Round2(0.0) == Unscale(0, 100);
    }
    f := Rated(selected, best);
  }

  /** The previous-school result. */
  datatype PreviousSchool = PreviousSchool(schoolId: Field, finalGrades: seq<(string, Field)>, classSize: Field,
                                           schoolYear: Field)

  /** The measured page: six school-id columns, ten final-grade columns, the class-size columns
      and the two school-year option scores. */
  datatype PreviousPage = PreviousPage(schoolId: seq<seq<real>>, grades: seq<seq<real>>, classTens: seq<real>,
                                       classOnes: seq<real>, sy: seq<real>)

  predicate PageShape(p: PreviousPage)
  {
    |p.schoolId| == 6 && (forall c :: 0 <= c < 6 ==> |p.schoolId[c]| == 10)
    && |p.grades| == 10 && (forall k :: 0 <= k < 5 ==> GradeShape(p.grades, k))
    && |p.classTens| == 10 && |p.classOnes| == 10 && |p.sy| == 2
  }

  /** `read_previous_school_info`: the four fields, school id with six digit details. */
  method ReadPreviousSchoolInfo(p: PreviousPage) returns (r: PreviousSchool)
    requires PageShape(p)
    ensures r.schoolId.review <==> r.schoolId.answer.None?
    ensures r.schoolId.answer.Some? ==> |r.schoolId.answer.value| <= 6
    ensures |r.finalGrades| == 5
    ensures forall k :: 0 <= k < 5 ==> r.finalGrades[k].0 == SubjectNames[k]
    ensures r.classSize.answer.Some? ==> |r.classSize.answer.value| == 2
    ensures r.schoolYear.answer.Some? ==> r.schoolYear.answer.value in SyLabels
  {
    var rs := ReadDigitColumns(p.schoolId);
    var schoolId := SchoolIdField(rs);
    var grades := FinalGrades(p.grades);
    var classSize := ClassSize(p.classTens, p.classOnes);
    var sy := SchoolYear(p.sy);
    r := PreviousSchool(schoolId, grades, classSize, sy);
  }
}
