/**
 * The student-information reader: name columns decided by a fill threshold
 * of 0.55 and a dominance gap of 0.07, the birth month, day and year read
 * from single-digit columns, the SSC bubble, and the 4Ps, special-class
 * and gender options. A cell's measurement is its ink ratio, or None when
 * its window falls outside the image and the cell is skipped.
 */
module StudentRead {
  import opened Wrappers
  import opened Numeric
  import opened Text
  import opened Ranking

  const FillThreshold: real := 0.55
  const DominanceGap: real := 0.07

  /** One cell of a column: its key and its ink ratio, None for an empty window. */
  datatype Probe<K> = Probe(key: K, ratio: Option<real>)

  /** The `scores` dict of a column: skipped cells are dropped and the others keep their ratio,
      rounded to three decimals when `round3` holds. */
  function ColumnScores<K>(ps: seq<Probe<K>>, round3: bool): (s: seq<Scored<K>>)
    ensures |s| <= |ps|
    ensures |s| == 0 <==> forall i :: 0 <= i < |ps| ==> ps[i].ratio.None?
  {
    if |ps| == 0 then []
    else
      var t := ColumnScores(ps[1..], round3);
      assert forall i :: 1 <= i < |ps| ==> ps[i] == ps[1..][i - 1];
      match ps[0].ratio
      case None => t
      case Some(r) => [Scored(ps[0].key, if round3 then Round3(r) else r)] + t
  }

  /** The scores of a column are those of its cells taken one at a time, left to right: a skipped
      cell contributes nothing and a measured one its (rounded) ratio under its own key. */
  lemma {:induction false} ColumnScoresConcat<K>(ps: seq<Probe<K>>, qs: seq<Probe<K>>, round3: bool)
    ensures ColumnScores(ps + qs, round3) == ColumnScores(ps, round3) + ColumnScores(qs, round3)
    ensures forall k: K, v: real ::
      ColumnScores([Probe(k, Some(v))], round3) == [Scored(k, if round3 then Round3(v) else v)]
    ensures forall k: K :: ColumnScores([Probe(k, None)], round3) == []
    decreases |ps|
  {
    if |ps| > 0 {
      assert (ps + qs)[1..] == ps[1..] + qs;
      ColumnScoresConcat(ps[1..], qs, round3);
    } else {
      assert ps + qs == qs;
    }
    forall k: K, v: real
      ensures ColumnScores([Probe(k, Some(v))], round3) == [Scored(k, if round3 then Round3(v) else v)]
    {
      assert [Probe(k, Some(v))][1..] == [];
    }
    forall k: K ensures ColumnScores([Probe(k, None)], round3) == [] {
      assert [Probe(k, None)][1..] == [];
    }
  }

  datatype Status = Blank | Single | Multi

  datatype ColumnDetail = ColumnDetail(selected: Option<char>, confidence: real, status: Status,
                                       scores: seq<Scored<char>>)

  /** One name column: the best letter after a stable descending sort, accepted when it reaches
      0.55 and leads the runner-up (0 for a single candidate) by 0.07; a space otherwise. A column
      without any scored cell adds a space and no detail. */
  function NameColumn(scores: seq<Scored<char>>): (r: (char, Option<ColumnDetail>))
    ensures |scores| == 0 <==> r.1.None?
    ensures |scores| == 0 ==> r.0 == ' '
    ensures |scores| > 0 ==>
      var top := MaxScore(scores);
      var best := scores[ArgMaxFirst(scores)].key;
      var d := r.1.value;
      && r.0 == (if top >= FillThreshold && top - SecondOrZero(scores) >= DominanceGap then best else ' ')
      && (d.status == Blank <==> top < FillThreshold)
      && (d.status == Single <==> top >= FillThreshold && top - SecondOrZero(scores) >= DominanceGap)
      && (d.selected == if top >= FillThreshold then Some(best) else None)
      && d.confidence == Round3(top)
      && d.scores == scores
  {
    var sorted := SortDesc(scores);
    if |sorted| == 0 then (' ', None)
    else
      SortDescTop(scores);
      var top := sorted[0];
      var second := if |sorted| > 1 then sorted[1].score else 0.0;
      var selected := if top.score >= FillThreshold then Some(top.key) else None;
      if top.score < FillThreshold then (' ', Some(ColumnDetail(selected, Round3(top.score), Blank, scores)))
      else if top.score - second >= DominanceGap then (top.key, Some(ColumnDetail(selected, Round3(top.score), Single, scores)))
      else (' ', Some(ColumnDetail(selected, Round3(top.score), Multi, scores)))
  }

  /** A column reports a letter exactly when it is decided as a single mark; blank and ambiguous
      columns report a space, and an ambiguous column still names its best letter as selected. */
  lemma {:induction false} NameColumnStatus(scores: seq<Scored<char>>)
    requires |scores| > 0 && scores[ArgMaxFirst(scores)].key != ' '
    ensures NameColumn(scores).0 != ' ' <==> NameColumn(scores).1.value.status == Single
    ensures NameColumn(scores).1.value.status == Multi ==>
      NameColumn(scores).1.value.selected == Some(scores[ArgMaxFirst(scores)].key)
  {
  }

  /** One name column read from its cells: scores rounded to three decimals, skipped cells left
      out, then judged as above; a column whose every window is empty is a space with no detail. */
  function ReadNameColumn(ps: seq<Probe<char>>): (r: (char, Option<ColumnDetail>))
    ensures r.1.None? <==> forall i :: 0 <= i < |ps| ==> ps[i].ratio.None?
    ensures r.1.None? ==> r.0 == ' '
    ensures r.1.Some? ==> r.1.value.scores == ColumnScores(ps, true) && |r.1.value.scores| <= |ps|
  {
    NameColumn(ColumnScores(ps, true))
  }

  /** The characters the columns contribute, in column order. */
  function NameChars(cols: seq<seq<Scored<char>>>): (cs: string)
    ensures |cs| == |cols| && forall i :: 0 <= i < |cols| ==> cs[i] == NameColumn(cols[i]).0
  {
    seq(|cols|, i requires 0 <= i < |cols| => NameColumn(cols[i]).0)
  }

  /** The detail entry of one column, absent exactly for a column without scored cells. */
  function Detail(col: seq<Scored<char>>): (d: Option<ColumnDetail>)
    ensures d.None? <==> |col| == 0
  {
    NameColumn(col).1
  }

  /** The present entries of a list of optional values, each keyed by its position, in order:
      how the reader fills its `detailed` dict only for columns that had a scored cell. */
  function Keyed<T>(xs: seq<Option<T>>, from: nat): (ds: seq<(nat, T)>)
    requires from <= |xs|
    ensures forall k :: 0 <= k < |ds| ==> from <= ds[k].0 < |xs| && xs[ds[k].0] == Some(ds[k].1)
    ensures forall k1, k2 :: 0 <= k1 < k2 < |ds| ==> ds[k1].0 < ds[k2].0
    decreases |xs| - from
  {
    if from == |xs| then []
    else
      var rest := Keyed(xs, from + 1);
      match xs[from]
      case None => rest
      case Some(d) =>
        var ds := [(from, d)] + rest;
        assert forall k :: 1 <= k < |ds| ==> ds[k] == rest[k - 1];
        ds
  }

  /** Every present entry at or after `from` is kept under its own position. */
  lemma {:induction false} KeyedComplete<T>(xs: seq<Option<T>>, from: nat)
    requires from <= |xs|
    ensures forall c :: from <= c < |xs| && xs[c].Some? ==> (c, xs[c].value) in Keyed(xs, from)
    decreases |xs| - from
  {
    if from < |xs| {
      KeyedComplete(xs, from + 1);
      var rest := Keyed(xs, from + 1);
      if xs[from].Some? {
        assert Keyed(xs, from) == [(from, xs[from].value)] + rest;
      }
    }
  }

  function Details(cols: seq<seq<Scored<char>>>): (ds: seq<Option<ColumnDetail>>)
    ensures |ds| == |cols| && forall i :: 0 <= i < |cols| ==> ds[i] == Detail(cols[i])
  {
    seq(|cols|, i requires 0 <= i < |cols| => Detail(cols[i]))
  }

  /** `detect_name_from_grid`: the stripped name and the per-column details. */
  function DetectName(cols: seq<seq<Scored<char>>>): (r: (string, seq<(nat, ColumnDetail)>))
  {
    (Strip(NameChars(cols)), Keyed(Details(cols), 0))
  }

  /** The name is a contiguous run of the column characters: only leading and trailing spaces
      are removed, so a blank column inside the name stays a space, and each kept character is
      the letter or the space its column decided. */
  lemma {:induction false} DetectNameShape(cols: seq<seq<Scored<char>>>)
    ensures exists i, j ::
      0 <= i <= j <= |cols| && DetectName(cols).0 == NameChars(cols)[i..j]
      && (forall k :: 0 <= k < i ==> IsSpace(NameColumn(cols[k]).0))
      && (forall k :: j <= k < |cols| ==> IsSpace(NameColumn(cols[k]).0))
  {
    StripSlice(NameChars(cols));
  }

  /** `read_single_column`: the key of the best cell when it reaches 0.55 and leads the runner-up
      by 0.07, None otherwise (also for a column without scored cells). */
  function ReadSingleColumn(scores: seq<Scored<nat>>): (r: Option<nat>)
    ensures r.Some? <==>
      |scores| > 0 && MaxScore(scores) >= FillThreshold && MaxScore(scores) - SecondOrZero(scores) >= DominanceGap
    ensures r.Some? ==> r.value == scores[ArgMaxFirst(scores)].key
  {
    var sorted := SortDesc(scores);
    if |sorted| == 0 then None
    else
      SortDescTop(scores);
      var top := sorted[0];
      var second := if |sorted| > 1 then sorted[1].score else 0.0;
      if top.score >= FillThreshold && top.score - second >= DominanceGap then Some(top.key) else None
  }

  const MonthRows: seq<string> := ["JAN", "FEB", "MAR", "APR", "MAY", "JUN",
                                   "JUL", "AUG", "SEP", "OCT", "NOV", "DEC"]

  /** The birth month: the name of the month row read from the month column. */
  function ReadMonth(scores: seq<Scored<nat>>): (r: Option<string>)
    requires forall i :: 0 <= i < |scores| ==> scores[i].key < 12
    ensures r.Some? <==> ReadSingleColumn(scores).Some?
    ensures r.Some? ==> r.value == MonthRows[ReadSingleColumn(scores).value] && r.value in MonthRows
  {
    match ReadSingleColumn(scores)
    case None => None
    case Some(k) => Some(MonthRows[k])
  }

  /** The birth day: both digit columns must be read and `10 * tens + ones` must lie in 1..31;
      it is written with two digits. */
  function ReadDay(dayCols: seq<seq<Scored<nat>>>): (r: Option<string>)
    ensures r.Some? <==>
      |dayCols| >= 2 && ReadSingleColumn(dayCols[0]).Some? && ReadSingleColumn(dayCols[1]).Some?
      && 1 <= 10 * ReadSingleColumn(dayCols[0]).value + ReadSingleColumn(dayCols[1]).value <= 31
    ensures r.Some? ==>
      |r.value| == 2
      && ParseNat(r.value) == Some(10 * ReadSingleColumn(dayCols[0]).value + ReadSingleColumn(dayCols[1]).value)
  {
    if |dayCols| < 2 then None
    else
      match (ReadSingleColumn(dayCols[0]), ReadSingleColumn(dayCols[1]))
      case (Some(tens), Some(ones)) =>
        var v := tens * 10 + ones;
        if 1 <= v <= 31 then
          assert v >= 10 ==> NatToString(v) == NatToString(v / 10) + [DigitChar(v % 10)];
          Some(ZeroPad2(v))
        else None
      case _ => None
  }

  /** One year digit: the first cell with the greatest raw ratio, accepted on the threshold alone. */
  function ReadYearColumn(scores: seq<Scored<nat>>): (r: Option<string>)
    ensures r.Some? <==> |scores| > 0 && MaxScore(scores) >= FillThreshold
    ensures r.Some? ==> ParseNat(r.value) == Some(scores[ArgMaxFirst(scores)].key)
  {
    if |scores| == 0 then None
    else
      var best := scores[ArgMaxFirst(scores)];
      ParseNatToString(best.key);
      if best.score >= FillThreshold then Some(NatToString(best.key)) else None
  }

  /** The year rule is the digit rule without the gap: whatever the strict rule reads, the year
      rule reads as the same digit. */
  lemma {:induction false} YearRuleRelaxesGap(scores: seq<Scored<nat>>)
    requires ReadSingleColumn(scores).Some?
    ensures ReadYearColumn(scores) == Some(NatToString(ReadSingleColumn(scores).value))
  {
  }

  /** The birth year: the two digits concatenated, None when either is missing. */
  function ReadYear(yearCols: seq<seq<Scored<nat>>>): (r: Option<string>)
    ensures r.Some? <==> |yearCols| >= 2 && ReadYearColumn(yearCols[0]).Some? && ReadYearColumn(yearCols[1]).Some?
  {
    if |yearCols| < 2 then None
    else
      match (ReadYearColumn(yearCols[0]), ReadYearColumn(yearCols[1]))
      case (Some(a), Some(b)) => Some(a + b)
      case _ => None
  }

  /** With single-digit keys, as the year grid has, the year is a two-digit string whose value is
      ten times the first digit plus the second. */
  lemma {:induction false} YearValue(yearCols: seq<seq<Scored<nat>>>)
    requires ReadYear(yearCols).Some?
    requires forall c, i :: 0 <= c < 2 && 0 <= i < |yearCols[c]| ==> yearCols[c][i].key < 10
    ensures |ReadYear(yearCols).value| == 2
    ensures ParseNat(ReadYear(yearCols).value)
      == Some(10 * yearCols[0][ArgMaxFirst(yearCols[0])].key + yearCols[1][ArgMaxFirst(yearCols[1])].key)
  {
    var a := yearCols[0][ArgMaxFirst(yearCols[0])].key;
    var b := yearCols[1][ArgMaxFirst(yearCols[1])].key;
    assert ReadYearColumn(yearCols[0]) == Some(NatToString(a));
    assert ReadYearColumn(yearCols[1]) == Some(NatToString(b));
    var s := NatToString(a) + NatToString(b);
    assert s == [DigitChar(a), DigitChar(b)];
    assert s[..1] == [DigitChar(a)];
    assert DigitsValue(s) == 10 * DigitsValue(s[..1]) + b;
  }

  predicate Filled(p: Option<real>)
  {
    p.Some? && p.value >= FillThreshold
  }

  /** The SSC bubble: marked iff some scored bubble reaches 0.55. */
  function ReadSsc(ps: seq<Option<real>>): (r: bool)
    ensures r <==> exists i :: 0 <= i < |ps| && Filled(ps[i])
  {
    if |ps| == 0 then false
    else if Filled(ps[0]) then true
    else
      assert forall i :: 1 <= i < |ps| ==> ps[i] == ps[1..][i - 1];
      ReadSsc(ps[1..])
  }

  /** The first filled option in key order, None when no option is filled. */
  function FirstFilled(ps: seq<Option<real>>): (r: Option<nat>)
    ensures r.None? <==> forall i :: 0 <= i < |ps| ==> !Filled(ps[i])
    ensures r.Some? ==> r.value < |ps| && Filled(ps[r.value])
    ensures r.Some? ==> forall j :: 0 <= j < r.value ==> !Filled(ps[j])
  {
    if |ps| == 0 then None
    else if Filled(ps[0]) then Some(0)
    else
      assert forall i :: 1 <= i < |ps| ==> ps[i] == ps[1..][i - 1];
      match FirstFilled(ps[1..])
      case None => None
      case Some(k) => Some(k + 1)
  }

  const FourPsOptions: seq<string> := ["Yes", "No", "I don't know"]
  const SpecialLabels: seq<string> := [
    "Special science class", "Special educational class", "Class under MISOSA",
    "Class in a BRAC", "ALIVE / Madrasah class"]
  const GenderLabels: seq<string> := ["Male", "Female"]

  /** A single-select option group: the label of the first filled option. */
  function FirstLabel(ps: seq<Option<real>>, labels: seq<string>): (r: Option<string>)
    requires |ps| <= |labels|
    ensures r.None? <==> forall i :: 0 <= i < |ps| ==> !Filled(ps[i])
    ensures r.Some? ==>
      exists i :: (0 <= i < |ps| && Filled(ps[i]) && r.value == labels[i]
                   && forall j :: 0 <= j < i ==> !Filled(ps[j]))
  {
    match FirstFilled(ps)
    case None => None
    case Some(i) => Some(labels[i])
  }

  /** The multi-select special classes: the label of every filled option, in key order. */
  function AllLabels(ps: seq<Option<real>>, labels: seq<string>): (r: seq<string>)
    requires |ps| <= |labels|
    ensures |r| <= |ps|
    ensures forall l :: l in r <==> exists i :: 0 <= i < |ps| && Filled(ps[i]) && labels[i] == l
  {
    if |ps| == 0 then []
    else
      var t := AllLabels(ps[1..], labels[1..]);
      assert forall i :: 1 <= i < |ps| ==> ps[i] == ps[1..][i - 1] && labels[i] == labels[1..][i - 1];
      if Filled(ps[0]) then [labels[0]] + t else t
  }

  /** The labels come out option by option in key order: a filled option contributes its own label
      once, an unfilled one nothing. */
  lemma {:induction false} AllLabelsConcat(a: seq<Option<real>>, b: seq<Option<real>>, la: seq<string>, lb: seq<string>)
    requires |a| == |la| && |b| <= |lb|
    ensures AllLabels(a + b, la + lb) == AllLabels(a, la) + AllLabels(b, lb)
    ensures forall p: Option<real>, l: string :: AllLabels([p], [l]) == if Filled(p) then [l] else []
    decreases |a|
  {
    if |a| > 0 {
      assert (a + b)[1..] == a[1..] + b;
      assert (la + lb)[1..] == la[1..] + lb;
      AllLabelsConcat(a[1..], b, la[1..], lb);
    } else {
      assert a + b == b && la + lb == lb;
    }
    forall p: Option<real>, l: string ensures AllLabels([p], [l]) == if Filled(p) then [l] else [] {
      assert [p][1..] == [] && [l][1..] == [];
    }
  }

  datatype Flags = Flags(fourPs: Option<string>, specialClasses: seq<string>, gender: Option<string>)

  /** `read_student_flags` on the measured option groups. */
  function ReadStudentFlags(fourPs: seq<Option<real>>, special: seq<Option<real>>, gender: seq<Option<real>>)
    : (f: Flags)
    requires |fourPs| <= 3 && |special| <= 5 && |gender| <= 2
    ensures f.fourPs.Some? ==> f.fourPs.value in FourPsOptions
    ensures f.gender.Some? ==> f.gender.value in GenderLabels
    ensures forall l :: l in f.specialClasses ==> l in SpecialLabels
    ensures f.fourPs == FirstLabel(fourPs, FourPsOptions) && f.gender == FirstLabel(gender, GenderLabels)
    ensures f.specialClasses == AllLabels(special, SpecialLabels)
  {
    Flags(FirstLabel(fourPs, FourPsOptions), AllLabels(special, SpecialLabels), FirstLabel(gender, GenderLabels))
  }
}
