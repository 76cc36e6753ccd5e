/**
 * The six-click answer reader: every cell of every subject grid is scored
 * by the ink ratio of a 32 by 24 window around it; a choice is marked
 * above 0.20, the strongest marked choice is the answer, and a question is
 * sent to review when nothing is marked, when the runner-up is within
 * 0.07 of the answer, or when the answer's ratio is below 0.60.
 */
module AnswerDetect {
  import opened Wrappers
  import opened Numeric
  import opened Text
  import opened Ranking
  import opened Bitmap
  import opened Geometry
  import opened AnswerGrid

  const RoiWidth: int := 32
  const RoiHeight: int := 24
  const FillThreshold: real := 0.20
  const DominanceGap: real := 0.07
  const ReviewThreshold: real := 0.60

  /** The window `thresh[y-12:y+12, x-16:x+16]` and its raw ink ratio, 0 for an empty window. */
  function BubbleRatio(m: Mask, x: int, y: int): (r: real)
    requires m.Valid()
    ensures 0.0 <= r <= 1.0
  {
    Ratio(m, PySlice(y - RoiHeight / 2, y + RoiHeight / 2, m.Height()),
             PySlice(x - RoiWidth / 2, x + RoiWidth / 2, m.width))
  }

  /** Away from the image edges the window is the full 24 by 32 box. */
  lemma {:induction false} BubbleRatioInterior(m: Mask, x: int, y: int)
    requires m.Valid()
    requires 0 <= x - 16 && x + 16 <= m.width && 0 <= y - 12 && y + 12 <= m.Height()
    ensures BubbleRatio(m, x, y) == Count(m, Span(y - 12, y + 12), Span(x - 16, x + 16)) as real / 768.0
  {
    var rs := PySlice(y - 12, y + 12, m.Height());
    var cs := PySlice(x - 16, x + 16, m.width);
    assert rs == Span(y - 12, y + 12) && rs.Len() == 24;
    assert cs == Span(x - 16, x + 16) && cs.Len() == 32;
    assert Ratio(m, rs, cs) == Count(m, rs, cs) as real / 768.0;
  }

  /** The marked choices: those whose raw ratio exceeds 0.20, in the order of the grid. */
  function Marked<K(!new)>(xs: seq<Scored<K>>): (r: seq<Scored<K>>)
    ensures |r| <= |xs|
  {
    if |xs| == 0 then []
    else
      var t := Marked(xs[1..]);
      if xs[0].score > FillThreshold then [xs[0]] + t else t
  }

  /** The marked choices are exactly the choices whose ratio exceeds the threshold. */
  lemma {:induction false} MarkedMembers<K(!new)>(xs: seq<Scored<K>>)
    ensures forall x :: x in Marked(xs) <==> x in xs && x.score > FillThreshold
  {
    if |xs| > 0 {
      MarkedMembers(xs[1..]);
      assert xs == [xs[0]] + xs[1..];
    }
  }

  datatype Decision<K> = Decision(answer: Option<K>, confidence: real, review: bool)

  /** One question's decision from the raw ratios of its choices: the marked choices sorted by
      raw ratio, descending and stably; none marked gives no answer, confidence 0 and review;
      otherwise the head is the answer with its ratio rounded to two decimals. */
  function Decide<K(==,!new)>(raw: seq<Scored<K>>): (d: Decision<K>)
    ensures d.answer.None? <==> forall i :: 0 <= i < |raw| ==> raw[i].score <= FillThreshold
    ensures d.answer.None? ==> d.confidence == 0.0 && d.review
    ensures d.answer.Some? ==> d.answer.value in Keys(raw)
  {
    var marked := SortDesc(Marked(raw));
    MarkedMembers(raw);
    if |marked| == 0 then
      assert forall i :: 0 <= i < |raw| ==> raw[i].score <= FillThreshold by {
        forall i | 0 <= i < |raw|
          ensures raw[i].score <= FillThreshold
        {
          assert raw[i] in raw;
        }
      }
      Decision(None, 0.0, true)
    else
      var top := marked[0];
      assert top in multiset(Marked(raw));
      var review :=
        if |marked| > 1 then
          if top.score - marked[1].score < DominanceGap then true else top.score < ReviewThreshold
        else top.score < ReviewThreshold;
      assert top in raw;
      Decision(Some(top.key), Round2(top.score), review)
  }

  /** Filtering the marked choices out of a list inserted into keeps the insertion: the threshold
      is a score bound, so it cuts a descending list into a marked head and an unmarked tail. */
  lemma {:induction false} MarkedInsert<K(!new)>(x: Scored<K>, s: seq<Scored<K>>)
    requires SortedDesc(s)
    ensures SortedDesc(Marked(s))
    ensures Marked(InsertDesc(x, s)) == if x.score > FillThreshold then InsertDesc(x, Marked(s)) else Marked(s)
  {
    MarkedOfSorted(s);
    if |s| == 0 || x.score >= s[0].score {
      assert InsertDesc(x, s) == [x] + s;
      assert ([x] + s)[1..] == s;
      if x.score > FillThreshold && |Marked(s)| > 0 {
        assert Marked(s)[0] == s[0];
      }
    } else {
      var s1 := s[1..];
      SortedTail(s);
      MarkedInsert(x, s1);
      var ins := InsertDesc(x, s1);
      assert InsertDesc(x, s) == [s[0]] + ins;
      assert ([s[0]] + ins)[1..] == ins;
      if s[0].score > FillThreshold {
        assert Marked(s) == [s[0]] + Marked(s1);
        if x.score > FillThreshold {
          assert ([s[0]] + Marked(s1))[1..] == Marked(s1);
        }
      } else {
        assert Marked(s) == Marked(s1);
      }
    }
  }

  /** In a descending list the marked choices are exactly a prefix: position i is marked iff
      it lies before the count of marked choices. */
  lemma {:induction false} MarkedOfSorted<K(!new)>(s: seq<Scored<K>>)
    requires SortedDesc(s)
    ensures SortedDesc(Marked(s))
    ensures Marked(s) == s[..|Marked(s)|]
    ensures forall i :: 0 <= i < |s| ==> (s[i].score > FillThreshold <==> i < |Marked(s)|)
  {
    MarkedPrefix(s);
    MarkedPositions(s);
  }

  lemma {:induction false} MarkedPrefix<K(!new)>(s: seq<Scored<K>>)
    requires SortedDesc(s)
    ensures Marked(s) == s[..|Marked(s)|]
  {
    if |s| > 0 {
      if s[0].score > FillThreshold {
        var t := s[1..];
        SortedTail(s);
        MarkedPrefix(t);
        var mt := Marked(t);
        assert Marked(s) == [s[0]] + mt;
        assert s[..|mt| + 1] == [s[0]] + t[..|mt|];
      } else {
        MarkedPositions(s);
        assert |Marked(s)| == 0;
      }
    }
  }

  lemma {:induction false} MarkedPositions<K(!new)>(s: seq<Scored<K>>)
    requires SortedDesc(s)
    ensures forall i :: 0 <= i < |s| ==> (s[i].score > FillThreshold <==> i < |Marked(s)|)
  {
    if |s| > 0 {
      var t := s[1..];
      SortedTail(s);
      MarkedPositions(t);
      if s[0].score > FillThreshold {
        assert |Marked(s)| == 1 + |Marked(t)|;
        forall i | 1 <= i < |s|
          ensures s[i].score > FillThreshold <==> i < |Marked(s)|
        {
          assert t[i - 1] == s[i];
        }
      } else {
        assert Marked(s) == Marked(t);
        if |t| > 0 {
          assert t[0].score <= FillThreshold;
        }
      }
    }
  }

  /** Sorting the marked choices is marking the sorted choices. */
  lemma {:induction false} SortMarkedCommute<K(!new)>(xs: seq<Scored<K>>)
    ensures SortDesc(Marked(xs)) == Marked(SortDesc(xs))
  {
    if |xs| > 0 {
      var t := xs[1..];
      SortMarkedCommute(t);
      MarkedInsert(xs[0], SortDesc(t));
      if xs[0].score > FillThreshold {
        assert Marked(xs) == [xs[0]] + Marked(t);
        assert ([xs[0]] + Marked(t))[1..] == Marked(t);
      } else {
        assert Marked(xs) == Marked(t);
      }
    }
  }

  /** The decision against an independent description in terms of the raw ratios alone: there is
      an answer iff the best ratio exceeds 0.20; the answer is the first choice with the best
      ratio and its confidence is that ratio rounded; review is required iff the best ratio is
      below 0.60 or a second choice is also marked and within 0.07 of it. */
  lemma {:induction false} DecideByRanking<K(!new)>(raw: seq<Scored<K>>)
    requires |raw| > 0
    ensures Decide(raw).answer.Some? <==> MaxScore(raw) > FillThreshold
    ensures Decide(raw).answer.Some? ==>
      Decide(raw).answer.value == raw[ArgMaxFirst(raw)].key && Decide(raw).confidence == Round2(MaxScore(raw))
    ensures |raw| == 1 && Decide(raw).answer.Some? ==> (Decide(raw).review <==> MaxScore(raw) < ReviewThreshold)
    ensures |raw| >= 2 && Decide(raw).answer.Some? ==>
      (Decide(raw).review <==>
        MaxScore(raw) < ReviewThreshold
        || (SecondScore(raw) > FillThreshold && MaxScore(raw) - SecondScore(raw) < DominanceGap))
  {
    var s := SortDesc(raw);
    SortMarkedCommute(raw);
    MarkedOfSorted(s);
    var marked := SortDesc(Marked(raw));
    assert marked == s[..|Marked(s)|];
    if |raw| >= 2 {
      SortDescPositions(raw);
    } else {
      SortDescHead(raw);
    }
    if Decide(raw).answer.None? {
      var k := ArgMaxFirst(raw);
      assert raw[k].score <= FillThreshold;
    } else {
      assert |marked| > 0;
      assert marked[0] == s[0];
      if |raw| >= 2 {
        assert |marked| > 1 <==> s[1].score > FillThreshold;
        if |marked| > 1 {
          assert marked[1] == s[1];
        }
      }
    }
  }

  /** A question's entry: the answer, its confidence rounded again, the review flag and every
      choice's ratio rounded to two decimals. */
  datatype Entry = Entry(answer: Option<char>, confidence: real, review: bool, scores: seq<Scored<char>>)

  /** The raw ratio of every cell of a grid row, in A..D order. */
  function RawScores(m: Mask, row: Row): (raw: seq<Scored<char>>)
    requires m.Valid()
    ensures |raw| == |row.cells|
    ensures forall j :: 0 <= j < |raw| ==>
      raw[j].key == row.cells[j].choice && 0.0 <= raw[j].score <= 1.0
  {
    seq(|row.cells|, j requires 0 <= j < |row.cells| =>
      Scored(row.cells[j].choice, BubbleRatio(m, row.cells[j].at.x, row.cells[j].at.y)))
  }

  function RoundScores(raw: seq<Scored<char>>): (r: seq<Scored<char>>)
    ensures |r| == |raw|
    ensures forall j :: 0 <= j < |r| ==> r[j] == Scored(raw[j].key, Round2(raw[j].score))
  {
    seq(|raw|, j requires 0 <= j < |raw| => Scored(raw[j].key, Round2(raw[j].score)))
  }

  function ReadQuestion(m: Mask, row: Row): (e: Entry)
    requires m.Valid()
  {
    var raw := RawScores(m, row);
    var d := Decide(raw);
    Entry(d.answer, Round2(d.confidence), d.review, RoundScores(raw))
  }

  /** Rounding the confidence a second time changes nothing, and it stays a ratio in [0, 1]; the
      reported scores are the rounded ratios of the cells. */
  lemma {:induction false} ReadQuestionEntry(m: Mask, row: Row)
    requires m.Valid()
    ensures ReadQuestion(m, row).confidence == Decide(RawScores(m, row)).confidence
    ensures 0.0 <= ReadQuestion(m, row).confidence <= 1.0
    ensures forall j :: 0 <= j < |row.cells| ==>
      ReadQuestion(m, row).scores[j].key == row.cells[j].choice
      && 0.0 <= ReadQuestion(m, row).scores[j].score <= 1.0
  {
    var raw := RawScores(m, row);
    var d := Decide(raw);
    if d.answer.None? {
      RoundToFixesGrid(0, 100);
      assert Unscale(0, 100) == 0.0;
    } else {
      DecideByRanking(raw);
      var top := MaxScore(raw);
      var k :| 0 <= k < |raw| && raw[k].score == top;
      RoundToIdempotent(top, 100);
      RoundToUnit(top, 100);
    }
    forall j | 0 <= j < |row.cells|
      ensures 0.0 <= ReadQuestion(m, row).scores[j].score <= 1.0
    {
      RoundToUnit(raw[j].score, 100);
    }
  }

  /** A subject's answers keyed by `str(q)` in question order. */
  function ReadGrid(m: Mask, grid: seq<Row>): (r: seq<(string, Entry)>)
    requires m.Valid()
    ensures |r| == |grid|
    ensures forall k :: 0 <= k < |grid| ==> r[k] == (NatToString(grid[k].question), ReadQuestion(m, grid[k]))
  {
    seq(|grid|, k requires 0 <= k < |grid| => (NatToString(grid[k].question), ReadQuestion(m, grid[k])))
  }

  /** `detect_answers` on a thresholded page: one answer table per calibrated subject. */
  function DetectAnswers(m: Mask, clicks: seq<Point>): (r: Result<seq<(string, seq<(string, Entry)>)>>)
    requires m.Valid()
    ensures r.Success? <==> |clicks| / 6 <= |Subjects|
    ensures r.Success? ==> |r.value| == |clicks| / 6
    ensures r.Success? ==> forall i :: 0 <= i < |r.value| ==>
      r.value[i].0 == Subjects[i] && |r.value[i].1| == 40
  {
    var grids :- SubjectGrids(clicks);
    Success(seq(|grids|, i requires 0 <= i < |grids| => (grids[i].0, ReadGrid(m, grids[i].1))))
  }

  /** Entry k of subject i answers question k + 1: it is keyed `str(k + 1)`, no other entry of the
      subject has that key, and it is the decision on that question's cells of the subject's own
      six-click grid. */
  lemma {:induction false} DetectAnswersEntry(m: Mask, clicks: seq<Point>, i: nat, k: nat, k2: nat)
    requires m.Valid() && |clicks| / 6 <= |Subjects|
    requires i < |clicks| / 6 && k < 40 && k2 < 40
    ensures DetectAnswers(m, clicks).value[i].1[k].0 == NatToString(k + 1)
    ensures k2 != k ==> DetectAnswers(m, clicks).value[i].1[k2].0 != NatToString(k + 1)
    ensures DetectAnswers(m, clicks).value[i].1[k].1
      == ReadQuestion(m, BuildSubjectGrid(SubjectClicks(clicks, i)).value[k])
  {
    var grid := SubjectGrids(clicks).value[i].1;
    assert BuildSubjectGrid(SubjectClicks(clicks, i)) == Success(grid);
    if k2 != k && NatToString(k2 + 1) == NatToString(k + 1) {
      NatToStringInjective(k2 + 1, k + 1);
    }
  }
}
