/**
 * The six-click answer grid: from the clicked centres of Q1A, Q8A, Q9A,
 * Q17A, Q25A and Q33A of a subject, the centres of all 40 questions by 4
 * choices, and the split of the click list into per-subject groups of six.
 */
module AnswerGrid {
  import opened Wrappers
  import opened Numeric
  import opened Geometry

  datatype Cell = Cell(choice: char, at: Point)

  /** One question of the grid and its cells in A..D order. */
  datatype Row = Row(question: nat, cells: seq<Cell>)

  const ColSpacing: int := 48
  const Subjects: seq<string> := ["math", "english", "science", "filipino", "ap"]
  const ClicksPerSubject: nat := 6

  /** `chr(ord('A') + j)`. */
  function ChoiceLabel(j: nat): (c: char)
    requires j < 4
    ensures c == ['A', 'B', 'C', 'D'][j]
  {
    (65 + j) as char
  }

  /** `(q8A.y - q1A.y) / 7`: the pitch of the eight rows of a block. */
  function RowSpacing(q1A: Point, q8A: Point): real
  {
    (q8A.y - q1A.y) as real / 7.0
  }

  /** The layout loop, shared by every copy of the builder: question `8b + i + 1` sits at
      `y = int(q1A.y + i * spacing)` and its choice j at `x = origins[b] + 48 j` (an integer,
      so `int` leaves it unchanged). */
  function Layout(q1A: Point, q8A: Point, origins: seq<int>): (g: seq<Row>)
    requires |origins| == 5
    ensures |g| == 40
    ensures forall k :: 0 <= k < 40 ==> g[k].question == k + 1 && |g[k].cells| == 4
    ensures forall k, j :: 0 <= k < 40 && 0 <= j < 4 ==> g[k].cells[j].choice == ['A', 'B', 'C', 'D'][j]
  {
    var sp := RowSpacing(q1A, q8A);
    seq(40, k requires 0 <= k < 40 =>
      Row(k + 1, seq(4, j requires 0 <= j < 4 =>
        Cell(ChoiceLabel(j), Point(origins[k / 8] + j * ColSpacing, Step(q1A.y as real, sp, k % 8))))))
  }

  /** The block origins `[q1A.x, q9A.x, q17A.x, q25A.x, q33A.x]`. */
  function Origins(clicks: seq<Point>): (o: seq<int>)
    requires |clicks| >= 6
    ensures |o| == 5 && o[0] == clicks[0].x
    ensures forall b :: 1 <= b < 5 ==> o[b] == clicks[b + 1].x
  {
    [clicks[0].x, clicks[2].x, clicks[3].x, clicks[4].x, clicks[5].x]
  }

  /** `build_subject_grid` of the reader and of the fake-sheet generator: the clicks are
      unpacked into exactly six names, so any other count raises. */
  function BuildSubjectGrid(clicks: seq<Point>): (r: Result<seq<Row>>)
    ensures r.Success? <==> |clicks| == 6
    ensures r.Success? ==> |r.value| == 40
  {
    if |clicks| != 6 then Failure("ValueError: expected 6 calibration clicks")
    else Success(Layout(clicks[0], clicks[1], Origins(clicks)))
  }

  /** `build_subject_grid` of the overlay tool: the clicks are read by index 0..5, so fewer than
      six raise and any further clicks are ignored. */
  function OverlayBuildSubjectGrid(clicks: seq<Point>): (r: Result<seq<Row>>)
    ensures r.Success? <==> |clicks| >= 6
    ensures r.Success? ==> |r.value| == 40
  {
    if |clicks| < 6 then Failure("IndexError: fewer than 6 calibration clicks")
    else Success(Layout(clicks[0], clicks[1], Origins(clicks)))
  }

  /** The overlay tool's builder agrees with the reader's on six clicks, and on more clicks it
      is the reader's builder applied to the first six. */
  lemma {:induction false} BuildersAgree(clicks: seq<Point>)
    ensures |clicks| == 6 ==> OverlayBuildSubjectGrid(clicks) == BuildSubjectGrid(clicks)
    ensures |clicks| >= 6 ==> OverlayBuildSubjectGrid(clicks) == BuildSubjectGrid(clicks[..6])
  {
    if |clicks| >= 6 {
      assert Origins(clicks) == Origins(clicks[..6]);
    }
  }

  /** The x of choice j of question q depends only on the origin of q's block and on j. */
  lemma {:induction false} CellX(clicks: seq<Point>, k: nat, j: nat)
    requires |clicks| == 6 && k < 40 && j < 4
    ensures BuildSubjectGrid(clicks).value[k].cells[j].at.x == Origins(clicks)[k / 8] + 48 * j
  {
  }

  /** The y of question q depends only on its row `(q - 1) mod 8` in the block: Q1, Q9, Q17, Q25
      and Q33 share a y, as do all four choices of a question. */
  lemma {:induction false} CellYSharedAcrossBlocks(clicks: seq<Point>, k1: nat, j1: nat, k2: nat, j2: nat)
    requires |clicks| == 6 && k1 < 40 && k2 < 40 && j1 < 4 && j2 < 4 && k1 % 8 == k2 % 8
    ensures BuildSubjectGrid(clicks).value[k1].cells[j1].at.y == BuildSubjectGrid(clicks).value[k2].cells[j2].at.y
  {
  }

  /** Row 0 of every block lies at Q1A's y and row 7 at Q8A's y, and rows never go up the page
      when Q8A is below Q1A. */
  lemma {:induction false} CellYEnds(clicks: seq<Point>, k: nat, j: nat)
    requires |clicks| == 6 && k < 40 && j < 4
    ensures k % 8 == 0 ==> BuildSubjectGrid(clicks).value[k].cells[j].at.y == clicks[0].y
    ensures k % 8 == 7 ==> BuildSubjectGrid(clicks).value[k].cells[j].at.y == clicks[1].y
    ensures clicks[1].y >= clicks[0].y && k % 8 < 7 ==>
      BuildSubjectGrid(clicks).value[k].cells[j].at.y <= BuildSubjectGrid(clicks).value[k + 1].cells[j].at.y
  {
    StepEnds(clicks[0].y, clicks[1].y, 8);
    assert RowSpacing(clicks[0], clicks[1]) == (clicks[1].y - clicks[0].y) as real / (8 - 1) as real;
    if clicks[1].y >= clicks[0].y && k % 8 < 7 {
      StepMonotone(clicks[0].y as real, RowSpacing(clicks[0], clicks[1]), k % 8, (k + 1) % 8);
    }
  }

  /** `clicks[i*6:(i+1)*6]`: the six clicks of subject i. */
  function SubjectClicks(clicks: seq<Point>, i: nat): (s: seq<Point>)
    requires (i + 1) * ClicksPerSubject <= |clicks|
    ensures |s| == 6
    ensures forall t :: 0 <= t < 6 ==> s[t] == clicks[6 * i + t]
  {
    clicks[i * ClicksPerSubject..(i + 1) * ClicksPerSubject]
  }

  /** The per-subject grids of the reader and the overlay tool: `len(clicks) // 6` subjects,
      named in order, failing when there are more groups of six than subject names. */
  function SubjectGrids(clicks: seq<Point>): (r: Result<seq<(string, seq<Row>)>>)
    ensures r.Success? <==> |clicks| / 6 <= |Subjects|
    ensures r.Success? ==> |r.value| == |clicks| / 6
    ensures r.Success? ==> forall i :: 0 <= i < |r.value| ==>
      r.value[i].0 == Subjects[i] && BuildSubjectGrid(SubjectClicks(clicks, i)) == Success(r.value[i].1)
  {
    var count := |clicks| / ClicksPerSubject;
    if count > |Subjects| then Failure("IndexError: more click groups than subjects")
    else
      Success(seq(count, i requires 0 <= i < count =>
        (Subjects[i], Layout(SubjectClicks(clicks, i)[0], SubjectClicks(clicks, i)[1], Origins(SubjectClicks(clicks, i))))))
  }

  /** The thirty clicks of the shipped configuration give five subjects. */
  lemma {:induction false} ThirtyClicksFiveSubjects(clicks: seq<Point>)
    requires |clicks| == 30
    ensures SubjectGrids(clicks).Success? && |SubjectGrids(clicks).value| == 5
  {
  }

  /** The overlay tool's grids coincide with the reader's: each subject's slice has exactly six
      clicks, so the two builders agree on it. */
  lemma {:induction false} OverlayGridsAgree(clicks: seq<Point>, i: nat)
    requires (i + 1) * 6 <= |clicks|
    ensures OverlayBuildSubjectGrid(SubjectClicks(clicks, i)) == BuildSubjectGrid(SubjectClicks(clicks, i))
    ensures BuildSubjectGrid(SubjectClicks(clicks, i)).Success?
  {
    BuildersAgree(SubjectClicks(clicks, i));
  }
}
