/**
 * The answer-sheet service of the web backend, without its database:
 * listing parameters and their defaults, the offset and page-count
 * arithmetic, the column a sort request maps to, the page window the
 * query returns, and the detail view's grouping of a scan's answers by
 * subject with a per-subject score.
 */
module AnswerSheet {
  import opened Wrappers
  import opened Text

  /** The listing request; a missing field is `undefined` and takes its default. */
  datatype ListParams = ListParams(page: Option<int>, limit: Option<int>, keyword: Option<string>,
                                   sortBy: Option<string>, sortOrder: Option<string>)

  datatype Effective = Effective(page: int, limit: int, keyword: Option<string>, sortBy: string, sortOrder: string)

  /** The destructuring defaults: page 1, limit 20, sort by "created_at", order "desc". */
  function WithDefaults(p: ListParams): (e: Effective)
    ensures e.page == p.page.GetOr(1) && e.limit == p.limit.GetOr(20)
    ensures e.sortBy == p.sortBy.GetOr("created_at") && e.sortOrder == p.sortOrder.GetOr("desc")
    ensures p == ListParams(None, None, None, None, None) ==> e == Effective(1, 20, None, "created_at", "desc")
  {
    Effective(p.page.GetOr(1), p.limit.GetOr(20), p.keyword, p.sortBy.GetOr("created_at"), p.sortOrder.GetOr("desc"))
  }

  /** `(page - 1) * limit`: the number of rows before the page. */
  function Offset(page: int, limit: int): (o: int)
    ensures page >= 1 && limit >= 0 ==> o >= 0
    ensures o + limit == page * limit
  {
    (page - 1) * limit
  }

  datatype Direction = Asc | Desc

  /** `sortOrder.toLowerCase() === 'asc' ? 'asc' : 'desc'`. */
  function OrderDirection(sortOrder: string): (d: Direction)
    ensures d == Asc <==> Lower(sortOrder) == "asc"
  {
    if Lower(sortOrder) == "asc" then Asc else Desc
  }

  /** Any capitalisation of "asc" sorts ascending; everything else, unknown words included,
      descending. */
  lemma {:induction false} OrderDirectionCases()
    ensures OrderDirection("ASC") == Asc && OrderDirection("Asc") == Asc && OrderDirection("asc") == Asc
    ensures OrderDirection("desc") == Desc && OrderDirection("up") == Desc && OrderDirection("") == Desc
  {
    assert Lower("ASC") == "asc";
    assert Lower("Asc") == "asc";
    assert Lower("asc") == "asc";
    assert Lower("desc")[0] == 'd';
    assert Lower("up")[0] == 'u';
  }

  datatype Column = LastName | FirstName | SchoolId | CreatedAt

  /** The ORDER BY columns of a sort request: "name" sorts by last then first name, "school" by
      the school id, anything else by creation time; all in the one direction. */
  function SortColumns(sortBy: string, sortOrder: string): (cs: seq<(Column, Direction)>)
    ensures |cs| >= 1 && forall k :: 0 <= k < |cs| ==> cs[k].1 == OrderDirection(sortOrder)
    ensures sortBy == "name" ==> |cs| == 2 && cs[0].0 == LastName && cs[1].0 == FirstName
    ensures sortBy == "school" ==> |cs| == 1 && cs[0].0 == SchoolId
    ensures sortBy != "name" && sortBy != "school" ==> |cs| == 1 && cs[0].0 == CreatedAt
  {
    var d := OrderDirection(sortOrder);
    if sortBy == "name" then [(LastName, d), (FirstName, d)]
    else if sortBy == "school" then [(SchoolId, d)]
    else [(CreatedAt, d)]
  }

  /** JavaScript `Math.ceil` on a real. */
  function Ceil(x: real): (c: int)
    ensures c as real - 1.0 < x <= c as real
  {
    if x == x.Floor as real then x.Floor else x.Floor + 1
  }

  /** `Math.ceil(total / limit)`. */
  function TotalPages(total: nat, limit: int): (n: int)
    requires limit >= 1
    ensures n >= 0
    ensures total == 0 <==> n == 0
    ensures total > 0 ==> (n - 1) * limit < total <= n * limit
  {
    var n := Ceil(total as real / limit as real);
    CeilDivBounds(total, limit, n);
    n
  }

  /** The ceiling n of total / limit brackets total between n - 1 and n whole pages. */
  lemma {:induction false} CeilDivBounds(total: nat, limit: int, n: int)
    requires limit >= 1
    requires n as real - 1.0 < total as real / limit as real <= n as real
    ensures n >= 0 && (total == 0 <==> n == 0)
    ensures total > 0 ==> (n - 1) * limit < total <= n * limit
  {
    var q := total as real / limit as real;
    var l := limit as real;
    assert q * l == total as real;
    assert n >= 0 && (total == 0 <==> n == 0) by {
      assert total == 0 <==> q == 0.0;
    }
    if total > 0 {
      assert (n - 1) * limit < total by {
        MulStrict(n as real - 1.0, q, l);
        CastMul(n - 1, limit);
      }
      assert total <= n * limit by {
        MulWeak(q, n as real, l);
        CastMul(n, limit);
      }
    }
  }

  lemma {:induction false} CastMul(a: int, b: int)
    ensures (a * b) as real == a as real * b as real
  {
  }

  lemma {:induction false} MulStrict(a: real, b: real, c: real)
    requires a < b && c > 0.0
    ensures a * c < b * c
  {
  }

  lemma {:induction false} MulWeak(a: real, b: real, c: real)
    requires a <= b && c > 0.0
    ensures a * c <= b * c
  {
  }

  /** `LIMIT limit OFFSET offset` over the sorted, filtered rows. */
  function Window<T>(rows: seq<T>, page: int, limit: int): (w: seq<T>)
    requires page >= 1 && limit >= 1
    ensures |w| <= limit
    ensures Offset(page, limit) >= |rows| ==> w == []
    ensures Offset(page, limit) < |rows| ==> w == rows[Offset(page, limit)..if Offset(page, limit) + limit <= |rows| then Offset(page, limit) + limit else |rows|]
  {
    var o := Offset(page, limit);
    if o >= |rows| then [] else rows[o..if o + limit <= |rows| then o + limit else |rows|]
  }

  /** Pages 1..n, read in order, give back every row exactly once: the windows of the first n
      pages are the first n * limit rows. */
  lemma {:induction false} WindowsConcatenate<T>(rows: seq<T>, limit: int, n: nat)
    requires limit >= 1
    ensures Pages(rows, limit, n) == rows[..Clip(n * limit, |rows|)]
  {
    if n > 0 {
      WindowsConcatenate(rows, limit, n - 1);
      WindowIsSlice(rows, n, limit);
      PrefixSplit(rows, Clip((n - 1) * limit, |rows|), Clip(n * limit, |rows|));
    }
  }

  lemma {:induction false} PrefixSplit<T>(rows: seq<T>, before: nat, after: nat)
    requires before <= after <= |rows|
    ensures rows[..after] == rows[..before] + rows[before..after]
  {
  }

  /** `i` cut down to a sequence length `len`. */
  function Clip(i: nat, len: nat): (c: nat)
    ensures c <= len && c <= i && (c == i || c == len)
  {
    if i <= len then i else len
  }

  /** Page n holds the rows from (n - 1) * limit up to n * limit, both cut to the row count. */
  lemma {:induction false} WindowIsSlice<T>(rows: seq<T>, n: nat, limit: int)
    requires n >= 1 && limit >= 1
    ensures (n - 1) * limit <= n * limit
    ensures Window(rows, n, limit) == rows[Clip((n - 1) * limit, |rows|)..Clip(n * limit, |rows|)]
  {
    assert n * limit == (n - 1) * limit + limit;
  }

  function Pages<T>(rows: seq<T>, limit: int, n: nat): seq<T>
    requires limit >= 1
  {
    if n == 0 then [] else Pages(rows, limit, n - 1) + Window(rows, n, limit)
  }

  /** Every row of a listing of `total` rows lies on one of the `TotalPages` pages. */
  lemma {:induction false} AllPagesCoverRows<T>(rows: seq<T>, limit: int)
    requires limit >= 1
    ensures Pages(rows, limit, TotalPages(|rows|, limit)) == rows
  {
    WindowsConcatenate(rows, limit, TotalPages(|rows|, limit));
  }

  /** A `student_answer` row as the detail view reads it; `isCorrect` is nullable. */
  datatype Answer = Answer(subject: string, questionNumber: int, answer: Option<string>, isCorrect: Option<bool>)

  /** The subjects in order of first appearance. This is the key order of the grouped object only
      for names that are not integer-like (a JavaScript object lists those first, ascending);
      the subjects the answer reader writes are five lowercase words. */
  function SubjectsOf(xs: seq<Answer>): (ss: seq<string>)
    ensures forall a, b :: 0 <= a < b < |ss| ==> ss[a] != ss[b]
  {
    if |xs| == 0 then []
    else
      var init := SubjectsOf(xs[..|xs| - 1]);
      if xs[|xs| - 1].subject in init then init else init + [xs[|xs| - 1].subject]
  }

  /** Every answer's subject is a key. */
  lemma {:induction false} SubjectsCover(xs: seq<Answer>)
    ensures forall a :: a in xs ==> a.subject in SubjectsOf(xs)
  {
    if |xs| > 0 {
      SubjectsCover(xs[..|xs| - 1]);
      assert xs == xs[..|xs| - 1] + [xs[|xs| - 1]];
    }
  }

  /** Every key is the subject of some answer. */
  lemma {:induction false} SubjectsAreAnswered(xs: seq<Answer>, s: string)
    requires s in SubjectsOf(xs)
    ensures exists a :: a in xs && a.subject == s
  {
    var init := xs[..|xs| - 1];
    var x := xs[|xs| - 1];
    if s in SubjectsOf(init) {
      SubjectsAreAnswered(init, s);
      var a :| a in init && a.subject == s;
      assert a in xs;
    } else {
      assert x in xs && x.subject == s;
    }
  }

  lemma {:induction false} SubjectsOfAppend(pre: seq<Answer>, x: Answer)
    ensures SubjectsOf(pre + [x]) == if x.subject in SubjectsOf(pre) then SubjectsOf(pre) else SubjectsOf(pre) + [x.subject]
  {
    assert (pre + [x])[..|pre|] == pre;
  }

  lemma {:induction false} OfSubjectAppend(pre: seq<Answer>, x: Answer, s: string)
    ensures OfSubject(pre + [x], s) == if x.subject == s then OfSubject(pre, s) + [x] else OfSubject(pre, s)
  {
    assert (pre + [x])[..|pre|] == pre;
  }

  lemma {:induction false} CorrectCountAppend(pre: seq<Answer>, x: Answer)
    ensures CorrectCount(pre + [x]) == CorrectCount(pre) + (if x.isCorrect == Some(true) then 1 else 0)
  {
    assert (pre + [x])[..|pre|] == pre;
  }

  /** The answers of one subject, in their original order. */
  function OfSubject(xs: seq<Answer>, s: string): (r: seq<Answer>)
    ensures |r| <= |xs|
  {
    if |xs| == 0 then []
    else
      var init := OfSubject(xs[..|xs| - 1], s);
      if xs[|xs| - 1].subject == s then init + [xs[|xs| - 1]] else init
  }

  /** A subject's answers are exactly the answers carrying that subject. */
  lemma {:induction false} OfSubjectMembers(xs: seq<Answer>, s: string)
    ensures forall a :: a in OfSubject(xs, s) <==> a in xs && a.subject == s
  {
    if |xs| > 0 {
      OfSubjectMembers(xs[..|xs| - 1], s);
      assert xs == xs[..|xs| - 1] + [xs[|xs| - 1]];
    }
  }

  /** The number of answers with `isCorrect === true`. */
  function CorrectCount(xs: seq<Answer>): (n: nat)
    ensures n <= |xs|
  {
    if |xs| == 0 then 0
    else CorrectCount(xs[..|xs| - 1]) + (if xs[|xs| - 1].isCorrect == Some(true) then 1 else 0)
  }

  datatype Group = Group(score: nat, answers: seq<Answer>)

  /** The reference grouping: for each subject, its answers and their correct count. */
  function GroupOf(xs: seq<Answer>, s: string): Group
  {
    Group(CorrectCount(OfSubject(xs, s)), OfSubject(xs, s))
  }

  /** The grouping loop of `getAnswerSheetById`: the first answer of a subject opens its group with
      score 0, each answer is appended to its subject's group, and a correct one adds 1 to the
      score. */
  method GroupAnswers(xs: seq<Answer>) returns (keys: seq<string>, groups: seq<Group>)
    ensures keys == SubjectsOf(xs) && |groups| == |keys|
    ensures forall k :: 0 <= k < |keys| ==> groups[k] == GroupOf(xs, keys[k])
    ensures forall k :: 0 <= k < |keys| ==> groups[k].score <= |groups[k].answers|
  {
    keys := [];
    groups := [];
    var i := 0;
    while i < |xs|
      invariant 0 <= i <= |xs|
      invariant keys == SubjectsOf(xs[..i]) && |groups| == |keys|
      invariant forall k :: 0 <= k < |keys| ==> groups[k] == GroupOf(xs[..i], keys[k])
    {
      assert xs[..i + 1] == xs[..i] + [xs[i]];
      keys, groups := AddAnswer(xs[..i], keys, groups, xs[i]);
      i := i + 1;
    }
    assert xs[..i] == xs;
    forall k | 0 <= k < |keys| ensures groups[k].score <= |groups[k].answers| {
      assert groups[k].score == CorrectCount(groups[k].answers);
    }
  }

  /** One answer into the grouping: open the subject's group with score 0 if it is new, append
      the answer, and count it when it is correct. */
  method AddAnswer(ghost pre: seq<Answer>, keys: seq<string>, groups: seq<Group>, x: Answer)
    returns (keys': seq<string>, groups': seq<Group>)
    requires keys == SubjectsOf(pre) && |groups| == |keys|
    requires forall m :: 0 <= m < |keys| ==> groups[m] == GroupOf(pre, keys[m])
    ensures keys' == SubjectsOf(pre + [x]) && |groups'| == |keys'|
    ensures forall m :: 0 <= m < |keys'| ==> groups'[m] == GroupOf(pre + [x], keys'[m])
  {
    var k := 0;
    while k < |keys| && keys[k] != x.subject
      invariant 0 <= k <= |keys|
      invariant forall m :: 0 <= m < k ==> keys[m] != x.subject
    {
      k := k + 1;
    }
    keys', groups' := keys, groups;
    if k == |keys| {
      keys' := keys + [x.subject];
      groups' := groups + [Group(0, [])];
    }
    var g := groups'[k];
    groups' := groups'[k := Group(g.score + (if x.isCorrect == Some(true) then 1 else 0), g.answers + [x])];
    GroupStep(pre, x, keys, groups, k, keys', groups');
  }

  /** One turn of the grouping loop keeps the groups equal to the reference grouping. */
  lemma {:induction false} GroupStep(pre: seq<Answer>, x: Answer, keys: seq<string>, groups: seq<Group>, k: nat,
                  keys': seq<string>, groups': seq<Group>)
    requires keys == SubjectsOf(pre) && |groups| == |keys|
    requires forall m :: 0 <= m < |keys| ==> groups[m] == GroupOf(pre, keys[m])
    requires k <= |keys| && (forall m :: 0 <= m < k ==> keys[m] != x.subject) && (k < |keys| ==> keys[k] == x.subject)
    requires keys' == if k == |keys| then keys + [x.subject] else keys
    requires var g := if k == |keys| then Group(0, []) else groups[k];
      var grown := if k == |keys| then groups + [g] else groups;
      groups' == grown[k := Group(g.score + (if x.isCorrect == Some(true) then 1 else 0), g.answers + [x])]
    ensures keys' == SubjectsOf(pre + [x]) && |groups'| == |keys'|
    ensures forall m :: 0 <= m < |keys'| ==> groups'[m] == GroupOf(pre + [x], keys'[m])
  {
    SubjectsOfAppend(pre, x);
    OfSubjectAppend(pre, x, x.subject);
    CorrectCountAppend(OfSubject(pre, x.subject), x);
    if k == |keys| {
      assert x.subject !in keys;
      NotYetSeen(pre, x.subject);
    } else {
      assert x.subject in keys;
    }
    forall m | 0 <= m < |keys'| && keys'[m] != x.subject
      ensures OfSubject(pre + [x], keys'[m]) == OfSubject(pre, keys'[m])
    {
      OfSubjectAppend(pre, x, keys'[m]);
    }
  }

  /** A subject that has not appeared has no answers yet. */
  lemma {:induction false} NotYetSeen(xs: seq<Answer>, s: string)
    requires s !in SubjectsOf(xs)
    ensures OfSubject(xs, s) == []
  {
    if |OfSubject(xs, s)| > 0 {
      var a := OfSubject(xs, s)[0];
      assert a in OfSubject(xs, s);
      OfSubjectMembers(xs, s);
      SubjectsCover(xs);
    }
  }

  /** The group sizes add up to the number of answers: every answer lands in exactly one group. */
  lemma {:induction false} GroupSizesSum(xs: seq<Answer>)
    ensures SizeSum(xs, SubjectsOf(xs)) == |xs|
  {
    if |xs| > 0 {
      var init := xs[..|xs| - 1];
      var x := xs[|xs| - 1];
      assert xs == init + [x];
      GroupSizesSum(init);
      SizeSumStep(init, x, SubjectsOf(init));
      if x.subject !in SubjectsOf(init) {
        assert SubjectsOf(xs) == SubjectsOf(init) + [x.subject];
        SizeSumAppend(xs, SubjectsOf(init), x.subject);
        assert |OfSubject(xs, x.subject)| == 1 by {
          NotYetSeen(init, x.subject);
          assert OfSubject(xs, x.subject) == [x];
        }
      } else {
        assert SubjectsOf(xs) == SubjectsOf(init);
      }
    }
  }

  /** The total size of the groups of subjects ss. */
  function SizeSum(xs: seq<Answer>, ss: seq<string>): nat
  {
    if |ss| == 0 then 0 else SizeSum(xs, ss[..|ss| - 1]) + |OfSubject(xs, ss[|ss| - 1])|
  }

  lemma {:induction false} SizeSumAppend(xs: seq<Answer>, ss: seq<string>, s: string)
    ensures SizeSum(xs, ss + [s]) == SizeSum(xs, ss) + |OfSubject(xs, s)|
  {
    assert (ss + [s])[..|ss|] == ss;
  }

  /** Appending an answer grows the total over distinct subjects ss by one exactly when its subject
      is among them. */
  lemma {:induction false} SizeSumStep(init: seq<Answer>, x: Answer, ss: seq<string>)
    requires forall a, b :: 0 <= a < b < |ss| ==> ss[a] != ss[b]
    ensures SizeSum(init + [x], ss) == SizeSum(init, ss) + (if x.subject in ss then 1 else 0)
  {
    var xs := init + [x];
    assert xs[..|xs| - 1] == init;
    if |ss| > 0 {
      var front := ss[..|ss| - 1];
      var last := ss[|ss| - 1];
      SizeSumStep(init, x, front);
      assert ss == front + [last];
      assert x.subject in ss <==> x.subject in front || x.subject == last;
      assert x.subject == last ==> x.subject !in front;
    }
  }

  /** A scan row's nullable file fields. */
  datatype Scan = Scan(id: int, fileName: Option<string>, filePath: Option<string>, fileUrl: Option<string>,
                       reviewRequired: bool)

  datatype Detail = Detail(id: int, fileName: string, filePath: string, fileUrl: string, reviewRequired: bool,
                           subjects: seq<string>, groups: seq<Group>)

  /** `getAnswerSheetById`: null when no scan has the id; otherwise the first such scan with its
      missing file fields read as "", and the scan's answers grouped by subject. */
  method AnswerSheetById(scans: seq<Scan>, answers: seq<(int, Answer)>, scanId: int) returns (r: Option<Detail>)
    ensures r.None? <==> forall k :: 0 <= k < |scans| ==> scans[k].id != scanId
    ensures r.Some? ==> r.value.id == scanId
    ensures r.Some? ==> exists k :: (0 <= k < |scans| && scans[k].id == scanId
      && (forall m :: 0 <= m < k ==> scans[m].id != scanId)
      && r.value.fileName == scans[k].fileName.GetOr("") && r.value.filePath == scans[k].filePath.GetOr("")
      && r.value.fileUrl == scans[k].fileUrl.GetOr("") && r.value.reviewRequired == scans[k].reviewRequired)
    ensures r.Some? ==> (r.value.subjects == SubjectsOf(ScanAnswers(answers, scanId))
                         && |r.value.groups| == |r.value.subjects|)
    ensures r.Some? ==> forall k :: 0 <= k < |r.value.subjects| ==> r.value.groups[k] == GroupOf(ScanAnswers(answers, scanId), r.value.subjects[k])
  {
    var k := 0;
    while k < |scans| && scans[k].id != scanId
      invariant 0 <= k <= |scans|
      invariant forall m :: 0 <= m < k ==> scans[m].id != scanId
    {
      k := k + 1;
    }
    if k == |scans| {
      return None;
    }
    var s := scans[k];
    var mine := ScanAnswers(answers, scanId);
    var keys, groups := GroupAnswers(mine);
    return Some(Detail(s.id, s.fileName.GetOr(""), s.filePath.GetOr(""), s.fileUrl.GetOr(""), s.reviewRequired,
                       keys, groups));
  }

  /** `WHERE scan_id = scanId`, order kept. */
  function ScanAnswers(answers: seq<(int, Answer)>, scanId: int): (r: seq<Answer>)
    ensures |r| <= |answers|
    ensures forall a :: a in r <==> (scanId, a) in answers
  {
    if |answers| == 0 then []
    else
      var t := ScanAnswers(answers[1..], scanId);
      assert answers == [answers[0]] + answers[1..];
      if answers[0].0 == scanId then [answers[0].1] + t else t
  }
}
