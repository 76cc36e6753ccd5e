/**
 * The pure part of persisting a scan: the review flags aggregated from the
 * four JSON sections, the scan-level flag, and the list of per-question
 * rows written for the answers. A JSON object is an ordered list of
 * key/value pairs, as a Python dict iterates; the SQL statements
 * themselves are not modelled.
 */
module Persist {
  import opened Wrappers
  import opened Numeric
  import opened Text

  datatype Json =
    | JNull
    | JBool(b: bool)
    | JNum(n: real)
    | JStr(s: string)
    | JArr(items: seq<Json>)
    | JObj(fields: seq<(string, Json)>)

  /** Python truthiness of a JSON value. */
  predicate Truthy(v: Json)
  {
    match v
    case JNull => false
    case JBool(b) => b
    case JNum(n) => n != 0.0
    case JStr(s) => |s| > 0
    case JArr(items) => |items| > 0
    case JObj(fields) => |fields| > 0
  }

  /** `d.get(key, default)`: the value of the first entry with that key. */
  function Get(fields: seq<(string, Json)>, key: string, default: Json): Json
  {
    if |fields| == 0 then default
    else if fields[0].0 == key then fields[0].1
    else Get(fields[1..], key, default)
  }

  /** The lookup finds the first entry with the key, and gives the default when no entry has it. */
  lemma {:induction false} GetFirst(fields: seq<(string, Json)>, key: string, default: Json)
    ensures Get(fields, key, default) == if KeyAt(fields, key) < |fields| then fields[KeyAt(fields, key)].1 else default
  {
    if |fields| > 0 && fields[0].0 != key {
      GetFirst(fields[1..], key, default);
    }
  }

  /** The position of the first entry with the key, or the number of entries when none has it. */
  function KeyAt(fields: seq<(string, Json)>, key: string): (i: nat)
    ensures i <= |fields|
    ensures i < |fields| ==> fields[i].0 == key
    ensures forall j :: 0 <= j < i ==> fields[j].0 != key
  {
    if |fields| == 0 then 0
    else if fields[0].0 == key then 0
    else 1 + KeyAt(fields[1..], key)
  }

  /** A dict-valued entry whose `review_required` is truthy (missing counts as False). */
  predicate FieldFlagged(v: Json)
  {
    v.JObj? && Truthy(Get(v.fields, "review_required", JBool(false)))
  }

  /** `_aggregate_review_flag`: some dict-valued entry of the section is flagged; other entries are
      ignored. */
  function AggregateReviewFlag(section: seq<(string, Json)>): (r: bool)
    ensures r <==> exists i :: 0 <= i < |section| && FieldFlagged(section[i].1)
  {
    if |section| == 0 then false
    else
      var t := AggregateReviewFlag(section[1..]);
      assert forall i :: 1 <= i < |section| ==> section[i] == section[1..][i - 1];
      FieldFlagged(section[0].1) || t
  }

  /** A previous-school section whose only flagged field is a final grade. */
  function FinalGradeOnlySection(): seq<(string, Json)>
  {
    [("final_grade", JObj([("Math", JObj([("answer", JNull), ("review_required", JBool(true))]))]))]
  }

  /** The aggregation looks one level deep: a final grade flagged for review inside the
      `final_grade` group does not flag the previous-school section. */
  lemma {:induction false} AggregationMissesNestedGroup()
    ensures !AggregateReviewFlag(FinalGradeOnlySection())
    ensures NestedGroupFlagged(FinalGradeOnlySection()[0].1)
  {
    var group := FinalGradeOnlySection()[0].1;
    assert Get(group.fields, "review_required", JBool(false)) == JBool(false);
    var math := group.fields[0].1;
    assert Get(math.fields, "review_required", JBool(false)) == JBool(true);
  }

  /** A group of fields (such as `final_grade`) one of whose fields is flagged. */
  predicate NestedGroupFlagged(v: Json)
  {
    v.JObj? && exists j :: 0 <= j < |v.fields| && FieldFlagged(v.fields[j].1)
  }

  /** The aggregation with groups of fields looked into: an entry flags the section when it is a
      flagged field or a group holding one. */
  function AggregateReviewFlagDeep(section: seq<(string, Json)>): (r: bool)
    ensures r <==> exists i :: 0 <= i < |section| && (FieldFlagged(section[i].1) || NestedGroupFlagged(section[i].1))
  {
    if |section| == 0 then false
    else
      var t := AggregateReviewFlagDeep(section[1..]);
      assert forall i :: 1 <= i < |section| ==> section[i] == section[1..][i - 1];
      FieldFlagged(section[0].1) || GroupFlagged(section[0].1) || t
  }

  function GroupFlagged(v: Json): (r: bool)
    ensures r <==> NestedGroupFlagged(v)
  {
    v.JObj? && AnyFieldFlagged(v.fields)
  }

  function AnyFieldFlagged(fields: seq<(string, Json)>): (r: bool)
    ensures r <==> exists j :: 0 <= j < |fields| && FieldFlagged(fields[j].1)
  {
    if |fields| == 0 then false
    else
      var t := AnyFieldFlagged(fields[1..]);
      assert forall i :: 1 <= i < |fields| ==> fields[i] == fields[1..][i - 1];
      FieldFlagged(fields[0].1) || t
  }

  /** The deep aggregation flags every section the one-level one flags, and flags the final-grade
      section the one-level one misses. */
  lemma {:induction false} DeepAggregationExtends(section: seq<(string, Json)>)
    ensures AggregateReviewFlag(section) ==> AggregateReviewFlagDeep(section)
    ensures AggregateReviewFlagDeep(FinalGradeOnlySection())
  {
    AggregationMissesNestedGroup();
  }

  /** The questions of one subject: `subject.get("answers", {})`, which must be a dict (anything
      else makes the source raise). */
  function QuestionsOf(subject: Json): (qs: Option<seq<(string, Json)>>)
    ensures qs.Some? <==> subject.JObj? && Get(subject.fields, "answers", JObj([])).JObj?
  {
    if !subject.JObj? then None
    else
      var a := Get(subject.fields, "answers", JObj([]));
      if a.JObj? then Some(a.fields) else None
  }

  /** Every question of the subject is a dict. */
  predicate SubjectShaped(subject: Json)
  {
    QuestionsOf(subject).Some? && forall j :: 0 <= j < |QuestionsOf(subject).value| ==> QuestionsOf(subject).value[j].1.JObj?
  }

  predicate WellShaped(answers: seq<(string, Json)>)
  {
    forall i :: 0 <= i < |answers| ==> SubjectShaped(answers[i].1)
  }

  predicate QuestionFlagged(q: Json)
  {
    q.JObj? && Truthy(Get(q.fields, "review_required", JBool(false)))
  }

  /** Some question of some subject is flagged for review. */
  predicate AnyQuestionFlagged(answers: seq<(string, Json)>)
  {
    exists i :: 0 <= i < |answers| && SubjectFlagged(answers[i].1)
  }

  predicate SubjectFlagged(subject: Json)
  {
    QuestionsOf(subject).Some?
      && exists j :: 0 <= j < |QuestionsOf(subject).value| && QuestionFlagged(QuestionsOf(subject).value[j].1)
  }

  /** `_aggregate_answers_review_flag`: scans subjects and their questions in order and stops at
      the first flagged question. A subject that is not a dict, answers that are not a dict, or a
      question that is not a dict raise when the scan reaches them. */
  method AggregateAnswersReviewFlag(answers: seq<(string, Json)>) returns (r: Result<bool>)
    ensures WellShaped(answers) ==> r == Success(AnyQuestionFlagged(answers))
    ensures r == Success(true) ==> AnyQuestionFlagged(answers)
    ensures r.Failure? ==> !WellShaped(answers)
  {
    var i := 0;
    while i < |answers|
      invariant 0 <= i <= |answers|
      invariant forall k :: 0 <= k < i ==> SubjectShaped(answers[k].1) && !SubjectFlagged(answers[k].1)
    {
      var qs := QuestionsOf(answers[i].1);
      if qs.None? {
        return Failure("AttributeError: 'get' or 'values' on a non-dict");
      }
      var j := 0;
      while j < |qs.value|
        invariant 0 <= j <= |qs.value|
        invariant forall m :: 0 <= m < j ==> qs.value[m].1.JObj? && !QuestionFlagged(qs.value[m].1)
      {
        var q := qs.value[j].1;
        if !q.JObj? {
          return Failure("AttributeError: 'get' on a non-dict");
        }
        if Truthy(Get(q.fields, "review_required", JBool(false))) {
          assert SubjectFlagged(answers[i].1);
          return Success(true);
        }
        j := j + 1;
      }
      i := i + 1;
    }
    return Success(false);
  }

  /** The scan is flagged when any of the four sections is. */
  function ScanReview(student: bool, previous: bool, current: bool, answers: bool): (r: bool)
    ensures r <==> student || previous || current || answers
  {
    student || previous || current || answers
  }

  /** Python `int(v)` on a decoded JSON value: a bool gives 0 or 1, a number is truncated toward
      zero, a string is parsed as a decimal numeral; None, a list or a dict raise TypeError. */
  function IntOf(v: Json): (r: Result<int>)
    ensures r.Success? <==> v.JBool? || v.JNum? || (v.JStr? && ParseNat(v.s).Some?)
    ensures r.Success? && v.JNum? ==> (v.n >= 0.0 ==> 0 <= r.value && r.value as real <= v.n < r.value as real + 1.0)
    ensures r.Success? && v.JNum? ==> (v.n < 0.0 ==> r.value <= 0 && r.value as real - 1.0 < v.n <= r.value as real)
  {
    match v
    case JBool(b) => Success(if b then 1 else 0)
    case JNum(n) => Success(Trunc(n))
    case JStr(s) =>
      var k := ParseNat(s);
      if k.None? then Failure("ValueError: invalid literal for int()") else Success(k.value)
    case _ => Failure("TypeError: int() argument must be a string or a number")
  }

  /** For a bool or a whole number, `int(v)` is non-zero exactly when v is truthy. */
  lemma {:induction false} IntOfAgreesWithTruth(v: Json)
    requires v.JBool? || (v.JNum? && v.n == v.n.Floor as real)
    ensures IntOf(v).Success? && (IntOf(v).value != 0 <==> Truthy(v))
  {
    if v.JNum? {
      var n := v.n;
      var k := Trunc(n);
      assert IntOf(v) == Success(k);
      if n >= 0.0 {
        assert k == n.Floor;
      } else {
        assert k == -((-n).Floor);
        assert (-n).Floor == -n.Floor;
      }
      assert k as real == n;
      assert k != 0 <==> n != 0.0;
    }
  }

  /** A fractional flag is truthy, so it flags the scan, yet its row stores 0; a word such as
      "yes" makes `int()` raise. */
  lemma {:induction false} FlagStorageExamples()
    ensures Truthy(JNum(0.5)) && IntOf(JNum(0.5)) == Success(0)
    ensures Truthy(JStr("yes")) && IntOf(JStr("yes")).Failure?
  {
    assert Trunc(0.5) == 0;
    assert !IsDigit("yes"[0]);
  }

  /** The range of an SQLite INTEGER: a larger Python int fails to bind (OverflowError). */
  predicate FitsSqliteInteger(n: int)
  {
    -0x8000_0000_0000_0000 <= n < 0x8000_0000_0000_0000
  }

  /** Values SQLite binds as a parameter: None, a bool, a number or a string. A list or a dict is
      rejected. */
  predicate Bindable(v: Json)
  {
    !v.JArr? && !v.JObj?
  }

  /** A `student_answer` row; `review` is the stored `int(q.get("review_required", False))`. */
  datatype AnswerRow = AnswerRow(subject: string, question: nat, answer: Json, confidence: Json, review: int)

  /** `q.get("review_required", False)`. */
  function FlagOf(q: Json): Json
    requires q.JObj?
  {
    Get(q.fields, "review_required", JBool(false))
  }

  /** What a question needs for its row to be written: a question number that `int()` parses and
      SQLite holds, an answer and a confidence SQLite can bind, and a flag `int()` accepts whose
      value SQLite holds. */
  predicate RowStorable(number: string, q: Json)
    requires q.JObj?
  {
    ParseNat(number).Some? && FitsSqliteInteger(ParseNat(number).value)
    && Bindable(Get(q.fields, "answer", JNull)) && Bindable(Get(q.fields, "confidence", JNull))
    && IntOf(FlagOf(q)).Success? && FitsSqliteInteger(IntOf(FlagOf(q)).value)
  }

  /** The row of one question: `int(question_number)`, the question's answer and confidence, and
      `int()` of its own review flag. The tuple is built left to right, so the first failing step
      names the error, and SQLite's binding comes last. */
  function RowOf(subject: string, number: string, q: Json): (r: Result<AnswerRow>)
    requires q.JObj?
    ensures r.Success? <==> RowStorable(number, q)
    ensures r.Success? ==> (r.value.subject == subject && r.value.question == ParseNat(number).value
      && r.value.answer == Get(q.fields, "answer", JNull) && r.value.confidence == Get(q.fields, "confidence", JNull)
      && r.value.review == IntOf(FlagOf(q)).value)
  {
    var n := ParseNat(number);
    var flag := IntOf(FlagOf(q));
    var answer, confidence := Get(q.fields, "answer", JNull), Get(q.fields, "confidence", JNull);
    if n.None? then Failure("ValueError: invalid literal for int()")
    else if flag.Failure? then Failure(flag.error)
    else if !FitsSqliteInteger(n.value) || !FitsSqliteInteger(flag.value) then Failure("OverflowError: Python int too large to convert to SQLite INTEGER")
    else if !Bindable(answer) || !Bindable(confidence) then Failure("ProgrammingError: Error binding parameter")
    else Success(AnswerRow(subject, n.value, answer, confidence, flag.value))
  }

  /** The number of questions across the subjects. */
  function QuestionCount(answers: seq<(string, Json)>): nat
    requires WellShaped(answers)
  {
    if |answers| == 0 then 0 else |QuestionsOf(answers[0].1).value| + QuestionCount(answers[1..])
  }

  /** The rows of one subject's questions, in order. */
  function SubjectRows(subject: string, qs: seq<(string, Json)>): (r: Result<seq<AnswerRow>>)
    requires forall j :: 0 <= j < |qs| ==> qs[j].1.JObj?
    ensures r.Success? ==> |r.value| == |qs|
  {
    if |qs| == 0 then Success([])
    else
      var head := RowOf(subject, qs[0].0, qs[0].1);
      var tail := SubjectRows(subject, qs[1..]);
      if head.Failure? then Failure(head.error)
      else if tail.Failure? then Failure(tail.error)
      else Success([head.value] + tail.value)
  }

  /** A subject's rows exist exactly when every question's row can be stored, and then row j is the
      row of question j. */
  lemma {:induction false} SubjectRowsSpec(subject: string, qs: seq<(string, Json)>)
    requires forall j :: 0 <= j < |qs| ==> qs[j].1.JObj?
    ensures SubjectRows(subject, qs).Success? <==> forall j :: 0 <= j < |qs| ==> RowStorable(qs[j].0, qs[j].1)
    ensures SubjectRows(subject, qs).Success? ==> forall j :: 0 <= j < |qs| ==>
      RowOf(subject, qs[j].0, qs[j].1).Success? && SubjectRows(subject, qs).value[j] == RowOf(subject, qs[j].0, qs[j].1).value
  {
    if |qs| > 0 {
      SubjectRowsSpec(subject, qs[1..]);
      assert forall j :: 1 <= j < |qs| ==> qs[j] == qs[1..][j - 1];
    }
  }

  /** Each subject's rows, in the order of the subjects. */
  function RowLists(answers: seq<(string, Json)>): (rs: seq<Result<seq<AnswerRow>>>)
    requires WellShaped(answers)
    ensures |rs| == |answers|
    ensures forall i :: 0 <= i < |answers| ==> rs[i] == SubjectRows(answers[i].0, QuestionsOf(answers[i].1).value)
  {
    seq(|answers|, i requires 0 <= i < |answers| && SubjectShaped(answers[i].1) =>
      SubjectRows(answers[i].0, QuestionsOf(answers[i].1).value))
  }

  /** Lists built one after another, as `rows.append` in nested loops: the first failure stops the
      build, otherwise the lists are concatenated in order. */
  function Collect<T>(rs: seq<Result<seq<T>>>): Result<seq<T>>
  {
    if |rs| == 0 then Success([])
    else
      var tail := Collect(rs[1..]);
      if rs[0].Failure? then Failure(rs[0].error)
      else if tail.Failure? then Failure(tail.error)
      else Success(rs[0].value + tail.value)
  }

  /** Where list i starts in the concatenation: the lengths of the lists before it. */
  function StartOf<T>(rs: seq<Result<seq<T>>>, i: nat): nat
    requires i <= |rs|
  {
    if i == 0 then 0 else (if rs[0].Success? then |rs[0].value| else 0) + StartOf(rs[1..], i - 1)
  }

  /** A finished build has every list built, and entry j of list i sits at the start of list i
      plus j. */
  lemma {:induction false} CollectAt<T>(rs: seq<Result<seq<T>>>, i: nat, j: nat)
    requires Collect(rs).Success? && i < |rs|
    ensures rs[i].Success?
    ensures j < |rs[i].value| ==>
      StartOf(rs, i) + j < |Collect(rs).value| && Collect(rs).value[StartOf(rs, i) + j] == rs[i].value[j]
  {
    if i > 0 {
      CollectAt(rs[1..], i - 1, j);
      assert rs[1..][i - 1] == rs[i];
    }
  }

  /** A finished build is as long as its lists together. */
  lemma {:induction false} CollectLength<T>(rs: seq<Result<seq<T>>>)
    requires Collect(rs).Success?
    ensures |Collect(rs).value| == StartOf(rs, |rs|)
  {
    if |rs| > 0 {
      CollectLength(rs[1..]);
    }
  }

  /** The per-question rows of the answers section, subject by subject. */
  function AnswerRows(answers: seq<(string, Json)>): (r: Result<seq<AnswerRow>>)
    requires WellShaped(answers)
    ensures r.Success? ==> |r.value| == QuestionCount(answers)
  {
    var rs := RowLists(answers);
    if Collect(rs).Success? then
      CollectLength(rs);
      StartsAreOffsets(answers, |answers|);
      Collect(rs)
    else Collect(rs)
  }

  /** Where subject i's rows start: the questions of the subjects before it. */
  function Offset(answers: seq<(string, Json)>, i: nat): nat
    requires WellShaped(answers) && i <= |answers|
  {
    if i == 0 then 0 else |QuestionsOf(answers[0].1).value| + Offset(answers[1..], i - 1)
  }

  /** Once every subject's rows are built, subject i's rows start at its offset; all of them end
      at the question count. */
  lemma {:induction false} StartsAreOffsets(answers: seq<(string, Json)>, i: nat)
    requires WellShaped(answers) && Collect(RowLists(answers)).Success? && i <= |answers|
    ensures StartOf(RowLists(answers), i) == Offset(answers, i)
    ensures i == |answers| ==> Offset(answers, i) == QuestionCount(answers)
  {
    var rs := RowLists(answers);
    if i > 0 {
      var rest := answers[1..];
      assert WellShaped(rest) by {
        forall k | 0 <= k < |rest| ensures SubjectShaped(rest[k].1) {
          assert rest[k] == answers[k + 1];
        }
      }
      assert RowLists(rest) == rs[1..] by {
        forall k | 0 <= k < |rest| ensures RowLists(rest)[k] == rs[1..][k] {
          assert rest[k] == answers[k + 1];
        }
      }
      CollectAt(rs, 0, 0);
      StartsAreOffsets(rest, i - 1);
    }
  }

  /** Exactly one row per (subject, question) pair: question j of subject i is the row at subject
      i's offset plus j, carrying that subject's name, the question's number and its own flag. */
  lemma {:induction false} AnswerRowAt(answers: seq<(string, Json)>, i: nat, j: nat)
    requires WellShaped(answers) && AnswerRows(answers).Success?
    requires i < |answers| && j < |QuestionsOf(answers[i].1).value|
    ensures Offset(answers, i) + j < |AnswerRows(answers).value|
    ensures var q := QuestionsOf(answers[i].1).value[j];
      RowOf(answers[i].0, q.0, q.1).Success? && AnswerRows(answers).value[Offset(answers, i) + j] == RowOf(answers[i].0, q.0, q.1).value
  {
    var rs := RowLists(answers);
    CollectAt(rs, i, j);
    StartsAreOffsets(answers, i);
    SubjectRowsSpec(answers[i].0, QuestionsOf(answers[i].1).value);
  }

  /** The student columns, each read as `student_json.get(key, {}).get("answer")`, in column order. */
  const StudentColumns: seq<string> := ["last_name", "first_name", "middle_initial", "birth_month", "birth_day",
                                        "birth_year", "gender", "lrn", "ssc", "four_ps"]
  /** Stored through `json.dumps`, so any JSON answer will do. */
  const SpecialClassesColumn: string := "special_classes"
  const PreviousColumns: seq<string> := ["school_id", "class_size", "school_year"]
  /** The grades inside `final_grade`, one column each. */
  const FinalGradeColumns: seq<string> := ["Math", "English", "Science", "Filipino", "AP"]
  const CurrentColumns: seq<string> := ["region", "division", "school_id", "school_type"]

  /** `section.get(key, {})`. */
  function FieldOf(section: seq<(string, Json)>, key: string): Json
  {
    Get(section, key, JObj([]))
  }

  /** `.get("answer")` of a dict field. */
  function AnswerOf(field: Json): Json
    requires field.JObj?
  {
    Get(field.fields, "answer", JNull)
  }

  /** A column can be written: the field is a dict (anything else has no `.get`, AttributeError),
      and unless the answer is dumped to JSON first, SQLite can bind it. */
  predicate ColumnStorable(section: seq<(string, Json)>, key: string, dumped: bool)
  {
    FieldOf(section, key).JObj? && (dumped || Bindable(AnswerOf(FieldOf(section, key))))
  }

  /** The answers of the fields named by keys, in order: a failure at the first field that cannot be
      written, otherwise entry k is the answer of field keys[k] (None when the field is missing). */
  function ColumnValues(section: seq<(string, Json)>, keys: seq<string>, dumped: bool): (r: Result<seq<Json>>)
    ensures r.Success? <==> forall k :: 0 <= k < |keys| ==> ColumnStorable(section, keys[k], dumped)
    ensures r.Success? ==> |r.value| == |keys|
    ensures r.Success? ==> forall k :: 0 <= k < |keys| ==> r.value[k] == AnswerOf(FieldOf(section, keys[k]))
  {
    if |keys| == 0 then Success([])
    else
      var field := FieldOf(section, keys[0]);
      var tail := ColumnValues(section, keys[1..], dumped);
      assert forall k :: 1 <= k < |keys| ==> keys[k] == keys[1..][k - 1];
      if !field.JObj? then Failure("AttributeError: 'get' on a non-dict field")
      else if !dumped && !Bindable(AnswerOf(field)) then Failure("ProgrammingError: Error binding parameter")
      else if tail.Failure? then Failure(tail.error)
      else Success([AnswerOf(field)] + tail.value)
  }

  /** The `student` row's columns: the ten plain ones, then `special_classes`. */
  function StudentValues(student: seq<(string, Json)>): (r: Result<seq<Json>>)
    ensures r.Success? <==> (ColumnValues(student, StudentColumns, false).Success?
                             && ColumnStorable(student, SpecialClassesColumn, true))
    ensures r.Success? ==> (|r.value| == 11 && r.value[10] == AnswerOf(FieldOf(student, SpecialClassesColumn))
                            && r.value[..10] == ColumnValues(student, StudentColumns, false).value)
  {
    var plain := ColumnValues(student, StudentColumns, false);
    var special := ColumnValues(student, [SpecialClassesColumn], true);
    if plain.Failure? then plain
    else if special.Failure? then special
    else Success(plain.value + special.value)
  }

  /** The `previous_school` row's columns: school id, class size and school year, then the five
      grades read out of the `final_grade` dict (which must itself be a dict). */
  function PreviousValues(previous: seq<(string, Json)>): (r: Result<seq<Json>>)
    ensures r.Success? <==> (ColumnValues(previous, PreviousColumns, false).Success?
                             && FieldOf(previous, "final_grade").JObj?
                             && ColumnValues(FieldOf(previous, "final_grade").fields, FinalGradeColumns, false).Success?)
    ensures r.Success? ==> (|r.value| == 8
                            && r.value[..3] == ColumnValues(previous, PreviousColumns, false).value
                            && r.value[3..] == ColumnValues(FieldOf(previous, "final_grade").fields, FinalGradeColumns, false).value)
  {
    var plain := ColumnValues(previous, PreviousColumns, false);
    var group := FieldOf(previous, "final_grade");
    if plain.Failure? then plain
    else if !group.JObj? then Failure("AttributeError: 'get' on a non-dict final_grade")
    else
      var grades := ColumnValues(group.fields, FinalGradeColumns, false);
      if grades.Failure? then grades
      else Success(plain.value + grades.value)
  }

  /** The `current_school` row's columns. */
  function CurrentValues(current: seq<(string, Json)>): (r: Result<seq<Json>>)
    ensures r.Success? <==> forall k :: 0 <= k < |CurrentColumns| ==> ColumnStorable(current, CurrentColumns[k], false)
    ensures r.Success? ==> |r.value| == 4
  {
    ColumnValues(current, CurrentColumns, false)
  }

  /** The three section rows can all be written. */
  predicate SectionsStorable(student: seq<(string, Json)>, previous: seq<(string, Json)>, current: seq<(string, Json)>)
  {
    StudentValues(student).Success? && PreviousValues(previous).Success? && CurrentValues(current).Success?
  }

  /** The shape the student reader returns (a plain string per name) has no `.get`, so storing it
      raises, while a field dict without an answer stores None. */
  lemma {:induction false} PlainStudentFieldRaises()
    ensures StudentValues([("last_name", JStr("DOE"))]).Failure?
    ensures var student := [("last_name", JObj([("review_required", JBool(false))]))];
      StudentValues(student).Success? && StudentValues(student).value[0] == JNull
  {
    var bad := [("last_name", JStr("DOE"))];
    assert FieldOf(bad, StudentColumns[0]) == JStr("DOE");
    var good := [("last_name", JObj([("review_required", JBool(false))]))];
    assert FieldOf(good, StudentColumns[0]) == good[0].1;
    assert AnswerOf(good[0].1) == JNull;
    forall k | 1 <= k < |StudentColumns|
      ensures FieldOf(good, StudentColumns[k]) == JObj([])
    {
      assert StudentColumns[k] != "last_name";
    }
    assert FieldOf(good, SpecialClassesColumn) == JObj([]);
  }

  /** What a scan writes, apart from the raw JSON: the scan's flag (stored as 0 or 1), the three
      section flags, the section rows' columns and the answer rows. */
  datatype ScanRecord = ScanRecord(review: bool, studentReview: bool, previousReview: bool, currentReview: bool,
                                   student: seq<Json>, previous: seq<Json>, current: seq<Json>,
                                   rows: seq<AnswerRow>)

  /** `persist_scan` without the database: the aggregated flags, then the student, previous-school
      and current-school rows, then one row per question. Any exception aborts the transaction, so
      nothing is stored unless every step succeeds. */
  method PersistScan(student: seq<(string, Json)>, previous: seq<(string, Json)>, current: seq<(string, Json)>,
                     answers: seq<(string, Json)>) returns (r: Result<ScanRecord>)
    ensures r.Success? <==> (WellShaped(answers) && SectionsStorable(student, previous, current)
                             && AnswerRows(answers).Success?)
    ensures r.Success? ==> (r.value.review <==>
      AggregateReviewFlag(student) || AggregateReviewFlag(previous) || AggregateReviewFlag(current)
      || AnyQuestionFlagged(answers))
    ensures r.Success? ==> (r.value.student == StudentValues(student).value
                            && r.value.previous == PreviousValues(previous).value
                            && r.value.current == CurrentValues(current).value)
    ensures r.Success? ==> (r.value.studentReview == AggregateReviewFlag(student)
                            && r.value.previousReview == AggregateReviewFlag(previous)
                            && r.value.currentReview == AggregateReviewFlag(current))
    ensures r.Success? ==> r.value.rows == AnswerRows(answers).value && |r.value.rows| == QuestionCount(answers)
  {
    var studentReview := AggregateReviewFlag(student);
    var previousReview := AggregateReviewFlag(previous);
    var currentReview := AggregateReviewFlag(current);
    var answersReview := AggregateAnswersReviewFlag(answers);
    if answersReview.Failure? {
      return Failure(answersReview.error);
    }
    var review := ScanReview(studentReview, previousReview, currentReview, answersReview.value);
    var studentRow := StudentValues(student);
    if studentRow.Failure? {
      return Failure(studentRow.error);
    }
    var previousRow := PreviousValues(previous);
    if previousRow.Failure? {
      return Failure(previousRow.error);
    }
    var currentRow := CurrentValues(current);
    if currentRow.Failure? {
      return Failure(currentRow.error);
    }
    if !WellShaped(answers) {
      return Failure("AttributeError: 'items' on a non-dict");
    }
    var rows := AnswerRows(answers);
    if rows.Failure? {
      return Failure(rows.error);
    }
    return Success(ScanRecord(review, studentReview, previousReview, currentReview,
                              studentRow.value, previousRow.value, currentRow.value, rows.value));
  }
}
