/** The teacher's exam builder: the form fields, the question list and the
    exam record that publishing produces. */
module CreateExam {
  import opened Wrappers
  import Seqs
  import Decimal
  import opened QuestionForm

  /** The values of the registered form inputs. Number inputs are `None`
      while empty; selects hold their option value ("" before a choice). */
  datatype ExamForm = ExamForm(
    examTitle: string,
    examDescription: string,
    examDate: string,
    startTime: string,
    endTime: string,
    examDuration: Option<int>,
    examType: string,
    totalMarks: Option<int>,
    passingMarks: Option<int>,
    allowedAttempts: string,
    faceRecognition: bool,
    cameraMonitoring: bool,
    tabSwitching: bool,
    copyPaste: bool)

  /** A published exam: a creation-time id, the form values, the questions,
      an ISO creation timestamp and a status string. */
  datatype Exam = Exam(id: int, form: ExamForm, questions: seq<Question>, timestamp: string, status: string)

  /** The form after reset(): every input back to its initial value. */
  const BlankForm := ExamForm("", "", "", "", "", None, "", None, None, "", false, false, false, false)

  /** A number input with `min: 1` is satisfied by a value of at least 1. */
  predicate AtLeastOne(v: Option<int>)
  {
    v.Some? && v.value >= 1
  }

  /** The validation rules: a title, and duration, total and passing marks
      of at least one each. Nothing relates passing to total marks. */
  predicate Accepts(f: ExamForm)
  {
    f.examTitle != "" && AtLeastOne(f.examDuration) && AtLeastOne(f.totalMarks) && AtLeastOne(f.passingMarks)
  }

  /** The rules never compare passing marks with total marks: every form
      that meets the four rules is accepted whatever its passing marks are
      relative to its total, including above it. */
  lemma PassingAboveTotalAccepted(f: ExamForm, passing: int)
    requires Accepts(f) && passing > f.totalMarks.value
    ensures Accepts(f.(passingMarks := Some(passing)))
  {
  }

  /** A submit click reaches onSubmit only when the browser's check of
      the question inputs rendered inside the form passes and the form's own
      rules accept it. */
  predicate Submits(f: ExamForm, qs: seq<Question>)
  {
    (forall q :: q in qs ==> NativeValid(q)) && Accepts(f)
  }

  /** A blank form is never submitted, and each of the four rules is
      needed. */
  lemma EachRuleNeeded(f: ExamForm)
    requires Accepts(f)
    ensures !Accepts(BlankForm)
    ensures !Accepts(f.(examTitle := ""))
    ensures !Accepts(f.(examDuration := None)) && !Accepts(f.(examDuration := Some(0)))
    ensures !Accepts(f.(totalMarks := None)) && !Accepts(f.(passingMarks := None))
  {
  }

  /** `question-${n}`. */
  function QuestionId(n: nat): string
  {
    "question-" + Decimal.NatToString(n)
  }

  /** The question addQuestion creates when `n` questions exist already. */
  function NewQuestion(n: nat): Question
  {
    Question(QuestionId(n + 1), "", "", 1, [], [], None, None, None)
  }

  /** addQuestion: one blank question with one mark, named after the new
      count, is appended. */
  function AddQuestion(qs: seq<Question>): (r: seq<Question>)
    ensures |r| == |qs| + 1 && r[..|qs|] == qs
    ensures r[|qs|].id == QuestionId(|qs| + 1) && r[|qs|].marks == 1
    ensures r[|qs|].kind == "" && r[|qs|].text == "" && r[|qs|].options == [] && r[|qs|].correctAnswer == []
  {
    qs + [NewQuestion(|qs|)]
  }

  /** updateQuestion: every question whose id is that of `q` becomes `q`;
      the others, the length and the order stay. */
  function UpdateQuestion(qs: seq<Question>, q: Question): (r: seq<Question>)
    ensures |r| == |qs|
    ensures forall i :: 0 <= i < |qs| ==> r[i] == (if qs[i].id == q.id then q else qs[i])
  {
    if qs == [] then []
    else [if qs[0].id == q.id then q else qs[0]] + UpdateQuestion(qs[1..], q)
  }

  /** removeQuestion: an order-preserving filter on the id. */
  function RemoveQuestion(qs: seq<Question>, id: string): (r: seq<Question>)
    ensures Seqs.IsSubsequence(r, qs)
    ensures forall q :: multiset(r)[q] == if q.id != id then multiset(qs)[q] else 0
    ensures forall q :: q in r <==> q in qs && q.id != id
  {
    Seqs.Filter(qs, (q: Question) => q.id != id)
  }

  /** An update whose id matches no question changes nothing. */
  lemma {:induction false} UpdateUnknownIdKeepsList(qs: seq<Question>, q: Question)
    requires forall p :: p in qs ==> p.id != q.id
    ensures UpdateQuestion(qs, q) == qs
  {
    var r := UpdateQuestion(qs, q);
    forall i | 0 <= i < |qs| ensures r[i] == qs[i] {
      assert qs[i] in qs;
    }
  }

  /** Removing twice is removing once. */
  lemma RemoveQuestionIdempotent(qs: seq<Question>, id: string)
    ensures RemoveQuestion(RemoveQuestion(qs, id), id) == RemoveQuestion(qs, id)
  {
    Seqs.FilterIdempotent(qs, (q: Question) => q.id != id);
  }

  /** The question at position i is named question-(i+1), as it is while
      questions are only added and edited. */
  ghost predicate IdsByPosition(qs: seq<Question>)
  {
    forall i :: 0 <= i < |qs| ==> qs[i].id == QuestionId(i + 1)
  }

  lemma AddQuestionKeepsIdsByPosition(qs: seq<Question>)
    requires IdsByPosition(qs)
    ensures IdsByPosition(AddQuestion(qs))
  {
    var r := AddQuestion(qs);
    forall i | 0 <= i < |r| ensures r[i].id == QuestionId(i + 1) {
      if i < |qs| {
        assert r[i] == r[..|qs|][i];
      }
    }
  }

  /** Edits keep ids, because an updated question replaces only questions
      bearing its own id. */
  lemma UpdateQuestionKeepsIdsByPosition(qs: seq<Question>, q: Question)
    requires IdsByPosition(qs)
    ensures IdsByPosition(UpdateQuestion(qs, q))
  {
  }

  /** While no question has been removed the ids are pairwise distinct. */
  lemma IdsByPositionDistinct(qs: seq<Question>)
    requires IdsByPosition(qs)
    ensures forall i, j :: 0 <= i < j < |qs| ==> qs[i].id != qs[j].id
  {
    forall i, j | 0 <= i < j < |qs| ensures qs[i].id != qs[j].id {
      Decimal.PrefixedNamesDistinct("question-", i + 1, j + 1);
    }
  }

  /** After a removal the next id can repeat: add two, remove the first,
      add one, and both questions are named question-2. */
  lemma QuestionIdsCollideAfterRemoval()
    ensures
      var qs := RemoveQuestion(AddQuestion(AddQuestion([])), QuestionId(1));
      var r := AddQuestion(qs);
      |r| == 2 && r[0].id == r[1].id == QuestionId(2)
  {
    Decimal.PrefixedNamesDistinct("question-", 1, 2);
    var a, b := NewQuestion(0), NewQuestion(1);
    var two := AddQuestion(AddQuestion([]));
    assert two == [a] + [b];
    Seqs.FilterAppend([a], [b], (q: Question) => q.id != QuestionId(1));
    var qs := RemoveQuestion(two, QuestionId(1));
    assert qs == [b];
  }

  /** A freshly added question (one mark, no type) passes the browser's
      check, so adding questions never blocks a submit by itself. */
  lemma AddQuestionKeepsNativeValid(qs: seq<Question>)
    requires forall q :: q in qs ==> NativeValid(q)
    ensures forall q :: q in AddQuestion(qs) ==> NativeValid(q)
  {
    var r := AddQuestion(qs);
    forall q | q in r ensures NativeValid(q) {
      var i :| 0 <= i < |r| && r[i] == q;
      if i < |qs| {
        assert r[i] == r[..|qs|][i];
        assert qs[i] in qs;
      }
    }
  }

  /** Clearing the marks input of a question (Number("") is 0) blocks the
      submit, whatever the exam form holds. */
  lemma ClearedMarksBlocksSubmit(f: ExamForm, qs: seq<Question>, i: nat)
    requires i < |qs|
    ensures !Submits(f, UpdateQuestion(qs, qs[i].(marks := 0)))
  {
    var r := UpdateQuestion(qs, qs[i].(marks := 0));
    assert r[i] == qs[i].(marks := 0);
    assert r[i] in r;
  }

  /** Once two questions share an id, editing either overwrites both. */
  lemma UpdateWithSharedId(qs: seq<Question>, i: nat, j: nat, q: Question)
    requires i < |qs| && j < |qs| && qs[i].id == qs[j].id == q.id
    ensures UpdateQuestion(qs, q)[i] == q && UpdateQuestion(qs, q)[j] == q
  {
  }

  /** The exam record onSubmit builds: always scheduled, and holding the
      question list as it is at that moment, whatever the form says. */
  function BuildExam(f: ExamForm, qs: seq<Question>, now: int, isoNow: string): Exam
  {
    Exam(now, f, qs, isoNow, "scheduled")
  }
}
