/** The per-question editor of the teacher's exam builder: question type,
    answer choices ("options" in the portal) and the correct answer. Each
    handler builds a new question value and hands it to the builder. */
module QuestionForm {
  import opened Wrappers
  import Seqs
  import Decimal

  /** One answer choice of a choice question. */
  datatype Choice = Choice(id: string, text: string)

  /** A question as the builder keeps it. `kind` is the question type, one
      of the select values "", MCQ, Checkbox, Radio, ShortAnswer or
      LengthyAnswer; `correctAnswer` lists choice ids. The word limits are
      absent until their inputs are first edited. */
  datatype Question = Question(
    id: string,
    kind: string,
    text: string,
    marks: int,
    options: seq<Choice>,
    correctAnswer: seq<string>,
    wordLimit: Option<int>,
    minWordLimit: Option<int>,
    maxWordLimit: Option<int>)

  const MaxChoices: nat := 10
  const MinChoices: nat := 2

  /** `option-${n}`. */
  function OptionId(n: nat): string
  {
    "option-" + Decimal.NatToString(n)
  }

  /** `k` empty choices named option-1 … option-k. */
  function BlankChoices(k: nat): (cs: seq<Choice>)
    ensures |cs| == k
    ensures forall i :: 0 <= i < k ==> cs[i] == Choice(OptionId(i + 1), "")
  {
    if k == 0 then [] else BlankChoices(k - 1) + [Choice(OptionId(k), "")]
  }

  /** How many blank choices a freshly chosen type starts with. */
  function ChoiceCountFor(kind: string): nat
  {
    if kind == "MCQ" then 4 else if kind == "Checkbox" || kind == "Radio" then 2 else 0
  }

  ghost predicate DistinctChoiceIds(cs: seq<Choice>)
  {
    forall i, j :: 0 <= i < j < |cs| ==> cs[i].id != cs[j].id
  }

  ghost function ChoiceIds(cs: seq<Choice>): set<string>
  {
    set c | c in cs :: c.id
  }

  /** Every id listed as correct names one of the question's choices. */
  ghost predicate AnswersWithinChoices(q: Question)
  {
    forall a :: a in q.correctAnswer ==> a in ChoiceIds(q.options)
  }

  /** A word-limit input shows `limit || ""`: empty while the limit is
      absent or 0, which its `min="1"` lets through, and the number
      otherwise, which must then be at least 1. */
  predicate LimitInputValid(limit: Option<int>)
  {
    limit.None? || limit.value == 0 || limit.value >= 1
  }

  /** The browser's own check of one question's number inputs inside the
      exam form: the marks input is always shown and must hold at least 1;
      the word-limit inputs are shown (and so checked) only for their
      question type. */
  predicate NativeValid(q: Question)
  {
    && q.marks >= 1
    && (q.kind == "ShortAnswer" ==> LimitInputValid(q.wordLimit))
    && (q.kind == "LengthyAnswer" ==> LimitInputValid(q.minWordLimit) && LimitInputValid(q.maxWordLimit))
  }

  /** A word limit that is shown for one type only is not checked once the
      type changes, and is checked again when the type comes back: the
      limits survive a type change. */
  lemma HiddenLimitNotChecked(q: Question)
    requires q.marks >= 1 && q.wordLimit == Some(-1)
    ensures !NativeValid(ChangeType(q, "ShortAnswer"))
    ensures NativeValid(ChangeType(ChangeType(q, "ShortAnswer"), "MCQ"))
  {
  }

  /** handleTypeChange: the new type, fresh blank choices (four for MCQ,
      two for Checkbox and Radio, none otherwise) and no correct answer;
      every other field is kept. */
  function ChangeType(q: Question, kind: string): (r: Question)
    ensures r.kind == kind && r.correctAnswer == []
    ensures |r.options| == ChoiceCountFor(kind)
    ensures forall i :: 0 <= i < |r.options| ==> r.options[i] == Choice(OptionId(i + 1), "")
    ensures r.(kind := q.kind, options := q.options, correctAnswer := q.correctAnswer) == q
  {
    q.(kind := kind, options := BlankChoices(ChoiceCountFor(kind)), correctAnswer := [])
  }

  /** The choices a type change produces have pairwise different ids. */
  lemma ChangeTypeGivesDistinctIds(q: Question, kind: string)
    ensures DistinctChoiceIds(ChangeType(q, kind).options)
    ensures AnswersWithinChoices(ChangeType(q, kind))
  {
    var cs := ChangeType(q, kind).options;
    forall i, j | 0 <= i < j < |cs| ensures cs[i].id != cs[j].id {
      Decimal.PrefixedNamesDistinct("option-", i + 1, j + 1);
    }
  }

  /** addOption: below ten choices, one empty choice named after the new
      count is appended; at ten nothing changes. */
  function AddOption(q: Question): (r: Question)
    ensures |q.options| >= MaxChoices ==> r == q
    ensures |q.options| < MaxChoices ==>
      |r.options| == |q.options| + 1 &&
      r.options[..|q.options|] == q.options &&
      r.options[|q.options|] == Choice(OptionId(|q.options| + 1), "")
    ensures r.(options := q.options) == q
  {
    if |q.options| < MaxChoices then
      q.(options := q.options + [Choice(OptionId(|q.options| + 1), "")])
    else q
  }

  /** removeOption as written: above two choices, every choice with the
      given id is dropped, and so is every occurrence of it among the
      correct answers; at two or fewer nothing changes. */
  function RemoveOption(q: Question, id: string): (r: Question)
    ensures |q.options| <= MinChoices ==> r == q
    ensures |q.options| > MinChoices ==>
      Seqs.IsSubsequence(r.options, q.options) &&
      (forall c :: multiset(r.options)[c] == if c.id != id then multiset(q.options)[c] else 0) &&
      Seqs.IsSubsequence(r.correctAnswer, q.correctAnswer) &&
      (forall a :: multiset(r.correctAnswer)[a] == if a != id then multiset(q.correctAnswer)[a] else 0)
    ensures r.(options := q.options, correctAnswer := q.correctAnswer) == q
  {
    if |q.options| > MinChoices then
      q.(options := Seqs.Filter(q.options, (c: Choice) => c.id != id),
         correctAnswer := Seqs.Filter(q.correctAnswer, (a: string) => a != id))
    else q
  }

  /** Choice ids come from the current count, so after a removal in the
      middle the next added choice repeats the id of the last one, and
      removing that id then takes both away: a Radio question ends up with
      a single choice although removal is meant to stop at two. */
  lemma RemoveOptionCanLeaveOneChoice(q: Question)
    ensures |ChangeType(q, "Radio").options| == MinChoices
    ensures
      var q1 := AddOption(ChangeType(q, "Radio"));
      var q2 := RemoveOption(q1, OptionId(2));
      var q3 := AddOption(q2);
      var q4 := RemoveOption(q3, OptionId(3));
      |q4.options| == 1
  {
    var o1, o2, o3 := Choice(OptionId(1), ""), Choice(OptionId(2), ""), Choice(OptionId(3), "");
    Decimal.PrefixedNamesDistinct("option-", 1, 2);
    Decimal.PrefixedNamesDistinct("option-", 1, 3);
    Decimal.PrefixedNamesDistinct("option-", 2, 3);
    var q0 := ChangeType(q, "Radio");
    assert ChoiceCountFor("Radio") == 2;
    assert q0.options == [o1, o2];
    var q1 := AddOption(q0);
    AppendThird(q0, o1, o2);
    DropMiddle(q1, o1, o2, o3);
    var q2 := RemoveOption(q1, OptionId(2));
    var q3 := AddOption(q2);
    AppendThird(q2, o1, o3);
    DropRepeated(q3, o1, o3);
  }

  lemma AppendThird(q: Question, a: Choice, b: Choice)
    requires q.options == [a, b]
    ensures AddOption(q).options == [a, b, Choice(OptionId(3), "")]
  {
  }

  lemma DropMiddle(q: Question, a: Choice, b: Choice, c: Choice)
    requires q.options == [a, b, c] && a.id != b.id && c.id != b.id
    ensures RemoveOption(q, b.id).options == [a, c]
  {
    Seqs.FilterThree(a, b, c, (x: Choice) => x.id != b.id);
  }

  lemma DropRepeated(q: Question, a: Choice, c: Choice)
    requires q.options == [a, c, c] && a.id != c.id
    ensures RemoveOption(q, c.id).options == [a]
  {
    Seqs.FilterThree(a, c, c, (x: Choice) => x.id != c.id);
  }

  /** removeOption as evidently intended: the clicked choice (by its
      position) is the only one dropped, together with its id among the
      correct answers, and never below two choices. */
  function RemoveOptionAt(q: Question, index: nat): (r: Question)
    requires index < |q.options|
    ensures |q.options| <= MinChoices ==> r == q
    ensures |q.options| > MinChoices ==>
      r.options == q.options[..index] + q.options[index + 1..] &&
      Seqs.IsSubsequence(r.correctAnswer, q.correctAnswer) &&
      (forall a :: multiset(r.correctAnswer)[a] ==
         if a != q.options[index].id then multiset(q.correctAnswer)[a] else 0)
    ensures r.(options := q.options, correctAnswer := q.correctAnswer) == q
  {
    if |q.options| > MinChoices then
      var removed := q.options[index].id;
      q.(options := q.options[..index] + q.options[index + 1..],
         correctAnswer := Seqs.Filter(q.correctAnswer, (a: string) => a != removed))
    else q
  }

  /** A click on "add option" or on the remove button of one choice. */
  datatype ChoiceEdit = AddChoice | RemoveChoiceAt(index: nat)

  /** The result of a series of choice edits, using the corrected removal;
      a remove click on a position that has no choice does nothing. */
  function ApplyEdits(q: Question, edits: seq<ChoiceEdit>): Question
    decreases |edits|
  {
    if edits == [] then q
    else
      var next := match edits[0]
        case AddChoice => AddOption(q)
        case RemoveChoiceAt(i) => if i < |q.options| then RemoveOptionAt(q, i) else q;
      ApplyEdits(next, edits[1..])
  }

  /** With the corrected removal, any series of edits that starts with two
      to ten choices keeps between two and ten. */
  lemma {:induction false} EditsKeepChoiceCount(q: Question, edits: seq<ChoiceEdit>)
    requires MinChoices <= |q.options| <= MaxChoices
    ensures MinChoices <= |ApplyEdits(q, edits).options| <= MaxChoices
    decreases |edits|
  {
    if edits != [] {
      var next := match edits[0]
        case AddChoice => AddOption(q)
        case RemoveChoiceAt(i) => if i < |q.options| then RemoveOptionAt(q, i) else q;
      assert MinChoices <= |next.options| <= MaxChoices;
      EditsKeepChoiceCount(next, edits[1..]);
    }
  }

  /** The corrected removal keeps every correct answer pointing at an
      existing choice. */
  lemma RemoveOptionAtKeepsAnswers(q: Question, index: nat)
    requires index < |q.options|
    requires AnswersWithinChoices(q)
    ensures AnswersWithinChoices(RemoveOptionAt(q, index))
  {
    if |q.options| > MinChoices {
      RemovedIds(q.options, index);
    }
  }

  /** Taking out the choice at `index` loses at most its id. */
  lemma RemovedIds(cs: seq<Choice>, index: nat)
    requires index < |cs|
    ensures ChoiceIds(cs) - {cs[index].id} <= ChoiceIds(cs[..index] + cs[index + 1..])
  {
    var rest := cs[..index] + cs[index + 1..];
    forall a | a in ChoiceIds(cs) - {cs[index].id} ensures a in ChoiceIds(rest) {
      var k :| 0 <= k < |cs| && cs[k].id == a;
      if k < index {
        assert rest[k] == cs[k];
      } else {
        assert rest[k - 1] == cs[k];
      }
    }
  }

  /** Correct-answer selection. For MCQ and Radio the selected choice
      becomes the only correct answer; otherwise (Checkbox) checking
      appends its id and unchecking drops every occurrence of it. */
  function SelectChoice(q: Question, choiceId: string, checked: bool): (r: Question)
    ensures (q.kind == "MCQ" || q.kind == "Radio") ==> r.correctAnswer == [choiceId]
    ensures q.kind != "MCQ" && q.kind != "Radio" && checked ==>
      r.correctAnswer == q.correctAnswer + [choiceId]
    ensures q.kind != "MCQ" && q.kind != "Radio" && !checked ==>
      Seqs.IsSubsequence(r.correctAnswer, q.correctAnswer) &&
      (forall a :: multiset(r.correctAnswer)[a] == if a != choiceId then multiset(q.correctAnswer)[a] else 0)
    ensures r.(correctAnswer := q.correctAnswer) == q
  {
    var answer :=
      if q.kind == "MCQ" || q.kind == "Radio" then [choiceId]
      else if checked then q.correctAnswer + [choiceId]
      else Seqs.Filter(q.correctAnswer, (a: string) => a != choiceId);
    q.(correctAnswer := answer)
  }

  /** Checking and then unchecking a Checkbox choice that was not marked
      gives back the question unchanged. */
  lemma CheckThenUncheck(q: Question, choiceId: string)
    requires q.kind == "Checkbox"
    requires choiceId !in q.correctAnswer
    ensures SelectChoice(SelectChoice(q, choiceId, true), choiceId, false) == q
  {
    var keep := (a: string) => a != choiceId;
    Seqs.FilterAppend(q.correctAnswer, [choiceId], keep);
    Seqs.FilterKeepsAll(q.correctAnswer, keep);
    assert Seqs.Filter([choiceId], keep) == [];
  }

  /** A Checkbox click reports `checked` as the negation of the box's
      current state, `correctAnswer.includes(id)`. Such a click toggles the
      choice's membership and never marks a choice twice. */
  lemma CheckboxClickToggles(q: Question, choiceId: string)
    requires q.kind == "Checkbox"
    requires forall a :: multiset(q.correctAnswer)[a] <= 1
    ensures var r := SelectChoice(q, choiceId, choiceId !in q.correctAnswer);
      (choiceId in r.correctAnswer <==> choiceId !in q.correctAnswer) &&
      (forall a :: multiset(r.correctAnswer)[a] <= 1) &&
      (forall a :: a != choiceId ==> multiset(r.correctAnswer)[a] == multiset(q.correctAnswer)[a])
  {
  }

  /** Selecting one of the question's own choices keeps every correct
      answer pointing at an existing choice. */
  lemma SelectChoiceKeepsAnswers(q: Question, index: nat, checked: bool)
    requires index < |q.options|
    requires AnswersWithinChoices(q)
    ensures AnswersWithinChoices(SelectChoice(q, q.options[index].id, checked))
  {
    assert q.options[index].id in ChoiceIds(q.options);
  }

  /** The text input of one choice: only the text of the choice at that
      position changes. */
  function EditChoiceText(q: Question, index: nat, text: string): (r: Question)
    requires index < |q.options|
    ensures |r.options| == |q.options|
    ensures r.options[index].id == q.options[index].id && r.options[index].text == text
    ensures forall j :: 0 <= j < |q.options| && j != index ==> r.options[j] == q.options[j]
    ensures r.(options := q.options) == q
  {
    q.(options := q.options[index := Choice(q.options[index].id, text)])
  }
}
