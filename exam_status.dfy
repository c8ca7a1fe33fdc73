/** What the two dashboards and the student app compute from the exam
    list: counts by status, deletion, completion, the upcoming/completed
    split, the detail toggle and the join rule. */
module ExamStatus {
  import opened Wrappers
  import Seqs
  import opened CreateExam
  import opened QuestionForm

  const Scheduled := "scheduled"
  const Active := "active"
  const Completed := "completed"

  /** How many exams carry status `st`. */
  function CountStatus(exams: seq<Exam>, st: string): (n: nat)
    ensures n <= |exams|
    ensures n == 0 <==> forall e :: e in exams ==> e.status != st
  {
    Seqs.Count(exams, (e: Exam) => e.status == st)
  }

  /** The three dashboard tiles: scheduled, active and completed counts. */
  datatype Stats = Stats(scheduled: nat, active: nat, completed: nat)

  function DashboardStats(exams: seq<Exam>): Stats
  {
    Stats(CountStatus(exams, Scheduled), CountStatus(exams, Active), CountStatus(exams, Completed))
  }

  predicate KnownStatus(e: Exam)
  {
    e.status == Scheduled || e.status == Active || e.status == Completed
  }

  /** The three tiles never add up to more than the list, and they add up to
      exactly its length when every status is one of the three. */
  lemma {:induction false} StatsSumBound(exams: seq<Exam>)
    ensures var s := DashboardStats(exams);
      s.scheduled + s.active + s.completed <= |exams|
    ensures var s := DashboardStats(exams);
      s.scheduled + s.active + s.completed == |exams| <==> forall e :: e in exams ==> KnownStatus(e)
  {
    if exams != [] {
      var rest := exams[1..];
      StatsSumBound(rest);
      CountStatusStep(exams, Scheduled);
      CountStatusStep(exams, Active);
      CountStatusStep(exams, Completed);
      var s, t := DashboardStats(exams), DashboardStats(rest);
      var head := (if KnownStatus(exams[0]) then 1 else 0);
      assert s.scheduled + s.active + s.completed == head + t.scheduled + t.active + t.completed;
      assert (forall e :: e in exams ==> KnownStatus(e)) <==>
             KnownStatus(exams[0]) && (forall e :: e in rest ==> KnownStatus(e)) by {
        assert forall e :: e in exams <==> e == exams[0] || e in rest;
      }
    }
  }

  /** Counting peels off the first exam. */
  lemma CountStatusStep(exams: seq<Exam>, st: string)
    requires exams != []
    ensures CountStatus(exams, st) == (if exams[0].status == st then 1 else 0) + CountStatus(exams[1..], st)
  {
  }

  /** A published exam shows up in the Scheduled tile: publishing raises
      that count by one and leaves the other two as they were. */
  lemma PublishedExamIsScheduled(exams: seq<Exam>, f: ExamForm, qs: seq<Question>, now: int, isoNow: string)
    ensures var s, t := DashboardStats(exams + [BuildExam(f, qs, now, isoNow)]), DashboardStats(exams);
      s.scheduled == t.scheduled + 1 && s.active == t.active && s.completed == t.completed
  {
    var e := BuildExam(f, qs, now, isoNow);
    Seqs.FilterAppend(exams, [e], (x: Exam) => x.status == Scheduled);
    Seqs.FilterAppend(exams, [e], (x: Exam) => x.status == Active);
    Seqs.FilterAppend(exams, [e], (x: Exam) => x.status == Completed);
    Seqs.FilterOne(e, (x: Exam) => x.status == Scheduled);
    Seqs.FilterOne(e, (x: Exam) => x.status == Active);
    Seqs.FilterOne(e, (x: Exam) => x.status == Completed);
  }

  /** handleDeleteExam's list: an order-preserving filter on the id. */
  function DeleteExam(exams: seq<Exam>, id: int): (r: seq<Exam>)
    ensures Seqs.IsSubsequence(r, exams)
    ensures forall x :: multiset(r)[x] == if x.id != id then multiset(exams)[x] else 0
  {
    Seqs.Filter(exams, (e: Exam) => e.id != id)
  }

  lemma DeleteExamIdempotent(exams: seq<Exam>, id: int)
    ensures DeleteExam(DeleteExam(exams, id), id) == DeleteExam(exams, id)
  {
    Seqs.FilterIdempotent(exams, (e: Exam) => e.id != id);
  }

  lemma DeleteUnknownExamKeepsList(exams: seq<Exam>, id: int)
    requires forall e :: e in exams ==> e.id != id
    ensures DeleteExam(exams, id) == exams
  {
    Seqs.FilterKeepsAll(exams, (e: Exam) => e.id != id);
  }

  /** handleExamComplete's list: exams with that id are marked completed,
      nothing else changes. */
  function CompleteExam(exams: seq<Exam>, id: int): (r: seq<Exam>)
    ensures |r| == |exams|
    ensures forall i :: 0 <= i < |exams| ==>
      if exams[i].id == id then r[i].status == Completed && r[i].(status := exams[i].status) == exams[i]
      else r[i] == exams[i]
  {
    if exams == [] then []
    else [if exams[0].id == id then exams[0].(status := Completed) else exams[0]] + CompleteExam(exams[1..], id)
  }

  lemma CompleteUnknownExamKeepsList(exams: seq<Exam>, id: int)
    requires forall e :: e in exams ==> e.id != id
    ensures CompleteExam(exams, id) == exams
  {
    var r := CompleteExam(exams, id);
    forall i | 0 <= i < |exams| ensures r[i] == exams[i] {
      assert exams[i] in exams;
    }
  }

  lemma CompleteExamIdempotent(exams: seq<Exam>, id: int)
    ensures CompleteExam(CompleteExam(exams, id), id) == CompleteExam(exams, id)
  {
    var once := CompleteExam(exams, id);
    var twice := CompleteExam(once, id);
    forall i | 0 <= i < |exams| ensures twice[i] == once[i] {
      assert once[i].id != id || once[i].(status := Completed) == once[i];
    }
  }

  /** The student dashboard's "upcoming" list: exams not completed. */
  function Upcoming(exams: seq<Exam>): (r: seq<Exam>)
    ensures Seqs.IsSubsequence(r, exams)
    ensures forall e :: e in r <==> e in exams && e.status != Completed
  {
    Seqs.Filter(exams, (e: Exam) => e.status != Completed)
  }

  /** The student dashboard's "completed" list. */
  function CompletedExams(exams: seq<Exam>): (r: seq<Exam>)
    ensures Seqs.IsSubsequence(r, exams)
    ensures forall e :: e in r <==> e in exams && e.status == Completed
  {
    Seqs.Filter(exams, (e: Exam) => e.status == Completed)
  }

  /** The two lists partition the exams: each exam is in exactly one of
      them, with its multiplicity, and their lengths add up to the total. */
  lemma UpcomingCompletedPartition(exams: seq<Exam>)
    ensures |Upcoming(exams)| + |CompletedExams(exams)| == |exams|
    ensures multiset(Upcoming(exams)) + multiset(CompletedExams(exams)) == multiset(exams)
    ensures forall e :: e in exams ==> (e in Upcoming(exams) <==> e !in CompletedExams(exams))
  {
    Seqs.FilterSplit(exams, (e: Exam) => e.status != Completed, (e: Exam) => e.status == Completed);
  }

  /** toggleExamDetails: the details panel shows at most one exam; clicking
      the open one closes it, clicking another opens that one. */
  function ToggleDetails(open: Option<int>, id: int): (r: Option<int>)
    ensures r == Some(id) <==> open != Some(id)
    ensures r.Some? ==> r.value == id
  {
    if open == Some(id) then None else Some(id)
  }

  /** Two clicks on the same exam restore the panel when it was closed or
      showing that exam; when another exam was open they close it instead. */
  lemma ToggleTwice(open: Option<int>, id: int)
    ensures open == None || open == Some(id) ==> ToggleDetails(ToggleDetails(open, id), id) == open
    ensures open.Some? && open.value != id ==> ToggleDetails(ToggleDetails(open, id), id) == None
  {
  }

  /** The join button is enabled exactly for an active exam. */
  predicate JoinEnabled(e: Exam)
  {
    e.status == Active
  }
}
