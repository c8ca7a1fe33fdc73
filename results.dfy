/** The teacher's result uploads: the create/edit form and the list of
    result records. */
module Results {
  import opened Wrappers
  import Seqs

  /** The chosen upload; only its name is modelled. */
  datatype FileRef = FileRef(name: string)

  /** A stored result. */
  datatype ResultRecord = ResultRecord(
    id: int,
    examName: string,
    examType: string,
    examDate: string,
    file: Option<FileRef>,
    fileName: string)

  /** The form state. `id` is set only when the form was filled from an
      existing record by the edit button. */
  datatype ResultForm = ResultForm(
    id: Option<int>,
    examName: string,
    examType: string,
    examDate: string,
    file: Option<FileRef>)

  /** The initial form and the one every submit resets to. */
  const EmptyForm := ResultForm(None, "", "Unit", "", None)

  /** handleEdit: the form is filled with the record, id included. */
  function FormOf(r: ResultRecord): ResultForm
  {
    ResultForm(Some(r.id), r.examName, r.examType, r.examDate, r.file)
  }

  /** The form carries an id the way `!formData.id` reads it: present and
      not zero. */
  predicate HasId(f: ResultForm)
  {
    f.id.Some? && f.id.value != 0
  }

  /** The browser's own check of the modal's form: the name and date
      inputs show the form's values and are required, and the file input
      is required unless the form carries an id. The file input keeps its
      own selection, `chosen`, which starts empty each time the modal
      mounts, whatever the form state still holds. */
  predicate Submittable(f: ResultForm, chosen: Option<FileRef>)
  {
    f.examName != "" && f.examDate != "" && (HasId(f) || chosen.Some?)
  }

  /** The record handleSubmit builds: a fresh id that the form's own id, if
      any, overrides, the form fields, and the file's name or the text
      "No file uploaded". */
  function NewResult(f: ResultForm, now: int): (r: ResultRecord)
    ensures r.id == (if f.id.Some? then f.id.value else now)
    ensures r.examName == f.examName && r.examType == f.examType && r.examDate == f.examDate
    ensures r.file == f.file
    ensures r.fileName == if f.file.Some? then f.file.value.name else "No file uploaded"
  {
    var id := match f.id case Some(given) => given case None => now;
    ResultRecord(id, f.examName, f.examType, f.examDate, f.file,
                 match f.file case Some(file) => file.name case None => "No file uploaded")
  }

  /** handleSubmit's list: the new record appended after the unchanged old
      ones, never replacing anything. */
  function SubmitResult(rs: seq<ResultRecord>, f: ResultForm, now: int): (r: seq<ResultRecord>)
    ensures |r| == |rs| + 1 && r[..|rs|] == rs && r[|rs|] == NewResult(f, now)
  {
    rs + [NewResult(f, now)]
  }

  /** confirmDelete's list: every record with the selected record's id is
      dropped, the rest keep their order. */
  function DeleteResult(rs: seq<ResultRecord>, selected: ResultRecord): (r: seq<ResultRecord>)
    ensures Seqs.IsSubsequence(r, rs)
    ensures forall x :: multiset(r)[x] == if x.id != selected.id then multiset(rs)[x] else 0
    ensures selected !in r
  {
    Seqs.Filter(rs, (x: ResultRecord) => x.id != selected.id)
  }

  /** Submitting an edited record appends a second record with the same
      id instead of replacing the first. */
  lemma EditThenSubmitDuplicatesId(rs: seq<ResultRecord>, i: nat, f: ResultForm, now: int)
    requires i < |rs|
    requires f.id == FormOf(rs[i]).id
    ensures var r := SubmitResult(rs, f, now);
      |r| == |rs| + 1 && r[i] == rs[i] && r[|rs|].id == rs[i].id
  {
    var r := SubmitResult(rs, f, now);
    assert r[i] == r[..|rs|][i];
  }

  /** Resubmitting a record without changing its form reproduces it
      exactly, so the list then holds two equal entries. */
  lemma ResubmitUnchangedCopies(f: ResultForm, t: int, now: int)
    ensures NewResult(FormOf(NewResult(f, t)), now) == NewResult(f, t)
  {
  }

  /** The edit form needs no file; a create form needs one chosen in the
      file input as it is now mounted. */
  lemma FileRequiredOnlyWhenCreating(r: ResultRecord, file: FileRef)
    requires r.examName != "" && r.examDate != "" && r.id != 0
    ensures Submittable(FormOf(r), None)
    ensures !Submittable(FormOf(r).(id := None), None)
    ensures Submittable(FormOf(r).(id := None), Some(file))
  {
  }

  /** A create form whose state still holds a file is refused once the
      file input has been remounted empty. */
  lemma RemountedInputRefusesKeptFile(f: ResultForm)
    requires f.id.None? && f.file.Some? && f.examName != "" && f.examDate != ""
    ensures !Submittable(f, None) && Submittable(f, f.file)
  {
  }

  lemma DeleteResultIdempotent(rs: seq<ResultRecord>, selected: ResultRecord)
    ensures DeleteResult(DeleteResult(rs, selected), selected) == DeleteResult(rs, selected)
  {
    Seqs.FilterIdempotent(rs, (x: ResultRecord) => x.id != selected.id);
  }

  /** Deleting one of the twin entries an edit made removes both. */
  lemma DeleteRemovesTwins(rs: seq<ResultRecord>, f: ResultForm, i: nat, now: int)
    requires i < |rs| && f.id == FormOf(rs[i]).id
    ensures var r := DeleteResult(SubmitResult(rs, f, now), rs[i]);
      forall x :: x in r ==> x.id != rs[i].id
  {
  }
}
