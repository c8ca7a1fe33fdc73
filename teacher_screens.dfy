/** The teacher screens that change the app's cells: the dashboard, the
    exam builder, the results page and the notifications page. Each keeps
    its own local state and calls the app's setters. */
module TeacherScreens {
  import opened Wrappers
  import QuestionForm
  import CreateExam
  import Results
  import Notifications
  import ExamStatus
  import TeacherApp

  /** The teacher dashboard. */
  class DashboardScreen {
    const app: TeacherApp.App

    constructor (app: TeacherApp.App)
      ensures this.app == app
    {
      this.app := app;
    }

    /** The three status tiles. */
    function Stats(): ExamStatus.Stats
      reads this, app
    {
      ExamStatus.DashboardStats(app.examCards)
    }

    /** handleDeleteExam: filter, set the cell, write the key. */
    method DeleteExam(id: int)
      requires app.Valid()
      modifies app
      ensures app.Valid()
      ensures app.examCards == ExamStatus.DeleteExam(old(app.examCards), id)
      ensures app.results == old(app.results) && app.notifications == old(app.notifications)
      ensures app.darkMode == old(app.darkMode)
      ensures app.store == old(app.store)[TeacherApp.ExamCardsKey := TeacherApp.ExamList(app.examCards)]
    {
      var updated := ExamStatus.DeleteExam(app.examCards, id);
      app.SetExamCards(updated);
    }
  }

  /** The exam builder. `pending` is the exam built at submit time and
      published when the 800 ms timer fires. */
  class CreateExamScreen {
    const app: TeacherApp.App
    var form: CreateExam.ExamForm
    var questions: seq<QuestionForm.Question>
    var isSubmitting: bool
    var pending: Option<CreateExam.Exam>

    ghost predicate Valid()
      reads this
    {
      isSubmitting <==> pending.Some?
    }

    constructor (app: TeacherApp.App)
      ensures Valid() && this.app == app
      ensures form == CreateExam.BlankForm && questions == [] && !isSubmitting
    {
      this.app := app;
      form := CreateExam.BlankForm;
      questions := [];
      isSubmitting := false;
      pending := None;
    }

    /** Typing into the registered inputs. */
    method EditForm(f: CreateExam.ExamForm)
      modifies this
      ensures form == f && questions == old(questions)
      ensures isSubmitting == old(isSubmitting) && pending == old(pending)
    {
      form := f;
    }

    method AddQuestion()
      modifies this
      ensures questions == CreateExam.AddQuestion(old(questions))
      ensures form == old(form) && isSubmitting == old(isSubmitting) && pending == old(pending)
    {
      questions := CreateExam.AddQuestion(questions);
    }

    /** Every handler of a question editor ends here with its new question. */
    method UpdateQuestion(q: QuestionForm.Question)
      modifies this
      ensures questions == CreateExam.UpdateQuestion(old(questions), q)
      ensures form == old(form) && isSubmitting == old(isSubmitting) && pending == old(pending)
    {
      questions := CreateExam.UpdateQuestion(questions, q);
    }

    method RemoveQuestion(id: string)
      modifies this
      ensures questions == CreateExam.RemoveQuestion(old(questions), id)
      ensures form == old(form) && isSubmitting == old(isSubmitting) && pending == old(pending)
    {
      questions := CreateExam.RemoveQuestion(questions, id);
    }

    /** handleCancel: the form is reset and the questions cleared; an exam
        already waiting to be published is not withdrawn. */
    method Cancel()
      modifies this
      ensures form == CreateExam.BlankForm && questions == []
      ensures isSubmitting == old(isSubmitting) && pending == old(pending)
    {
      form := CreateExam.BlankForm;
      questions := [];
    }

    /** A submit click (the button is disabled while submitting). A click
        that the browser's check of the question inputs or the form's rules
        refuse changes nothing; otherwise the exam record is fixed now,
        scheduled and with the current questions. */
    method BeginSubmit(now: int, isoNow: string) returns (accepted: bool)
      requires Valid() && !isSubmitting
      modifies this
      ensures Valid()
      ensures accepted == CreateExam.Submits(old(form), old(questions))
      ensures form == old(form) && questions == old(questions)
      ensures accepted ==> isSubmitting && pending == Some(CreateExam.BuildExam(form, questions, now, isoNow))
      ensures accepted ==> pending.value.status == "scheduled" && pending.value.questions == questions
      ensures !accepted ==> !isSubmitting && pending == None
    {
      accepted := CreateExam.Submits(form, questions);
      if accepted {
        isSubmitting := true;
        pending := Some(CreateExam.BuildExam(form, questions, now, isoNow));
      }
    }

    /** The timer fires: publish, reset the form, clear the questions. */
    method FinishSubmit()
      requires Valid() && isSubmitting && app.Valid()
      modifies this, app
      ensures Valid() && app.Valid()
      ensures app.examCards == old(app.examCards) + [old(pending).value]
      ensures app.store == old(app.store)[TeacherApp.ExamCardsKey := TeacherApp.ExamList(app.examCards)]
      ensures app.results == old(app.results) && app.notifications == old(app.notifications)
      ensures app.darkMode == old(app.darkMode)
      ensures form == CreateExam.BlankForm && questions == [] && !isSubmitting
    {
      app.PublishExam(pending.value);
      form := CreateExam.BlankForm;
      questions := [];
      isSubmitting := false;
      pending := None;
    }
  }

  /** The results page. `chosenFile` is the file input's own selection:
      the input is uncontrolled and exists only while the modal is open, so
      it starts empty each time the modal mounts. */
  class ResultsScreen {
    const app: TeacherApp.App
    var isModalOpen: bool
    var formData: Results.ResultForm
    var chosenFile: Option<Results.FileRef>
    var showDeleteConfirm: bool
    var resultToDelete: Option<Results.ResultRecord>

    /** The delete dialog only shows with a record selected, and no file is
        selected while the modal (and so the input) is not mounted. */
    ghost predicate Valid()
      reads this
    {
      (showDeleteConfirm ==> resultToDelete.Some?) && (!isModalOpen ==> chosenFile == None)
    }

    constructor (app: TeacherApp.App)
      ensures Valid() && this.app == app
      ensures !isModalOpen && formData == Results.EmptyForm && chosenFile == None
      ensures !showDeleteConfirm && resultToDelete == None
    {
      this.app := app;
      isModalOpen := false;
      formData := Results.EmptyForm;
      chosenFile := None;
      showDeleteConfirm := false;
      resultToDelete := None;
    }

    /** "Create Result" opens the modal on whatever the form holds; the
        file input mounts with nothing selected. */
    method OpenModal()
      requires Valid()
      modifies this
      ensures Valid()
      ensures isModalOpen && formData == old(formData)
      ensures old(isModalOpen) ==> chosenFile == old(chosenFile)
      ensures !old(isModalOpen) ==> chosenFile == None
      ensures showDeleteConfirm == old(showDeleteConfirm) && resultToDelete == old(resultToDelete)
    {
      isModalOpen := true;
    }

    /** The close and cancel buttons: the form is kept, the file input
        unmounts. */
    method CloseModal()
      requires Valid()
      modifies this
      ensures Valid()
      ensures !isModalOpen && formData == old(formData) && chosenFile == None
      ensures showDeleteConfirm == old(showDeleteConfirm) && resultToDelete == old(resultToDelete)
    {
      isModalOpen := false;
      chosenFile := None;
    }

    /** The name, type and date inputs. */
    method EditText(examName: string, examType: string, examDate: string)
      modifies this
      ensures formData == old(formData).(examName := examName, examType := examType, examDate := examDate)
      ensures isModalOpen == old(isModalOpen) && chosenFile == old(chosenFile)
      ensures showDeleteConfirm == old(showDeleteConfirm) && resultToDelete == old(resultToDelete)
    {
      formData := formData.(examName := examName, examType := examType, examDate := examDate);
    }

    /** handleFileChange: the input's selection (`None` when the dialog is
        dismissed) goes into the form and stays in the input. */
    method ChooseFile(file: Option<Results.FileRef>)
      requires Valid() && isModalOpen
      modifies this
      ensures Valid()
      ensures formData == old(formData).(file := file) && chosenFile == file
      ensures isModalOpen
      ensures showDeleteConfirm == old(showDeleteConfirm) && resultToDelete == old(resultToDelete)
    {
      formData := formData.(file := file);
      chosenFile := file;
    }

    /** handleSubmit. The browser blocks a form that is not submittable;
        otherwise one record is appended, the modal closes and the form
        resets. */
    method Submit(now: int) returns (accepted: bool)
      requires Valid() && isModalOpen && app.Valid()
      modifies this, app
      ensures Valid() && app.Valid()
      ensures accepted == Results.Submittable(old(formData), old(chosenFile))
      ensures accepted ==> app.results == Results.SubmitResult(old(app.results), old(formData), now)
      ensures accepted ==> !isModalOpen && formData == Results.EmptyForm && chosenFile == None
      ensures !accepted ==> app.results == old(app.results) && formData == old(formData)
      ensures !accepted ==> isModalOpen && chosenFile == old(chosenFile)
      ensures accepted ==> app.store == old(app.store)[TeacherApp.ResultsKey := TeacherApp.ResultList(app.results)]
      ensures !accepted ==> app.store == old(app.store)
      ensures app.examCards == old(app.examCards) && app.notifications == old(app.notifications)
      ensures app.darkMode == old(app.darkMode)
      ensures showDeleteConfirm == old(showDeleteConfirm) && resultToDelete == old(resultToDelete)
    {
      accepted := Results.Submittable(formData, chosenFile);
      if accepted {
        app.SetResults(Results.SubmitResult(app.results, formData, now));
        isModalOpen := false;
        formData := Results.EmptyForm;
        chosenFile := None;
      }
    }

    /** handleEdit: the form takes the record, id included, and opens. */
    method Edit(r: Results.ResultRecord)
      requires Valid()
      modifies this
      ensures Valid()
      ensures formData == Results.FormOf(r) && isModalOpen
      ensures !old(isModalOpen) ==> chosenFile == None
      ensures showDeleteConfirm == old(showDeleteConfirm) && resultToDelete == old(resultToDelete)
    {
      formData := Results.FormOf(r);
      isModalOpen := true;
    }

    /** handleDelete: select the record and ask for confirmation. */
    method AskDelete(r: Results.ResultRecord)
      requires Valid()
      modifies this
      ensures Valid()
      ensures resultToDelete == Some(r) && showDeleteConfirm
      ensures formData == old(formData) && isModalOpen == old(isModalOpen) && chosenFile == old(chosenFile)
    {
      resultToDelete := Some(r);
      showDeleteConfirm := true;
    }

    method CancelDelete()
      requires Valid()
      modifies this
      ensures Valid() && !showDeleteConfirm && resultToDelete == old(resultToDelete)
      ensures formData == old(formData) && isModalOpen == old(isModalOpen) && chosenFile == old(chosenFile)
    {
      showDeleteConfirm := false;
    }

    /** confirmDelete: drop every record with the selected id, close the
        dialog and clear the selection. */
    method ConfirmDelete()
      requires Valid() && showDeleteConfirm && app.Valid()
      modifies this, app
      ensures Valid() && app.Valid()
      ensures app.results == Results.DeleteResult(old(app.results), old(resultToDelete).value)
      ensures app.store == old(app.store)[TeacherApp.ResultsKey := TeacherApp.ResultList(app.results)]
      ensures app.examCards == old(app.examCards) && app.notifications == old(app.notifications)
      ensures app.darkMode == old(app.darkMode)
      ensures !showDeleteConfirm && resultToDelete == None
      ensures formData == old(formData) && isModalOpen == old(isModalOpen) && chosenFile == old(chosenFile)
    {
      app.SetResults(Results.DeleteResult(app.results, resultToDelete.value));
      showDeleteConfirm := false;
      resultToDelete := None;
    }
  }

  /** The teacher notifications page; the list lives in the app. */
  class NotificationsScreen {
    const app: TeacherApp.App
    var showCompose: bool

    constructor (app: TeacherApp.App)
      ensures this.app == app && !showCompose
    {
      this.app := app;
      showCompose := false;
    }

    /** The unread count shown above the list. */
    function UnreadShown(): nat
      reads this, app
    {
      Notifications.UnreadCount(app.notifications)
    }

    method OpenCompose()
      modifies this
      ensures showCompose
    {
      showCompose := true;
    }

    method CloseCompose()
      modifies this
      ensures !showCompose
    {
      showCompose := false;
    }

    method MarkAllAsRead()
      requires app.Valid()
      modifies app
      ensures app.Valid()
      ensures app.notifications == Notifications.MarkAllAsRead(old(app.notifications))
      ensures app.examCards == old(app.examCards) && app.results == old(app.results)
      ensures app.darkMode == old(app.darkMode)
      ensures app.store == old(app.store)[TeacherApp.NotificationsKey := TeacherApp.NotificationList(app.notifications)]
    {
      app.SetNotifications(Notifications.MarkAllAsRead(app.notifications));
    }

    method ClearAll()
      requires app.Valid()
      modifies app
      ensures app.Valid()
      ensures app.notifications == []
      ensures app.examCards == old(app.examCards) && app.results == old(app.results)
      ensures app.darkMode == old(app.darkMode)
      ensures app.store == old(app.store)[TeacherApp.NotificationsKey := TeacherApp.NotificationList(app.notifications)]
    {
      app.SetNotifications([]);
    }

    method MarkAsRead(id: int)
      requires app.Valid()
      modifies app
      ensures app.Valid()
      ensures app.notifications == Notifications.MarkAsRead(old(app.notifications), id)
      ensures app.examCards == old(app.examCards) && app.results == old(app.results)
      ensures app.darkMode == old(app.darkMode)
      ensures app.store == old(app.store)[TeacherApp.NotificationsKey := TeacherApp.NotificationList(app.notifications)]
    {
      app.SetNotifications(Notifications.MarkAsRead(app.notifications, id));
    }

    method DeleteNotification(id: int)
      requires app.Valid()
      modifies app
      ensures app.Valid()
      ensures app.notifications == Notifications.DeleteNotification(old(app.notifications), id)
      ensures app.examCards == old(app.examCards) && app.results == old(app.results)
      ensures app.darkMode == old(app.darkMode)
      ensures app.store == old(app.store)[TeacherApp.NotificationsKey := TeacherApp.NotificationList(app.notifications)]
    {
      app.SetNotifications(Notifications.DeleteNotification(app.notifications, id));
    }

    /** The compose form's submit. The browser refuses it unless every
        required field is filled, and then nothing changes; otherwise
        addNotification prepends the record and the form closes. */
    method AddNotification(d: Notifications.Draft, now: int) returns (accepted: bool)
      requires showCompose && app.Valid()
      modifies this, app
      ensures app.Valid()
      ensures accepted == Notifications.ComposeSubmittable(d)
      ensures accepted ==> app.notifications == Notifications.AddNotification(old(app.notifications), d, now)
      ensures accepted ==> !showCompose
      ensures accepted ==>
        app.store == old(app.store)[TeacherApp.NotificationsKey := TeacherApp.NotificationList(app.notifications)]
      ensures !accepted ==> app.notifications == old(app.notifications) && app.store == old(app.store)
      ensures !accepted ==> showCompose
      ensures app.examCards == old(app.examCards) && app.results == old(app.results)
      ensures app.darkMode == old(app.darkMode)
    {
      accepted := Notifications.ComposeSubmittable(d);
      if accepted {
        app.SetNotifications(Notifications.AddNotification(app.notifications, d, now));
        showCompose := false;
      }
    }
  }
}
