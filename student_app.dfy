/** The student portal: an in-memory exam list and dark-mode flag (neither
    is loaded or saved), the dashboard, and a notifications page whose list
    is local to it. */
module StudentApp {
  import opened Wrappers
  import CreateExam
  import Notifications
  import ExamStatus

  /** The student app component. `darkClass` stands for the `dark` class
      on the document element. */
  class App {
    var examCards: seq<CreateExam.Exam>
    var darkMode: bool
    var darkClass: bool

    ghost predicate Valid()
      reads this
    {
      darkClass == darkMode
    }

    /** Initial state: no exams, light mode; the effect removes the class. */
    constructor ()
      ensures Valid() && examCards == [] && !darkMode
    {
      examCards := [];
      darkMode := false;
      darkClass := false;
    }

    /** handleExamComplete. */
    method CompleteExam(id: int)
      requires Valid()
      modifies this
      ensures Valid()
      ensures examCards == ExamStatus.CompleteExam(old(examCards), id)
      ensures darkMode == old(darkMode)
    {
      examCards := ExamStatus.CompleteExam(examCards, id);
    }

    /** setDarkMode and its effect on the document class. */
    method SetDarkMode(on: bool)
      modifies this
      ensures Valid() && darkMode == on && darkClass == on
      ensures examCards == old(examCards)
    {
      darkMode := on;
      darkClass := on;
    }
  }

  /** The student dashboard. */
  class DashboardScreen {
    const app: App
    var showExamDetails: Option<int>

    constructor (app: App)
      ensures this.app == app && showExamDetails == None
    {
      this.app := app;
      showExamDetails := None;
    }

    function Stats(): ExamStatus.Stats
      reads this, app
    {
      ExamStatus.DashboardStats(app.examCards)
    }

    function UpcomingShown(): seq<CreateExam.Exam>
      reads this, app
    {
      ExamStatus.Upcoming(app.examCards)
    }

    function CompletedShown(): seq<CreateExam.Exam>
      reads this, app
    {
      ExamStatus.CompletedExams(app.examCards)
    }

    /** toggleExamDetails. */
    method ToggleExamDetails(id: int)
      modifies this
      ensures showExamDetails == ExamStatus.ToggleDetails(old(showExamDetails), id)
    {
      showExamDetails := ExamStatus.ToggleDetails(showExamDetails, id);
    }

    /** handleJoinExam, reachable only through the enabled button of an
        active exam. `confirmed` is the answer to the confirmation dialog:
        the exam is completed only when it is accepted. */
    method JoinExam(id: int, confirmed: bool)
      requires app.Valid()
      requires exists e :: e in app.examCards && e.id == id && ExamStatus.JoinEnabled(e)
      modifies app
      ensures app.Valid() && app.darkMode == old(app.darkMode)
      ensures confirmed ==> app.examCards == ExamStatus.CompleteExam(old(app.examCards), id)
      ensures !confirmed ==> app.examCards == old(app.examCards)
    {
      if confirmed {
        app.CompleteExam(id);
      }
    }
  }

  /** The student notifications page, with its own list that starts empty.
      The handlers exist in the screen but no control calls them. */
  class NotificationsScreen {
    var notifications: seq<Notifications.Notification>
    var showCompose: bool

    constructor ()
      ensures notifications == [] && !showCompose
    {
      notifications := [];
      showCompose := false;
    }

    method MarkAllAsRead()
      modifies this
      ensures notifications == Notifications.MarkAllAsRead(old(notifications))
      ensures showCompose == old(showCompose)
    {
      notifications := Notifications.MarkAllAsRead(notifications);
    }

    method ClearAll()
      modifies this
      ensures notifications == [] && showCompose == old(showCompose)
    {
      notifications := [];
    }

    method MarkAsRead(id: int)
      modifies this
      ensures notifications == Notifications.MarkAsRead(old(notifications), id)
      ensures showCompose == old(showCompose)
    {
      notifications := Notifications.MarkAsRead(notifications, id);
    }

    method DeleteNotification(id: int)
      modifies this
      ensures notifications == Notifications.DeleteNotification(old(notifications), id)
      ensures showCompose == old(showCompose)
    {
      notifications := Notifications.DeleteNotification(notifications, id);
    }

    method AddNotification(d: Notifications.Draft, now: int)
      modifies this
      ensures notifications == Notifications.AddNotification(old(notifications), d, now)
      ensures !showCompose
    {
      notifications := Notifications.AddNotification(notifications, d, now);
      showCompose := false;
    }
  }
}
