/** The teacher portal's top-level state: four state cells loaded from the
    browser's key-value store at startup and written back, each under its
    own key, whenever they change. */
module TeacherApp {
  import opened Wrappers
  import CreateExam
  import Results
  import Notifications

  /** A stored string as JSON.parse reads it: the empty string (which the
      loader treats as missing), text that does not parse, or the encoding
      of one of the four cells. The encoding is modelled as the
      constructors themselves, so it is invertible by construction. */
  datatype Json =
    | Blank
    | Malformed
    | ExamList(exams: seq<CreateExam.Exam>)
    | ResultList(results: seq<Results.ResultRecord>)
    | NotificationList(notifications: seq<Notifications.Notification>)
    | Flag(on: bool)

  /** The browser's key-value store. */
  type Store = map<string, Json>

  const ExamCardsKey := "examCards"
  const ResultsKey := "results"
  const NotificationsKey := "notifications"
  const DarkModeKey := "darkMode"

  /** A stored value that does not decode stops the first render. */
  datatype LoadError = CorruptPersistedState(key: string)

  /** The values of the four state cells. */
  datatype Session = Session(
    examCards: seq<CreateExam.Exam>,
    results: seq<Results.ResultRecord>,
    notifications: seq<Notifications.Notification>,
    darkMode: bool)

  function DecodeExams(j: Json): Option<seq<CreateExam.Exam>>
  {
    if j.ExamList? then Some(j.exams) else None
  }

  function DecodeResults(j: Json): Option<seq<Results.ResultRecord>>
  {
    if j.ResultList? then Some(j.results) else None
  }

  function DecodeNotifications(j: Json): Option<seq<Notifications.Notification>>
  {
    if j.NotificationList? then Some(j.notifications) else None
  }

  function DecodeFlag(j: Json): Option<bool>
  {
    if j.Flag? then Some(j.on) else None
  }

  /** One lazy state initialiser: the default when the key is missing or
      holds the empty string, otherwise the parsed value, and an error when
      it does not parse. */
  function LoadKey<T>(store: Store, key: string, decode: Json -> Option<T>, default: T): Result<T, LoadError>
  {
    if key !in store || store[key] == Blank then Success(default)
    else match decode(store[key])
      case Some(v) => Success(v)
      case None => Failure(CorruptPersistedState(key))
  }

  /** The key holds something other than the empty string. */
  predicate Present(store: Store, key: string)
  {
    key in store && store[key] != Blank
  }

  /** The shape a stored value must have to be adopted under `key`. */
  predicate Fits(key: string, j: Json)
  {
    if key == DarkModeKey then j.Flag?
    else if key == ExamCardsKey then j.ExamList?
    else if key == ResultsKey then j.ResultList?
    else j.NotificationList?
  }

  /** The key holds a value that is not the empty string and does not
      decode, so reading it throws. */
  predicate Corrupt(store: Store, key: string)
  {
    Present(store, key) && !Fits(key, store[key])
  }

  /** Startup: darkMode, examCards, results and notifications are read in
      that order; the first value that fails to parse aborts. Each cell
      starts from its stored value when the key is present and from its
      default otherwise. */
  function Boot(store: Store): (r: Result<Session, LoadError>)
    ensures r.Success? <==>
      !Corrupt(store, DarkModeKey) && !Corrupt(store, ExamCardsKey) &&
      !Corrupt(store, ResultsKey) && !Corrupt(store, NotificationsKey)
    ensures Corrupt(store, DarkModeKey) ==> r == Failure(CorruptPersistedState(DarkModeKey))
    ensures !Corrupt(store, DarkModeKey) && Corrupt(store, ExamCardsKey) ==>
      r == Failure(CorruptPersistedState(ExamCardsKey))
    ensures !Corrupt(store, DarkModeKey) && !Corrupt(store, ExamCardsKey) && Corrupt(store, ResultsKey) ==>
      r == Failure(CorruptPersistedState(ResultsKey))
    ensures (!Corrupt(store, DarkModeKey) && !Corrupt(store, ExamCardsKey) && !Corrupt(store, ResultsKey) &&
             Corrupt(store, NotificationsKey)) ==>
      r == Failure(CorruptPersistedState(NotificationsKey))
    ensures r.Success? ==>
      r.value.darkMode == (if Present(store, DarkModeKey) then store[DarkModeKey].on else false)
    ensures r.Success? ==>
      r.value.examCards == (if Present(store, ExamCardsKey) then store[ExamCardsKey].exams else [])
    ensures r.Success? ==>
      r.value.results == (if Present(store, ResultsKey) then store[ResultsKey].results else [])
    ensures r.Success? ==>
      r.value.notifications ==
        (if Present(store, NotificationsKey) then store[NotificationsKey].notifications else [])
  {
    match LoadKey(store, DarkModeKey, DecodeFlag, false)
    case Failure(e) => Failure(e)
    case Success(dark) =>
      match LoadKey(store, ExamCardsKey, DecodeExams, [])
      case Failure(e) => Failure(e)
      case Success(exams) =>
        match LoadKey(store, ResultsKey, DecodeResults, [])
        case Failure(e) => Failure(e)
        case Success(results) =>
          match LoadKey(store, NotificationsKey, DecodeNotifications, [])
          case Failure(e) => Failure(e)
          case Success(notes) => Success(Session(exams, results, notes, dark))
  }

  /** The store after the four write-back effects have written `s`. */
  function WriteAll(store: Store, s: Session): (r: Store)
    ensures forall k :: k in store && k !in {ExamCardsKey, ResultsKey, NotificationsKey, DarkModeKey} ==>
      k in r && r[k] == store[k]
  {
    store[ExamCardsKey := ExamList(s.examCards)]
         [ResultsKey := ResultList(s.results)]
         [NotificationsKey := NotificationList(s.notifications)]
         [DarkModeKey := Flag(s.darkMode)]
  }

  /** Each of the four keys holds the encoding of its cell. */
  ghost predicate Persisted(store: Store, s: Session)
  {
    && ExamCardsKey in store && store[ExamCardsKey] == ExamList(s.examCards)
    && ResultsKey in store && store[ResultsKey] == ResultList(s.results)
    && NotificationsKey in store && store[NotificationsKey] == NotificationList(s.notifications)
    && DarkModeKey in store && store[DarkModeKey] == Flag(s.darkMode)
  }

  /** A store that mirrors a session restarts into exactly that session. */
  lemma RestartRestoresSession(store: Store, s: Session)
    requires Persisted(store, s)
    ensures Boot(store) == Success(s)
  {
  }

  /** With none of the four keys stored, every cell starts at its default. */
  lemma FreshStoreDefaults(store: Store)
    requires ExamCardsKey !in store && ResultsKey !in store
    requires NotificationsKey !in store && DarkModeKey !in store
    ensures Boot(store) == Success(Session([], [], [], false))
  {
  }

  /** A collection key holding the encoding of its own collection is
      adopted as the initial value, whatever the other keys hold, as long as
      they parse. */
  lemma StoredExamsAdopted(store: Store, exams: seq<CreateExam.Exam>)
    requires ExamCardsKey in store && store[ExamCardsKey] == ExamList(exams)
    requires Boot(store).Success?
    ensures Boot(store).value.examCards == exams
  {
  }

  /** A key whose text does not parse makes startup fail, whatever the
      other keys hold. */
  lemma MalformedKeyFailsStartup(store: Store, key: string)
    requires key in {DarkModeKey, ExamCardsKey, ResultsKey, NotificationsKey}
    requires key in store && store[key] == Malformed
    ensures Boot(store).Failure?
  {
  }

  /** The teacher app component. `darkClass` stands for the `dark` class on
      the document element. */
  class App {
    var examCards: seq<CreateExam.Exam>
    var results: seq<Results.ResultRecord>
    var notifications: seq<Notifications.Notification>
    var darkMode: bool
    var store: Store
    var darkClass: bool

    function Current(): Session
      reads this
    {
      Session(examCards, results, notifications, darkMode)
    }

    /** After every handler the store mirrors the four cells and the
        document carries the dark class exactly in dark mode. */
    ghost predicate Valid()
      reads this
    {
      Persisted(store, Current()) && darkClass == darkMode
    }

    /** First render: the cells take their loaded values, then every effect
        runs once, writing each cell under its key and setting the class. */
    constructor (saved: Store)
      requires Boot(saved).Success?
      ensures Current() == Boot(saved).value
      ensures store == WriteAll(saved, Current())
      ensures darkClass == darkMode
      ensures Valid()
    {
      var s := Boot(saved).value;
      examCards, results, notifications, darkMode := s.examCards, s.results, s.notifications, s.darkMode;
      store := WriteAll(saved, s);
      darkClass := s.darkMode;
    }

    /** setExamCards and the examCards effect: only that key is written. */
    method SetExamCards(v: seq<CreateExam.Exam>)
      requires Valid()
      modifies this
      ensures Valid()
      ensures examCards == v
      ensures results == old(results) && notifications == old(notifications) && darkMode == old(darkMode)
      ensures store == old(store)[ExamCardsKey := ExamList(v)]
    {
      examCards := v;
      store := store[ExamCardsKey := ExamList(v)];
    }

    /** setResults and the results effect. */
    method SetResults(v: seq<Results.ResultRecord>)
      requires Valid()
      modifies this
      ensures Valid()
      ensures results == v
      ensures examCards == old(examCards) && notifications == old(notifications) && darkMode == old(darkMode)
      ensures store == old(store)[ResultsKey := ResultList(v)]
    {
      results := v;
      store := store[ResultsKey := ResultList(v)];
    }

    /** setNotifications and the notifications effect. */
    method SetNotifications(v: seq<Notifications.Notification>)
      requires Valid()
      modifies this
      ensures Valid()
      ensures notifications == v
      ensures examCards == old(examCards) && results == old(results) && darkMode == old(darkMode)
      ensures store == old(store)[NotificationsKey := NotificationList(v)]
    {
      notifications := v;
      store := store[NotificationsKey := NotificationList(v)];
    }

    /** setDarkMode and the darkMode effect: the key and the class follow. */
    method SetDarkMode(on: bool)
      requires Valid()
      modifies this
      ensures Valid()
      ensures darkMode == on && darkClass == on
      ensures examCards == old(examCards) && results == old(results) && notifications == old(notifications)
      ensures store == old(store)[DarkModeKey := Flag(on)]
    {
      darkMode := on;
      store := store[DarkModeKey := Flag(on)];
      darkClass := on;
    }

    /** handleExamPublish: the exam is appended, the list is written at
        once, and the effect writes the same list again. */
    method PublishExam(e: CreateExam.Exam)
      requires Valid()
      modifies this
      ensures Valid()
      ensures examCards == old(examCards) + [e]
      ensures results == old(results) && notifications == old(notifications) && darkMode == old(darkMode)
      ensures store == old(store)[ExamCardsKey := ExamList(old(examCards) + [e])]
    {
      var updated := examCards + [e];
      examCards := updated;
      store := store[ExamCardsKey := ExamList(updated)];
      store := store[ExamCardsKey := ExamList(examCards)];
    }
  }
}
