# ExamEase state model in Dafny

ExamEase is made of two single-page portals, one for teachers and one for students, built from
React components. All of the logic lives in component state. The teacher app keeps four state
cells (`examCards`, `results`, `notifications`, `darkMode`). It loads them from the browser's
key-value store at startup and writes each one back under its own key whenever it changes. The
screens rebuild these lists with `map`, `filter` and spreads and hand the new list to a setter.
The student app keeps an exam list and a dark-mode flag in memory only.

This project models:

- the teacher app's state and its persistence (`TeacherApp`);
- the teacher screens that change that state (`TeacherScreens`): the dashboard, the exam
  builder, the results page and the notifications page;
- the student app, its dashboard and its local notifications page (`StudentApp`);
- the pure list and record operations underneath all of them (`Notifications`, `Results`,
  `CreateExam`, `QuestionForm`, `ExamStatus`);
- the relative-time label of a notification card (`NotificationCard`);
- the teacher header's page title (`Header`).

`Seqs` holds the order-preserving filter that every list operation uses. Its contract says the
result is a subsequence of the input and gives each element's multiplicity (the input's if kept,
zero otherwise). Those two facts pin the result down completely. `Decimal` renders integers the
way a template literal does. It also parses them back, which proves that ids like `question-3`
and `option-3` differ whenever their numbers differ.

How the model is built:

- Components whose state changes are classes. Each setter is a method whose `ensures` gives
  every cell's new value. The teacher app's object invariant says that each of the four keys
  holds the encoding of its cell, and that the document carries the `dark` class exactly in dark
  mode.
- The store is a `map<string, Json>`. `Json` stands for what `JSON.parse` makes of a stored
  string: the empty string, unparseable text, or the encoding of one cell.
- Clock readings (`Date.now()`, `new Date().toISOString()`, the current time of a
  notification card) and the answer to `window.confirm` are method parameters.

Behaviours of the code that a reader might not expect, which the model keeps:

- A stored value that does not parse makes the first render throw; nothing resets that key.
  `Boot` returns `Failure(CorruptPersistedState(key))`.
- Editing a result does not replace it. The edited record is appended with the old id, so the
  list then holds two records with that id.
- Exam status changes only in the student app, which neither loads nor saves anything.
- New notifications are labelled `"Just now"` rather than given a date.
- Ids are clock values supplied by the caller. The model makes no uniqueness claim that the
  code does not support.

## Model

| member | source | states |
|---|---|---|
| TeacherApp.Boot | examease-teacher/project/src/App.jsx:32-54 | startup succeeds exactly when none of the four keys holds a non-empty value of the wrong shape; otherwise it fails naming the first such key in the read order darkMode, examCards, results, notifications; on success each cell is its stored value when its key is present and not empty, and its default (empty list, light mode) otherwise |
| TeacherApp.WriteAll | examease-teacher/project/src/App.jsx:57-74 | writing the four cells leaves every other key of the store as it was |
| TeacherApp.RestartRestoresSession | examease-teacher/project/src/App.jsx:32-69 | a store whose four keys hold a session's encodings starts up into exactly that session (round trip) |
| TeacherApp.FreshStoreDefaults | examease-teacher/project/src/App.jsx:32-54 | with none of the keys stored, the lists start empty and dark mode starts off |
| TeacherApp.StoredExamsAdopted | examease-teacher/project/src/App.jsx:39-42 | a successful startup takes the examCards list exactly as stored |
| TeacherApp.MalformedKeyFailsStartup | examease-teacher/project/src/App.jsx:32-54 | a key that does not parse makes startup fail |
| TeacherApp.App.constructor | examease-teacher/project/src/App.jsx:32-81 | the cells take the loaded values; the mount effects then write all four keys and set the dark class, which establishes the mirror invariant |
| TeacherApp.App.SetExamCards | examease-teacher/project/src/App.jsx:57-59 | the cell takes the new list and only the examCards key is rewritten; the other three cells are unchanged |
| TeacherApp.App.SetResults | examease-teacher/project/src/App.jsx:62-64 | the cell takes the new list and only the results key is rewritten |
| TeacherApp.App.SetNotifications | examease-teacher/project/src/App.jsx:67-69 | the cell takes the new list and only the notifications key is rewritten |
| TeacherApp.App.SetDarkMode | examease-teacher/project/src/App.jsx:72-81 | the flag, its key and the document's dark class all take the new value |
| TeacherApp.App.PublishExam | examease-teacher/project/src/App.jsx:83-88 | the exam list becomes the old list plus the exam at the end, and the store's examCards key holds exactly that list |
| Notifications.UnreadCount | examease-teacher/project/src/components/Notifications.jsx:150 | the count is at most the list length, and it is zero exactly when no record is unread |
| Notifications.MarkAllAsRead | examease-teacher/project/src/components/Notifications.jsx:51-56 | same length and order; every record is read and its other fields are unchanged |
| Notifications.MarkAllAsReadIdempotent | examease-teacher/project/src/components/Notifications.jsx:51-56 | marking all twice equals marking all once |
| Notifications.MarkAllAsReadClearsCount | examease-teacher/project/src/components/Notifications.jsx:150 | after mark-all the unread count is zero |
| Notifications.MarkAsRead | examease-teacher/project/src/components/Notifications.jsx:62-66 | records with the id become read with their other fields unchanged; every other record is identical; the length is kept |
| Notifications.MarkAsReadUnknownId | examease-teacher/project/src/components/Notifications.jsx:62-66 | an id that no record carries leaves the list unchanged |
| Notifications.MarkAsReadIdempotent | examease-teacher/project/src/components/Notifications.jsx:62-66 | marking one id twice equals marking it once |
| Notifications.DeleteNotification | examease-teacher/project/src/components/Notifications.jsx:68-70 | the result is a subsequence of the list holding exactly the records whose id differs, with their multiplicities |
| Notifications.DeleteNotificationIdempotent | examease-teacher/project/src/components/Notifications.jsx:68-70 | deleting twice equals deleting once |
| Notifications.DeleteUnknownIdKeepsList | examease-teacher/project/src/components/Notifications.jsx:68-70 | deleting an absent id changes nothing |
| Notifications.AddNotification | examease-teacher/project/src/components/Notifications.jsx:72-81 | the new record comes first and the old list follows unchanged; it is unread, labelled "Just now", carries the fresh id and the compose fields |
| Notifications.AddNotificationRaisesCount | examease-teacher/project/src/components/Notifications.jsx:150 | adding raises the unread count by exactly one |
| Notifications.ComposeSubmittable | examease-teacher/project/src/components/Notifications.jsx:262-316 | the browser lets the compose submit through exactly when from, to, title and message are all non-empty |
| Notifications.ComposeRulesEachNeeded | examease-teacher/project/src/components/Notifications.jsx:286-316 | each of the four required fields is needed on its own, and the type select does not gate the submit |
| Notifications.ComposedRecordComplete | examease-teacher/project/src/components/Notifications.jsx:254-265 | a record added through the compose form has non-empty from, to, title and message |
| TeacherScreens.NotificationsScreen.constructor | examease-teacher/project/src/components/Notifications.jsx:23 | the compose form starts closed |
| TeacherScreens.NotificationsScreen.OpenCompose | examease-teacher/project/src/components/Notifications.jsx:133 | the compose form opens |
| TeacherScreens.NotificationsScreen.CloseCompose | examease-teacher/project/src/components/Notifications.jsx:250 | the compose form closes |
| TeacherScreens.NotificationsScreen.MarkAllAsRead | examease-teacher/project/src/components/Notifications.jsx:51-56 | the app's list becomes MarkAllAsRead of the old one and only its key in the store is rewritten; no other cell changes |
| TeacherScreens.NotificationsScreen.ClearAll | examease-teacher/project/src/components/Notifications.jsx:58-60 | the app's list becomes empty and only its key in the store is rewritten; no other cell changes |
| TeacherScreens.NotificationsScreen.MarkAsRead | examease-teacher/project/src/components/Notifications.jsx:62-66 | the app's list becomes MarkAsRead of the old one and only its key in the store is rewritten |
| TeacherScreens.NotificationsScreen.DeleteNotification | examease-teacher/project/src/components/Notifications.jsx:68-70 | the app's list becomes the filtered list and only its key in the store is rewritten |
| TeacherScreens.NotificationsScreen.AddNotification | examease-teacher/project/src/components/Notifications.jsx:245-318 | from the open form, the submit goes through exactly when ComposeSubmittable holds; then the record is prepended, only the notifications key is rewritten and the form closes; a refused submit changes nothing and the form stays open |
| StudentApp.NotificationsScreen.constructor | examease-student/project/src/components/Notifications.jsx:22-23 | the local list starts empty and the compose flag starts off |
| StudentApp.NotificationsScreen.MarkAllAsRead | examease-student/project/src/components/Notifications.jsx:49-54 | the local list becomes MarkAllAsRead of the old one |
| StudentApp.NotificationsScreen.ClearAll | examease-student/project/src/components/Notifications.jsx:56-58 | the local list becomes empty |
| StudentApp.NotificationsScreen.MarkAsRead | examease-student/project/src/components/Notifications.jsx:60-64 | the local list becomes MarkAsRead of the old one |
| StudentApp.NotificationsScreen.DeleteNotification | examease-student/project/src/components/Notifications.jsx:66-68 | the local list becomes the order-preserving filter on the id |
| StudentApp.NotificationsScreen.AddNotification | examease-student/project/src/components/Notifications.jsx:70-81 | the new unread record is prepended to the local list and the compose flag is cleared |
| Results.NewResult | examease-teacher/project/src/components/Results.jsx:50-54 | the record's id is the form's own id when it has one, otherwise the fresh id; the form fields are copied; fileName is the file's name, or "No file uploaded" when there is no file |
| Results.SubmitResult | examease-teacher/project/src/components/Results.jsx:55 | exactly one record is appended at the end and the earlier records are unchanged |
| Results.DeleteResult | examease-teacher/project/src/components/Results.jsx:81 | every record with the selected record's id is dropped and the rest keep their order and multiplicity |
| Results.EditThenSubmitDuplicatesId | examease-teacher/project/src/components/Results.jsx:50-72 | submitting a form filled by the edit button keeps the original record and appends one with the same id |
| Results.ResubmitUnchangedCopies | examease-teacher/project/src/components/Results.jsx:50-72 | resubmitting an untouched edit form reproduces the record exactly |
| Results.FormOf | examease-teacher/project/src/components/Results.jsx:70-73 | the edit form built from a record, id and file included; ResubmitUnchangedCopies is its round trip |
| Results.Submittable | examease-teacher/project/src/components/Results.jsx:228-281 | the browser's check of the modal's form: name and date non-empty, and a file selected in the input unless the form's id is present and non-zero |
| Results.FileRequiredOnlyWhenCreating | examease-teacher/project/src/components/Results.jsx:280 | an edit form with a name and a date can be submitted without a file; the same form without an id needs a file selected in the input, and is accepted with one |
| Results.RemountedInputRefusesKeptFile | examease-teacher/project/src/components/Results.jsx:214-281 | a create form whose state still holds a file is refused while the remounted input is empty, and accepted once the file is chosen again |
| Results.DeleteResultIdempotent | examease-teacher/project/src/components/Results.jsx:81 | a second delete of the same selection changes nothing |
| Results.DeleteRemovesTwins | examease-teacher/project/src/components/Results.jsx:80-84 | deleting after an edit-resubmit removes both records that share the id |
| TeacherScreens.ResultsScreen.constructor | examease-teacher/project/src/components/Results.jsx:27-35 | the modal is closed, the form is empty (type "Unit"), no file is chosen, and there is no selection and no dialog |
| TeacherScreens.ResultsScreen.OpenModal | examease-teacher/project/src/components/Results.jsx:132 | the modal opens on whatever the form already holds, and a newly mounted file input has nothing selected |
| TeacherScreens.ResultsScreen.CloseModal | examease-teacher/project/src/components/Results.jsx:222 | the modal closes, the form is kept, and the file input's selection is gone with the input |
| TeacherScreens.ResultsScreen.EditText | examease-teacher/project/src/components/Results.jsx:237-264 | the name, type and date fields change; the id, the file and the file input are kept |
| TeacherScreens.ResultsScreen.ChooseFile | examease-teacher/project/src/components/Results.jsx:65-68 | the selection goes into both the form and the file input |
| TeacherScreens.ResultsScreen.Submit | examease-teacher/project/src/components/Results.jsx:48-63 | accepted exactly when the form with the input's current selection is submittable; a refused click changes nothing, the store included; otherwise the record is appended, only the results key is rewritten, the modal closes and the form resets to its empty values |
| TeacherScreens.ResultsScreen.Edit | examease-teacher/project/src/components/Results.jsx:70-73 | the form takes the record, id included, and the modal opens with an empty file input |
| TeacherScreens.ResultsScreen.AskDelete | examease-teacher/project/src/components/Results.jsx:75-78 | the record is selected and the dialog shows |
| TeacherScreens.ResultsScreen.CancelDelete | examease-teacher/project/src/components/Results.jsx:331 | the dialog closes |
| TeacherScreens.ResultsScreen.ConfirmDelete | examease-teacher/project/src/components/Results.jsx:80-84 | the list becomes DeleteResult of the selection and only the results key is rewritten; the dialog closes and the selection is cleared |
| ExamStatus.CountStatus | examease-teacher/project/src/components/Dashboard.jsx:38-42 | a tile counts the exams with that status: at most the list length, and zero exactly when no exam has it |
| ExamStatus.DashboardStats | examease-teacher/project/src/components/Dashboard.jsx:38-42 | the three tiles, each a CountStatus; StatsSumBound bounds their sum |
| ExamStatus.PublishedExamIsScheduled | examease-teacher/project/src/components/CreateExam.jsx:50-56 | publishing a built exam raises the Scheduled tile by one and leaves Active and Completed unchanged |
| ExamStatus.StatsSumBound | examease-teacher/project/src/components/Dashboard.jsx:39-41 | the three tiles sum to at most the list length, and to exactly the length if and only if every status is scheduled, active or completed |
| ExamStatus.DeleteExam | examease-teacher/project/src/components/Dashboard.jsx:54 | the result is a subsequence of the list holding exactly the exams with a different id, with their multiplicities |
| ExamStatus.DeleteExamIdempotent | examease-teacher/project/src/components/Dashboard.jsx:54 | deleting an id twice equals deleting it once |
| ExamStatus.DeleteUnknownExamKeepsList | examease-teacher/project/src/components/Dashboard.jsx:54 | deleting an absent id changes nothing |
| TeacherScreens.DashboardScreen.DeleteExam | examease-teacher/project/src/components/Dashboard.jsx:53-58 | the exam list becomes the filtered list, the examCards key holds exactly that list, and the other cells are unchanged |
| ExamStatus.CompleteExam | examease-student/project/src/App.jsx:17-21 | exams with the id get status "completed" with every other field kept; all other exams, the length and the order are unchanged |
| ExamStatus.CompleteUnknownExamKeepsList | examease-student/project/src/App.jsx:18-20 | an unknown id leaves the list unchanged |
| ExamStatus.CompleteExamIdempotent | examease-student/project/src/App.jsx:18-20 | completing twice equals completing once |
| ExamStatus.Upcoming | examease-student/project/src/components/Dashboard.jsx:136-138 | the upcoming list is the subsequence of exams not completed |
| ExamStatus.CompletedExams | examease-student/project/src/components/Dashboard.jsx:224-226 | the completed list is the subsequence of completed exams |
| ExamStatus.UpcomingCompletedPartition | examease-student/project/src/components/Dashboard.jsx:136-226 | the two lists split the exams: their lengths add up, their multisets add up to the list's, and each exam is in exactly one of them |
| ExamStatus.ToggleDetails | examease-student/project/src/components/Dashboard.jsx:61-63 | the clicked exam's details are shown exactly when they were not shown before; at most that exam is shown |
| ExamStatus.ToggleTwice | examease-student/project/src/components/Dashboard.jsx:61-63 | two clicks on one exam restore a closed panel, or that exam's open panel; if another exam was open, they leave the panel closed |
| StudentApp.App.constructor | examease-student/project/src/App.jsx:12-14 | no exams, dark mode off, and no dark class |
| StudentApp.App.CompleteExam | examease-student/project/src/App.jsx:17-21 | the exam list becomes CompleteExam of the old list |
| StudentApp.App.SetDarkMode | examease-student/project/src/App.jsx:33-39 | the document carries the dark class exactly when dark mode is on |
| StudentApp.DashboardScreen.constructor | examease-student/project/src/components/Dashboard.jsx:23 | no exam's details are shown |
| StudentApp.DashboardScreen.ToggleExamDetails | examease-student/project/src/components/Dashboard.jsx:61-63 | the panel state becomes ToggleDetails of the old one |
| ExamStatus.JoinEnabled | examease-student/project/src/components/Dashboard.jsx:187 | the join button is enabled exactly for an exam whose status is active |
| StudentApp.DashboardScreen.JoinExam | examease-student/project/src/components/Dashboard.jsx:51-59 | it can be reached only for an active exam; an accepted confirmation completes that exam; a declined one changes nothing |
| CreateExam.Accepts | examease-teacher/project/src/components/CreateExam.jsx:152-263 | the form's own rules: a title, and duration, total and passing marks present and at least 1 |
| CreateExam.EachRuleNeeded | examease-teacher/project/src/components/CreateExam.jsx:152-263 | the blank form is refused, and dropping the title, the duration, the total or the passing marks of an accepted form gets it refused |
| CreateExam.Submits | examease-teacher/project/src/components/CreateExam.jsx:144-305 | a submit click reaches onSubmit exactly when every question passes the browser's check of its inputs and the form's rules accept it |
| CreateExam.AddQuestionKeepsNativeValid | examease-teacher/project/src/components/CreateExam.jsx:68-78 | a freshly added question passes the browser's check, so adding keeps a submittable question list submittable |
| CreateExam.ClearedMarksBlocksSubmit | examease-teacher/project/src/components/QuestionForm.jsx:91-97 | setting any question's marks to 0 (a cleared input) blocks the submit whatever the form holds |
| CreateExam.BuildExam | examease-teacher/project/src/components/CreateExam.jsx:50-56 | the record onSubmit builds: the clock as id, the form values, the questions as they are at that moment, the ISO time and status "scheduled"; PublishedExamIsScheduled is its partner |
| CreateExam.PassingAboveTotalAccepted | examease-teacher/project/src/components/CreateExam.jsx:251-263 | any accepted form stays accepted with its passing marks set above its total marks: no rule relates the two |
| CreateExam.AddQuestion | examease-teacher/project/src/components/CreateExam.jsx:68-78 | one question is appended after the unchanged list; it has id question-(n+1), one mark, and empty type, text, options and answer |
| CreateExam.UpdateQuestion | examease-teacher/project/src/components/CreateExam.jsx:80-84 | every question with the updated question's id is replaced by it; the others, the length and the order are unchanged |
| CreateExam.RemoveQuestion | examease-teacher/project/src/components/CreateExam.jsx:86-88 | a subsequence of the list in which every question with a different id keeps its multiplicity and every question with the id is gone |
| CreateExam.UpdateUnknownIdKeepsList | examease-teacher/project/src/components/CreateExam.jsx:80-84 | an update whose id matches no question changes nothing |
| CreateExam.RemoveQuestionIdempotent | examease-teacher/project/src/components/CreateExam.jsx:86-88 | removing an id twice equals removing it once |
| CreateExam.AddQuestionKeepsIdsByPosition | examease-teacher/project/src/components/CreateExam.jsx:70 | while only adds have happened, question i is named question-(i+1) |
| CreateExam.UpdateQuestionKeepsIdsByPosition | examease-teacher/project/src/components/CreateExam.jsx:80-84 | edits keep that positional naming |
| CreateExam.IdsByPositionDistinct | examease-teacher/project/src/components/CreateExam.jsx:70 | positional names are pairwise distinct |
| CreateExam.QuestionIdsCollideAfterRemoval | examease-teacher/project/src/components/CreateExam.jsx:70-87 | add two questions, remove the first, add one more: both questions are then named question-2 |
| CreateExam.UpdateWithSharedId | examease-teacher/project/src/components/CreateExam.jsx:80-84 | once two questions share an id, an edit of either overwrites both |
| TeacherScreens.CreateExamScreen.constructor | examease-teacher/project/src/components/CreateExam.jsx:24-26 | no questions, a blank form, and nothing being submitted |
| TeacherScreens.CreateExamScreen.EditForm | examease-teacher/project/src/components/CreateExam.jsx:152-275 | the form values change and the questions are kept |
| TeacherScreens.CreateExamScreen.AddQuestion | examease-teacher/project/src/components/CreateExam.jsx:68-78 | the list becomes AddQuestion of the old one |
| TeacherScreens.CreateExamScreen.UpdateQuestion | examease-teacher/project/src/components/CreateExam.jsx:80-84 | the list becomes UpdateQuestion of the old one |
| TeacherScreens.CreateExamScreen.RemoveQuestion | examease-teacher/project/src/components/CreateExam.jsx:86-88 | the list becomes RemoveQuestion of the old one |
| TeacherScreens.CreateExamScreen.Cancel | examease-teacher/project/src/components/CreateExam.jsx:90-93 | the form resets and the question list is empty; an exam already waiting to be published is still published |
| TeacherScreens.CreateExamScreen.BeginSubmit | examease-teacher/project/src/components/CreateExam.jsx:46-56 | it is accepted exactly when Submits holds of the form and the questions (a refused click changes nothing); an accepted submit builds an exam that is scheduled and holds the current questions whatever the form says |
| TeacherScreens.CreateExamScreen.FinishSubmit | examease-teacher/project/src/components/CreateExam.jsx:59-65 | the built exam is appended to the app's list and only the examCards key is rewritten; the form resets, the question list is empty and submitting ends |
| QuestionForm.ChangeType | examease-teacher/project/src/components/QuestionForm.jsx:5-26 | MCQ gets exactly option-1..option-4, Checkbox and Radio exactly option-1 and option-2, other types none, all with empty text; the answer becomes empty; every other field is kept |
| QuestionForm.ChangeTypeGivesDistinctIds | examease-teacher/project/src/components/QuestionForm.jsx:5-26 | after a type change the choice ids are pairwise distinct and the (empty) answer names only existing choices |
| QuestionForm.AddOption | examease-teacher/project/src/components/QuestionForm.jsx:29-34 | at ten choices nothing changes; below ten one empty choice named option-(count+1) is appended after the unchanged choices |
| QuestionForm.RemoveOption | examease-teacher/project/src/components/QuestionForm.jsx:36-43 | at two or fewer choices nothing changes; above two, the choices and the answer are subsequences of the old ones in which every choice (answer) with a different id keeps its multiplicity and every one with the id is gone; nothing else changes |
| QuestionForm.RemoveOptionCanLeaveOneChoice | examease-teacher/project/src/components/QuestionForm.jsx:29-43 | Radio, add, remove option-2, add, remove option-3 leaves a single choice |
| QuestionForm.RemoveOptionAt | examease-teacher/project/src/components/QuestionForm.jsx:36-43 | corrected removal: above two choices exactly the clicked choice is dropped; the answer is a subsequence of the old one that loses every occurrence of its id and keeps the multiplicity of every other id |
| QuestionForm.EditsKeepChoiceCount | examease-teacher/project/src/components/QuestionForm.jsx:30-37 | with the corrected removal, any series of add and remove clicks that starts with 2 to 10 choices keeps 2 to 10 |
| QuestionForm.RemoveOptionAtKeepsAnswers | examease-teacher/project/src/components/QuestionForm.jsx:36-43 | the corrected removal keeps every correct answer naming an existing choice |
| QuestionForm.SelectChoice | examease-teacher/project/src/components/QuestionForm.jsx:110-120 | for MCQ and Radio the answer becomes exactly the selected id; otherwise checking appends the id, and unchecking gives a subsequence of the answer that loses every occurrence of the id and keeps the multiplicity of every other; nothing else changes |
| QuestionForm.ApplyEdits | examease-teacher/project/src/components/QuestionForm.jsx:29-43 | a series of add and remove clicks applied in order with the corrected removal; a remove click at a position with no choice does nothing; its bound is EditsKeepChoiceCount |
| QuestionForm.NativeValid | examease-teacher/project/src/components/QuestionForm.jsx:91-197 | the browser's check of one question's number inputs: marks at least 1, and each word-limit input shown for the question's type empty, 0 or at least 1 |
| QuestionForm.HiddenLimitNotChecked | examease-teacher/project/src/components/QuestionForm.jsx:159-201 | a negative word limit blocks a Short Answer question, stops mattering once the type changes (the input is no longer rendered) and survives the type change |
| QuestionForm.CheckThenUncheck | examease-teacher/project/src/components/QuestionForm.jsx:115-117 | checking then unchecking an unmarked Checkbox choice restores the question |
| QuestionForm.CheckboxClickToggles | examease-teacher/project/src/components/QuestionForm.jsx:108-117 | a Checkbox click, whose `checked` is the negation of the current mark, toggles the choice's membership, keeps every other answer's count, and never marks a choice twice |
| QuestionForm.SelectChoiceKeepsAnswers | examease-teacher/project/src/components/QuestionForm.jsx:110-120 | selecting one of the question's own choices keeps every answer naming an existing choice |
| QuestionForm.EditChoiceText | examease-teacher/project/src/components/QuestionForm.jsx:127-130 | only the text of the choice at that position changes; its id, the other choices and the rest of the question are kept |
| NotificationCard.FormatTimestamp | examease-student/project/src/components/NotificationCard.jsx:5-17 | by elapsed time: under an hour a minutes label, from one hour to under a day an hours label, from one to under two days "Yesterday", and a days label after that; a timestamp that is not a date gives "NaN days ago" |
| NotificationCard.FloorChain | examease-student/project/src/components/NotificationCard.jsx:9-11 | the nested floor divisions equal single floor divisions by the hour and by the day |
| NotificationCard.MinutesLabel | examease-student/project/src/components/NotificationCard.jsx:9-13 | under an hour ago the label is "m min ago" for the m whole minutes, with 0 <= m <= 59 |
| NotificationCard.FutureLabel | examease-student/project/src/components/NotificationCard.jsx:9-13 | a future time gives the minutes label with a negative, floored count |
| NotificationCard.HoursLabel | examease-student/project/src/components/NotificationCard.jsx:10-14 | from 1 to 23 whole hours ago the label is "h hours ago" |
| NotificationCard.YesterdayLabel | examease-student/project/src/components/NotificationCard.jsx:11-15 | from 24 to 48 hours ago the label is "Yesterday" |
| NotificationCard.DaysLabel | examease-student/project/src/components/NotificationCard.jsx:11-16 | two or more whole days ago the label is "d days ago" |
| NotificationCard.UnparseableDateLabel | examease-student/project/src/components/NotificationCard.jsx:6-16 | a timestamp that is not a date gives "NaN days ago" |
| Header.PathTitle | examease-teacher/project/src/components/Header.jsx:11-22 | always one of the five fixed titles, and "ExamEase" exactly for paths other than the four named routes |
| Header.Title | examease-teacher/project/src/components/Header.jsx:8-23 | a non-empty title prop is returned unchanged; an absent or empty one gives exactly the route's title, PathTitle(pathname) |
| Header.NamedRoutes | examease-teacher/project/src/components/Header.jsx:8-22 | /dashboard, /create-exam, /notifications and /settings map to their titles; / and /results map to "ExamEase"; without a title prop, or with an empty one, the header shows those route titles |

## Left out

- Rendering, styling, icons, sidebar collapse and navigation (`navigate`, `handleNavigation`) are presentation only and are not modelled.
- The homepages, settings pages, login screen, sidebar and header variants, both `main.jsx` files, the student results page and the compose-notification component are not part of this model.
- Persistence write failures (a full or unavailable store) are not modelled: every write succeeds.
- JSON encoding is abstract: each cell is encoded as a `Json` constructor. A stored value that parses but has the wrong shape counts as corrupt here, whereas the source would adopt it as it is.
- Results.FileRef: only the file's name is modelled. In the source a `File` does not survive encoding (it becomes an empty object). The model's encoding keeps it, and opening a file with `URL.createObjectURL` is left out.
- The loading timers (the 800 ms dashboard spinner and the 1500 ms student loading screen), the `alert` in `handleJoinExam` and the publish redirect to `/dashboard` are timers or browser I/O. The 800 ms publish delay appears only as the gap between `BeginSubmit` and `FinishSubmit`.
- Validation messages from the exam form and the browser's validation bubbles are not modelled; only whether a submit goes through is. Number inputs are modelled as whole numbers or empty; fractional input is left out.
- Question text, marks and word-limit inputs each call `updateQuestion` with one field replaced, so they are modelled only through `CreateExamScreen.UpdateQuestion`.
- QuestionForm.EditChoiceText: modelled as a value update. The source writes the text into the option object in place, and that object is shared with the question list an exam under submission already holds. So an option edited during the 800 ms publish delay also changes the pending exam, and this aliasing is not captured.
- The student notifications page has no compose form and no control that calls its five handlers, so its list stays empty. Its compose button only sets a flag that nothing reads, and it is not modelled. Its `formatTimestamp` returns the stored label unchanged and is not modelled separately.
- The student app's exam list is never loaded from anywhere. Nothing in the code sets an exam to `active` either; the model keeps statuses as plain strings.
- Integers are unbounded. JavaScript numbers are doubles, but clock values and counts here stay far below the range where that matters.

## Findings

| source | as written | input that shows it | evidently intended | confidence | as-written member | corrected member |
|---|---|---|---|---|---|---|
| examease-teacher/project/src/components/QuestionForm.jsx:29-43 | a new choice is named `option-{count+1}`, and removal drops every choice with the clicked id once more than two remain | on a Radio question: add a choice, remove option-2, add a choice (named option-3 again), remove option-3: one choice is left | removing a choice takes away only the clicked one, so a question keeps between two and ten choices | medium, not executed | QuestionForm.RemoveOptionCanLeaveOneChoice | QuestionForm.RemoveOptionAt |

`QuestionForm.RemoveOption` models the removal as written. `QuestionForm.RemoveOptionAt` removes the clicked choice by position. `QuestionForm.EditsKeepChoiceCount` proves that, with the corrected removal, every series of clicks keeps between two and ten choices. `QuestionForm.RemoveOptionAtKeepsAnswers` proves that the corrected removal keeps the correct answers naming existing choices.
