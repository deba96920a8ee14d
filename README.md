# School administration: notifications, attendance, tables and forms

This project models the core of a school-administration web application, a
React front end over in-memory mock services. The modelled parts are:

- The **email service** (`EmailService`). It keeps a log of sent messages
  with Ids counting up from the largest one. `getStats` counts today's
  messages by status. Its dispatcher composes grade updates, attendance
  alerts, assignment notices and bulk messages, and checks a parent's
  notification preferences first, except on the bulk path.
- The **record stores** (`RecordTable`, `AttendanceRecords`). These are the
  attendance and assignment services: `getAll`, `getById`, `create` with the
  next Id, `update` by merging fields, and `delete` by splicing.
- The **attendance page** and **attendance calendar** (`AttendancePage`,
  `AttendanceCalendar`):
  - marking a student for a day updates the existing record or creates one;
  - an absence sends the parent an alert;
  - the calendar adds a second alert of its own;
  - the calendar also summarises each day and moves between months.
- The **bulk email composer** (`EmailComposer`) and the **notifications page**
  (`NotificationsPage`): recipient selection, the submit refusal, search of
  the log, badge colours, the formatting of message types, and the parent
  preferences form.
- The **grade, assignment and student tables** (`GradeTable`,
  `AssignmentTable`, `StudentTable`). They share the column sort of
  `TableSort`. Each also has its colour bands and status badges, name and
  parent-email lookups, and the grade table's "email parent" button.
- The **students page** search and save (`StudentsPage`), and the **photo
  picker** (`PhotoUpload`). The picker validates the file type and size, and
  handles drag state, the crop dialog and removal.

Styling:

- State that the source updates in place is modelled as classes: the mock
  services' arrays (`EmailService.EmailService`, `RecordTable.Table`), the
  calendar's React state (`AttendanceCalendar.CalendarView`) and the photo
  picker's state (`PhotoUpload.PhotoUploadState`).
- The loops of the dispatcher are methods with loop invariants, specified by
  pure functions.
- The sorts, filters, classifiers and form reducers are functions.

Inputs the model takes as parameters:

- Clocks and dates: the current instant as `now`, today's ISO day as `today`,
  and human-readable dates as `shown`.
- JavaScript's floating-point results: a grade percentage as an integer, and
  the day count `Math.ceil((due - now) / 86400000)` as the integer `daysDiff`.
- The browser's file reader and canvas results, as strings.

## Model

| member | source | states |
|---|---|---|
| EmailService.Stamp | src/services/api/emailService.js:14-21 | a logged message is the draft plus the given Id, the timestamp and status "sent"; its content gives the draft back |
| EmailService.NextId | src/services/api/emailService.js:16 | the next Id is one more than the largest Id in the log: above every Id, and one below it is taken |
| EmailService.Stamps | src/services/api/emailService.js:12-24 | successive sends log one message per draft, with consecutive Ids |
| EmailService.StampsAppend | src/services/api/emailService.js:12-24 | two runs of sends in a row log the same as one run over both |
| EmailService.StampsOnto | src/services/api/emailService.js:12-24 | stamping two runs onto a log one after the other equals stamping their concatenation |
| EmailService.SendKeepsIds | src/services/api/emailService.js:14-22 | after one send the next Id rises by exactly one, and distinct Ids stay distinct |
| EmailService.StampsKeepIdsDistinct | src/services/api/emailService.js:14-22 | any run of sends keeps all log Ids distinct |
| EmailService.StampsNextId | src/services/api/emailService.js:14-22 | after a run of sends the next Id has advanced by the number of messages sent |
| EmailService.TodayEmails | src/services/api/emailService.js:34 | today's messages are exactly the logged ones whose timestamp starts with today's day, kept in log order |
| EmailService.TodayStats | src/services/api/emailService.js:31-41 | the sent, pending and failed counts together never exceed today's messages; an empty log gives all zeros |
| EmailService.SendCountsToday | src/services/api/emailService.js:12-41 | a message sent with a timestamp on today adds one to today's sent count and leaves pending and failed alone; one stamped on another day changes no counter |
| EmailService.GradeDraft | src/services/api/emailService.js:49-57 | the grade update goes to the parent's address, names the student in the subject and carries the percentage and the grade's Id |
| EmailService.AttendanceDraft | src/services/api/emailService.js:72-79 | the attendance alert goes to the parent, carries the record's Id, and its body names the status and the date |
| EmailService.AssignmentDraft | src/services/api/emailService.js:98-105 | the assignment notice goes to the parent, has subject "New Assignment: " plus the title, and carries the assignment's Id |
| EmailService.GradeNotice | src/services/api/emailService.js:43-64 | a grade update is composed exactly when the student exists, the parent has preferences and grade updates are on |
| EmailService.AttendanceNotice | src/services/api/emailService.js:66-86 | an attendance alert is composed exactly when the student exists, the parent has preferences and attendance alerts are on |
| EmailService.Reached | src/services/api/emailService.js:93-112 | the fan-out walks a prefix of the active students that stops at the first parent without preferences |
| EmailService.AssignmentDrafts | src/services/api/emailService.js:93-109 | one assignment notice per notified student, in order |
| EmailService.BulkDrafts | src/services/api/emailService.js:115-133 | one bulk message per recipient, in recipient order |
| EmailService.NotifiedAreActiveAndOptedIn | src/services/api/emailService.js:88-113 | every notified student is active, has preferences and has assignment deadlines on; the notified students appear in their original order |
| EmailService.AssignmentNoticesCount | src/services/api/emailService.js:88-113 | when every active student's preferences resolve, one notice goes to each active student who opted in |
| EmailService.EmailService.constructor | src/services/api/emailService.js:8-10 | the log starts as the seed data, non-empty with distinct Ids |
| EmailService.EmailService.SendEmail | src/services/api/emailService.js:12-24 | appends the stamped message with the next Id and returns it; the next Id rises by one and the Ids stay distinct |
| EmailService.EmailService.GetEmailLogs | src/services/api/emailService.js:26-29 | returns the whole log |
| EmailService.EmailService.GetStats | src/services/api/emailService.js:31-41 | returns today's counters of the current log |
| EmailService.EmailService.TriggerGradeNotification | src/services/api/emailService.js:43-64 | the log grows by exactly the grade update that GradeNotice composes, or by nothing |
| EmailService.EmailService.TriggerAttendanceNotification | src/services/api/emailService.js:66-86 | the log grows by exactly the alert that AttendanceNotice composes, or by nothing |
| EmailService.EmailService.TriggerAssignmentNotification | src/services/api/emailService.js:88-113 | the log grows by one notice per notified student, in order; a missing preference ends the fan-out early |
| EmailService.EmailService.BulkSendEmail | src/services/api/emailService.js:115-133 | returns, and appends to the log, one stamped message per recipient in order |
| EmailService.ReachedIsPrefix | src/services/api/emailService.js:93-97 | the fan-out loop stops exactly where Reached does |
| RecordTable.RowIds | src/services/api/attendanceService.js:27 | the Ids of the records, position by position |
| RecordTable.FindIndex | src/services/api/attendanceService.js:36-39 | not found exactly when no record has the Id; otherwise the first index holding it |
| RecordTable.Find | src/services/api/attendanceService.js:15-22 | the error with the store's message exactly when no record has the Id; otherwise a stored record with that Id |
| RecordTable.NextRowId | src/services/api/attendanceService.js:27 | the new Id is one more than the largest stored Id: above every stored Id, and one below it is taken |
| RecordTable.Updated | src/services/api/attendanceService.js:34-42 | an update keeps the number of records and their Ids, and an unknown Id leaves the store unchanged |
| RecordTable.Deleted | src/services/api/attendanceService.js:44-52 | a delete removes one record when the Id is present and none otherwise; the remaining records keep their order, and an unknown Id leaves the store unchanged |
| RecordTable.FindAfterCreate | src/services/api/attendanceService.js:24-31 | a created record is found under its new Id, and every other Id finds what it found before |
| RecordTable.FindAfterUpdate | src/services/api/attendanceService.js:34-42 | after an update the Id finds the old record merged with the data; other Ids are unaffected |
| RecordTable.FindIndexSameIds | src/services/api/attendanceService.js:36 | the lookup depends only on the Ids |
| RecordTable.FindIndexIsFirst | src/services/api/attendanceService.js:36 | the first index holding an Id is the one the lookup returns |
| RecordTable.FindAfterDelete | src/services/api/attendanceService.js:44-52 | under unique Ids, a deleted record is no longer found |
| RecordTable.DeleteKeepsOthers | src/services/api/attendanceService.js:44-52 | deleting one Id leaves what every other Id finds unchanged |
| RecordTable.CreateKeepsUnique | src/services/api/attendanceService.js:24-31 | create keeps Ids unique |
| RecordTable.DeleteKeepsUnique | src/services/api/attendanceService.js:44-52 | delete keeps Ids unique |
| RecordTable.FindOwnId | src/services/api/attendanceService.js:15-22 | under unique Ids, each record is the one found under its own Id |
| RecordTable.Table.constructor | src/services/api/assignmentService.js:5-7 | the store starts as the seed records, with unique Ids |
| RecordTable.Table.GetAll | src/services/api/assignmentService.js:10-13 | returns all records |
| RecordTable.Table.GetById | src/services/api/assignmentService.js:15-22 | returns Find on the current records, including the not-found error |
| RecordTable.Table.Create | src/services/api/assignmentService.js:24-31 | appends the record with the next Id and keeps Ids unique |
| RecordTable.Table.Update | src/services/api/assignmentService.js:34-42 | the store becomes Updated; returns the merged record, or the not-found error |
| RecordTable.Table.Delete | src/services/api/assignmentService.js:44-52 | the store becomes Deleted; returns true, or the not-found error |
| Entities.Active | src/components/pages/Attendance.jsx:26 | exactly the active students, in their order |
| Entities.FindStudent | src/components/pages/Attendance.jsx:65 | found exactly when some student has the Id, and then it is a listed student with that Id |
| AttendanceRecords.MarkData | src/components/pages/Attendance.jsx:41-46 | a record holding the written data is for that student and day, with the given status and empty notes |
| AttendanceRecords.MarkMerged | src/services/api/attendanceService.js:40 | a record merged with the mark's data is for that pair, with the new status and empty notes |
| AttendanceRecords.FirstFor | src/components/pages/Attendance.jsx:49-52 | none exactly when no record is for the student and day; otherwise a record for them |
| AttendanceRecords.FirstForAt | src/components/pages/Attendance.jsx:49-52 | the found record is the one at the first matching index |
| AttendancePage.Upsert | src/components/pages/Attendance.jsx:41-60 | creates exactly when the snapshot shows no record for the pair; an update keeps the Ids; a failed update leaves the store as it was |
| AttendancePage.AbsenceDraft | src/components/pages/Attendance.jsx:67-74 | the alert goes to the parent's address as an attendance alert for the student and day |
| AttendancePage.PageAlert | src/components/pages/Attendance.jsx:63-78 | an alert exactly for an absent, listed student with a non-empty parent email |
| AttendancePage.PageSends | src/components/pages/Attendance.jsx:54-82 | at most one message; one exactly when the write did not throw and an alert is due |
| AttendancePage.UpsertNeverDuplicates | src/components/pages/Attendance.jsx:49-60 | with a current snapshot and unique Ids, the write never fails and never adds a second record for the pair: none becomes one, otherwise the count is unchanged |
| AttendancePage.CreateCountsOne | src/components/pages/Attendance.jsx:57-59 | creating where there was no record for the pair gives exactly one |
| AttendancePage.UpdateKeepsCount | src/components/pages/Attendance.jsx:54-56 | updating the found record keeps the number of records for the pair |
| AttendancePage.UpdatedIndex | src/components/pages/Attendance.jsx:49-55 | the record the page finds is the one update finds by Id |
| AttendancePage.UpsertWritesMark | src/components/pages/Attendance.jsx:41-60 | afterwards the record found for the pair carries the new status and empty notes |
| AttendancePage.UpsertLeavesRecord | src/components/pages/Attendance.jsx:41-60 | with any snapshot, a write that does not fail leaves a record for the pair |
| AttendancePage.UpsertKeepsUnique | src/components/pages/Attendance.jsx:54-60 | the write keeps the store's Ids unique |
| AttendancePage.AlertOnlyForListedAbsence | src/components/pages/Attendance.jsx:26 | an alert implies an absence of an active student with a parent email |
| AttendancePage.WriteMark | src/components/pages/Attendance.jsx:41-61 | the store ends as Upsert says, with the same outcome |
| AttendancePage.MarkAttendance | src/components/pages/Attendance.jsx:39-88 | the store ends as Upsert says, and the log grows by exactly PageSends |
| AttendanceCalendar.AttendanceStats | src/components/organisms/AttendanceCalendar.jsx:25-35 | present, absent and late together never exceed the day's total, which never exceeds the records; no records give all zeros |
| AttendanceCalendar.StatsOfAppended | src/components/organisms/AttendanceCalendar.jsx:25-35 | one more record changes only its own day, by one in total and one in its status column |
| AttendanceCalendar.MarkHidesButtons | src/components/organisms/AttendanceCalendar.jsx:169-200 | after a successful mark the buttons for that student and day are no longer shown, with days matched by equal ISO day (the time-zone mismatch under "Left out" is not covered) |
| AttendanceCalendar.MonthStart | src/components/organisms/AttendanceCalendar.jsx:38 | the first of a month, with an out-of-range month rolled into the neighbouring year |
| AttendanceCalendar.MonthSteps | src/components/organisms/AttendanceCalendar.jsx:37-43 | previous and next move one month to its first day; January and December wrap the year |
| AttendanceCalendar.MonthIndexInjective | src/components/organisms/AttendanceCalendar.jsx:37-43 | in-range dates with the same month index and day are equal |
| AttendanceCalendar.NavigationRoundTrip | src/components/organisms/AttendanceCalendar.jsx:37-43 | next after previous, and previous after next, give back the first of the month shown |
| AttendanceCalendar.CalendarAlert | src/components/organisms/AttendanceCalendar.jsx:53-68 | an alert exactly for an absent, listed student, without checking the parent email |
| AttendanceCalendar.AbsenceAlertsTwice | src/components/organisms/AttendanceCalendar.jsx:49-73 | no alert for other statuses; an absence of a listed student with a parent email sends two alerts to the same parent for the same day; if the write fails, the calendar still sends its copy |
| AttendanceCalendar.ClickStamps | src/components/organisms/AttendanceCalendar.jsx:49-73 | the page's sends and then the calendar's form one run over both |
| AttendanceCalendar.CalendarView.constructor | src/components/organisms/AttendanceCalendar.jsx:12-13 | the month shown and the selected day start at today, and the month is in 0..11 |
| AttendanceCalendar.CalendarView.HandlePreviousMonth | src/components/organisms/AttendanceCalendar.jsx:37-39 | shows the previous month, keeping the month in range; the selection is kept |
| AttendanceCalendar.CalendarView.HandleNextMonth | src/components/organisms/AttendanceCalendar.jsx:41-43 | shows the next month, keeping the month in range; the selection is kept |
| AttendanceCalendar.CalendarView.HandleDateClick | src/components/organisms/AttendanceCalendar.jsx:45-47 | selects the day; the month shown is kept |
| AttendanceCalendar.CalendarView.HandleMarkAttendance | src/components/organisms/AttendanceCalendar.jsx:49-73 | the page's write on the selected day, then a log of the page's alert and then the calendar's |
| EmailComposer.RecipientIds | src/components/organisms/EmailComposer.jsx:13 | the recipients' ids, position by position |
| EmailComposer.Initial | src/components/organisms/EmailComposer.jsx:10-14 | default subject and body; the selection is exactly the recipients' ids in recipient order, so every recipient is selected and only recipients are |
| EmailComposer.Toggle | src/components/organisms/EmailComposer.jsx:54-61 | flips only the toggled id's membership; an unselected id is appended; a selected one is removed, shortening the list |
| EmailComposer.FilterDrops | src/components/organisms/EmailComposer.jsx:57 | filtering out an element that occurs shortens the list |
| EmailComposer.ToggleTwice | src/components/organisms/EmailComposer.jsx:54-61 | toggling twice restores every membership, and the whole form when the id was unselected |
| EmailComposer.SelectAll | src/components/organisms/EmailComposer.jsx:63-68 | selects every recipient id, leaving the text fields |
| EmailComposer.SelectNone | src/components/organisms/EmailComposer.jsx:70-75 | clears the selection, leaving the text fields |
| EmailComposer.Change | src/components/organisms/EmailComposer.jsx:46-52 | sets only the named field |
| EmailComposer.Chosen | src/components/organisms/EmailComposer.jsx:27-29 | the recipients whose id is selected, in recipient order |
| EmailComposer.SelectAllChoosesEveryone | src/components/organisms/EmailComposer.jsx:27-29 | after select-all every recipient is sent to |
| EmailComposer.Submit | src/components/organisms/EmailComposer.jsx:17-44 | refuses an empty selection and sends nothing; otherwise bulk-sends the chosen recipients and returns their messages |
| NotificationsPage.SearchLogs | src/components/pages/Notifications.jsx:65-77 | the empty term shows the whole log; otherwise exactly the entries whose recipient, subject or type contains the term ignoring case, in log order |
| NotificationsPage.SearchNarrows | src/components/pages/Notifications.jsx:65-77 | typing more characters into the search term only removes entries from the result |
| NotificationsPage.SearchFindsRecipient | src/components/pages/Notifications.jsx:65-77 | searching for an entry's recipient shows that entry |
| NotificationsPage.FormatType | src/components/pages/Notifications.jsx:142-144 | same length; every underscore becomes a space; each character starting a word is the upper-case of the original; every other character is unchanged |
| NotificationsPage.FormatTypeIdempotent | src/components/pages/Notifications.jsx:142-144 | formatting a formatted type changes nothing |
| NotificationsPage.FormatTypeExample | src/components/pages/Notifications.jsx:142-144 | "grade_update" is shown as "Grade Update" |
| NotificationsPage.StatusColor | src/components/pages/Notifications.jsx:114-125 | sent, pending and failed get success, warning and error, and only they do; anything else gets default |
| NotificationsPage.TypeColor | src/components/pages/Notifications.jsx:127-140 | each of the four message types gets its own colour, and only they do; any other type gets default |
| NotificationsPage.LoggedMessagesHaveBadges | src/components/pages/Notifications.jsx:114-140 | grade updates, attendance alerts, assignment notices and bulk messages as the dispatcher composes them each get their own type colour, and every message sendEmail logs shows the success badge |
| NotificationsPage.DefaultPrefsForm | src/components/pages/Notifications.jsx:29-35 | exactly the five fields; the four flags on and frequency "immediate" |
| NotificationsPage.ChangePreference | src/components/pages/Notifications.jsx:106-112 | the named field gets the checked flag for a checkbox, else the value; all other fields are unchanged |
| NotificationsPage.ChangeBack | src/components/pages/Notifications.jsx:106-112 | changing a field back to its old value restores the form |
| NotificationsPage.PreferencesUpdate | src/components/pages/Notifications.jsx:89-104 | refused exactly when no parent is selected; otherwise it writes the form for that parent |
| TableSort.InitialSort | src/components/organisms/GradeTable.jsx:9 | no column, ascending |
| TableSort.HandleSort | src/components/organisms/GradeTable.jsx:11-17 | sorts by the clicked column, descending exactly when it was already sorted ascending |
| TableSort.HandleSortAlternates | src/components/organisms/StudentTable.jsx:11-17 | repeated clicks on one column alternate the direction, and a new column starts ascending |
| TableSort.TextLessIrreflexive | src/components/organisms/AssignmentTable.jsx:17-26 | no string sorts before itself |
| TableSort.TextLessTransitive | src/components/organisms/AssignmentTable.jsx:17-26 | the string order is transitive |
| TableSort.TextLessTotal | src/components/organisms/AssignmentTable.jsx:17-26 | any two different strings are ordered one way |
| TableSort.KeyOrder | src/components/organisms/GradeTable.jsx:19-35 | the order on column values is a strict total order |
| TableSort.Compare | src/components/organisms/GradeTable.jsx:19-35 | -1, 0 or 1; 0 without a column; -1 exactly when the first value comes first in the chosen direction, 1 exactly when it comes second |
| TableSort.CompareLaws | src/components/organisms/GradeTable.jsx:19-35 | the comparator is antisymmetric, and "not after" is transitive |
| TableSort.Insert | src/components/organisms/GradeTable.jsx:19-35 | inserting adds exactly that row |
| TableSort.OrderedCons | src/components/organisms/GradeTable.jsx:19-35 | a row not after any of an ordered list can lead it |
| TableSort.InsertOrdered | src/components/organisms/GradeTable.jsx:19-35 | inserting into an ordered list keeps it ordered |
| TableSort.SortByPermutation | src/components/organisms/GradeTable.jsx:19-35 | the sorted copy is a permutation of the rows |
| TableSort.SortByOrdered | src/components/organisms/GradeTable.jsx:19-35 | the sorted copy is ordered by the comparator |
| TableSort.OrderedMeans | src/components/organisms/GradeTable.jsx:19-35 | ordered means column values non-decreasing ascending and non-increasing descending |
| TableSort.SortUnkeyed | src/components/organisms/GradeTable.jsx:19-21 | without a column the rows keep their order |
| TableSort.InsertStable | src/components/organisms/GradeTable.jsx:19-35 | insertion keeps rows with equal column values in their order |
| TableSort.SortByStable | src/components/organisms/GradeTable.jsx:19-35 | the sort is stable: rows with any one column value keep their original order |
| GradeTable.NameKey | src/components/organisms/GradeTable.jsx:25-30 | a grade sorts by its student's full name, or by "" when the student is unknown |
| GradeTable.SortedGrades | src/components/organisms/GradeTable.jsx:19-35 | a permutation of the grades, unchanged without a column, otherwise ordered by it |
| GradeTable.SortedByScore | src/components/organisms/GradeTable.jsx:19-35 | sorted by score, scores run up ascending and down descending |
| GradeTable.GradeColor | src/components/organisms/GradeTable.jsx:37-42 | success from 90, primary from 80, warning from 70, error below, each band exactly |
| GradeTable.GradeColorMonotone | src/components/organisms/GradeTable.jsx:37-42 | a higher percentage never gets a worse band |
| GradeTable.StudentNameOf | src/components/organisms/GradeTable.jsx:44-47 | the student's full name, or "Unknown" |
| GradeTable.ShownNameIsSortName | src/components/organisms/GradeTable.jsx:25-47 | the shown and sorted names agree exactly when the student is known |
| GradeTable.ParentEmailOf | src/components/organisms/GradeTable.jsx:73-76 | the parent's address, or "No parent email" for an unknown student or an empty address; never empty |
| GradeTable.EmailParentDraft | src/components/organisms/GradeTable.jsx:49-64 | a message exactly when the student is known, and then it is the dispatcher's grade update |
| GradeTable.EmailParentBypassesPreferences | src/components/organisms/GradeTable.jsx:49-71 | the button sends the dispatcher's grade message, even when the preferences would stop it |
| GradeTable.EmailParent | src/components/organisms/GradeTable.jsx:49-71 | sent exactly when the student is known; the log grows by exactly that message |
| AssignmentTable.SortedAssignments | src/components/organisms/AssignmentTable.jsx:17-26 | a permutation, unchanged without a column, otherwise ordered by it |
| AssignmentTable.SortedByDueDate | src/components/organisms/AssignmentTable.jsx:17-26 | ascending by due date, no later date comes first |
| AssignmentTable.TypeColor | src/components/organisms/AssignmentTable.jsx:28-41 | homework, quiz, test and project each get their colour, and only they do; any other type gets default |
| AssignmentTable.StatusColor | src/components/organisms/AssignmentTable.jsx:43-51 | error exactly when overdue, warning exactly within three days, success exactly later |
| AssignmentTable.StatusText | src/components/organisms/AssignmentTable.jsx:53-62 | Overdue, Due Today, Due Tomorrow, or the count of days left |
| AssignmentTable.OverdueIffError | src/components/organisms/AssignmentTable.jsx:43-62 | "Overdue" is shown exactly when the badge is red |
| AssignmentTable.StatusTextDistinguishes | src/components/organisms/AssignmentTable.jsx:53-62 | different day counts that are not overdue give different texts |
| StudentTable.SortedStudents | src/components/organisms/StudentTable.jsx:19-28 | a permutation, unchanged without a column, otherwise ordered by it |
| StudentTable.SortByFirstNameStable | src/components/organisms/StudentTable.jsx:19-28 | students sharing a first name keep their order when sorted by first name |
| StudentTable.StatusVariant | src/components/organisms/StudentTable.jsx:30-39 | active is success, inactive is error, anything else is default, each exactly |
| StudentTable.ActiveHaveSuccessBadge | src/components/organisms/StudentTable.jsx:30-39 | the students the pages treat as active are exactly those with the success badge |
| StudentsPage.SearchStudents | src/components/pages/Students.jsx:41-54 | the empty term shows all; otherwise exactly the students whose first name, last name, email or grade level contains the term ignoring case, in order |
| StudentsPage.SearchFindsStudent | src/components/pages/Students.jsx:41-54 | searching for a student's email, first name or last name finds them |
| StudentsPage.StudentSave | src/components/pages/Students.jsx:83-98 | an update of the edited student's Id exactly when editing, otherwise a create, always with the form data |
| PhotoUpload.CheckFile | src/components/atoms/PhotoUpload.jsx:17-30 | no file, then a non-image type, then over 5 MB, each exactly; otherwise accepted |
| PhotoUpload.CheckFileBoundaries | src/components/atoms/PhotoUpload.jsx:21-30 | exactly 5242880 bytes passes, one byte more fails, and the type check comes first |
| PhotoUpload.FirstFile | src/components/atoms/PhotoUpload.jsx:50-64 | the first file, none exactly for an empty list |
| PhotoUpload.PhotoUploadState.constructor | src/components/atoms/PhotoUpload.jsx:8-15 | no drag, no dialog, no image and no crop; the photo as given |
| PhotoUpload.PhotoUploadState.SelectFile | src/components/atoms/PhotoUpload.jsx:17-38 | an accepted file opens the crop dialog on its image; a refused one changes nothing that is shown |
| PhotoUpload.PhotoUploadState.DragOver | src/components/atoms/PhotoUpload.jsx:40-43 | turns the drag highlight on and nothing else |
| PhotoUpload.PhotoUploadState.DragLeave | src/components/atoms/PhotoUpload.jsx:45-48 | turns the drag highlight off and nothing else |
| PhotoUpload.PhotoUploadState.Drop | src/components/atoms/PhotoUpload.jsx:50-57 | turns the highlight off and selects the first dropped file |
| PhotoUpload.PhotoUploadState.CompleteCrop | src/components/atoms/PhotoUpload.jsx:174 | records the crop and nothing else |
| PhotoUpload.PhotoUploadState.CloseCropModal | src/components/atoms/PhotoUpload.jsx:162 | closes the dialog and nothing else |
| PhotoUpload.PhotoUploadState.CropSave | src/components/atoms/PhotoUpload.jsx:89-96 | saves exactly when a crop is complete and the image is mounted; then the photo becomes the crop and the dialog closes; otherwise nothing changes |
| PhotoUpload.PhotoUploadState.RemovePhoto | src/components/atoms/PhotoUpload.jsx:98-100 | the photo becomes empty and nothing else changes |

## Left out

- Delays, promises and interleaving. Every service call runs to completion in
  program order. The calendar's handler calls the page's handler without
  awaiting it; the model runs the page's write and alert before the
  calendar's alert. The source does the opposite: the page's alert waits
  for the store's read and write first, so the calendar's `sendEmail`
  finishes first and its message takes the lower Id. The Ids in the model's
  log therefore come in the reverse order from the source's for that click.
- One clock reading per operation. Each `sendEmail` awaits its own delay and
  then reads the clock, so the messages of an assignment fan-out, a bulk send
  or the calendar's two alerts get different timestamps, and a run can cross
  midnight and split between days in `getStats`. The model stamps every
  message of one operation with the single instant `now`.
- Clocks and date formatting. `new Date().toISOString()`, `toLocaleDateString()`,
  `format(...)` and the ISO day of a `Date` are parameters (`now`, `today`,
  `shown`, `day`). The calendar's `isSameDay(new Date(att.date), date)`
  depends on the time zone; it is modelled as equality of ISO days.
- Floating point. The percentage in the grade message and the grade table, its
  rounding, and the day count of the assignment badge are integer inputs. A
  grade's `score` and `maxScore` come from `parseFloat`, but the model's
  grades hold integers and the grade message prints them as integers.
- `sendEmail` cannot fail in the model. The `try`/`catch` around it in the
  dispatcher and the pages therefore covers only the failures modelled
  elsewhere: a failed store write, and a missing preference ending the fan-out.
- Toasts, console logging, loading and error flags, and re-rendering after
  `loadData`. Only what is written to the stores and the log is modelled. The
  page's reloaded student list is `Entities.Active`.
- The remote student, grade, class and notification-preference services. Their
  data are parameters (`students`, `prefs`, `all`). The Notifications page's
  `loadData` and `handleParentSelect` only read those services.
- Field names. The student service returns snake_case records
  (`first_name`, `last_name`, `grade_level`, `parent_email`), and the
  preferences service returns `grade_updates`, `attendance_alerts` and
  `assignment_deadlines`. Students.jsx's search reads the snake_case names.
  The tables, the attendance page and the email service read camelCase names
  (`firstName`, `parentEmail`, `gradeUpdates`, `assignmentDeadlines`). The
  model assumes camelCase records throughout. So every preference flag a
  `trigger*` operation checks is a field the service's records do not
  carry, and the model does not capture that those checks then read
  `undefined`. The preferences form is passed to the service as it is.
- Case-insensitive matching and capitalisation are modelled for ASCII letters
  only. JavaScript's full Unicode case mapping is not modelled.
- RecordTable.Table.Create, AttendancePage.Upsert and its lemmas
  (UpsertNeverDuplicates, CreateCountsOne, UpsertWritesMark,
  UpsertLeavesRecord, UpsertKeepsUnique) and
  AttendanceCalendar.MarkHidesButtons require a non-empty store.
  EmailService.EmailService.constructor requires a non-empty seed log. So do
  the Id helpers and their lemmas (RecordTable.NextRowId, EmailService.NextId,
  SendKeepsIds, StampsKeepIdsDistinct, StampsNextId, AssignmentStep,
  AttendanceCalendar.ClickStamps).
  `Math.max()` of an empty list is `-Infinity`, which would give the new
  record the Id `-Infinity`; the model does not represent that.
- A data object carrying its own `Id` key, which the spread would override;
  the model's data maps never contain `Id`.
- TableSort.TextLess: orders strings by Unicode scalar value. JavaScript's `<`
  compares UTF-16 code units, which differs for a character outside the
  Basic Multilingual Plane against one from U+E000 to U+FFFF.
- The order between numbers and strings in one column. JavaScript compares
  them by conversion; the model puts numbers first. Every column holds one
  kind.
- The file reader, the image element and the canvas of the photo picker.
  Their results are the parameters `dataUrl`, `imageMounted` and `cropped`.
- The rest of the application is not part of this model: forms,
  the dashboard, the remaining pages and the other atoms, molecules and
  organisms.
