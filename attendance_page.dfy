/** The attendance page (src/components/pages/Attendance.jsx): it loads the
    active students and all attendance records, and marks a student's
    attendance for a day by updating the record it already shows for that
    (student, day) or creating one, then e-mails the parent on an absence.

    `snapshot` is the page's `attendance` state, the records as last loaded;
    `store` is the attendance store the write goes to. They are separate
    because a write can race a stale snapshot: an update of an Id the store
    no longer has throws, and the page only shows an error toast. */
module AttendancePage {
  import opened Results
  import Seqs
  import opened Entities
  import opened RecordTable
  import opened AttendanceRecords
  import ES = EmailService

  /** Which toast the write ends with: "updated", "marked", or "Failed to mark attendance". */
  datatype MarkOutcome = MarkUpdated | MarkCreated | MarkFailed

  /** The store after the write and how the write ended. */
  datatype Write = Write(rows: seq<Row>, outcome: MarkOutcome)

  /** Lines 41-60: update the record the snapshot shows for (student, day), or create one. */
  function Upsert(snapshot: seq<Row>, rows: seq<Row>, sid: int, day: string, status: string): (w: Write)
    requires |rows| > 0
    ensures w.outcome == MarkCreated <==> FirstFor(snapshot, sid, day).None?
    ensures w.outcome == MarkFailed ==> w.rows == rows
    ensures w.outcome == MarkCreated ==> w.rows == rows + [Created(rows, MarkData(sid, day, status))]
    ensures w.outcome == MarkUpdated ==> |w.rows| == |rows| && RowIds(w.rows) == RowIds(rows)
  {
    var data := MarkData(sid, day, status);
    match FirstFor(snapshot, sid, day)
    case Some(existing) =>
      if FindIndex(rows, existing.id).Some? then Write(Updated(rows, existing.id, data), MarkUpdated)
      else Write(rows, MarkFailed)
    case None => Write(rows + [Created(rows, data)], MarkCreated)
  }

  /** The alert both the page and the calendar compose; `shown` is how the day is printed. */
  function AbsenceDraft(s: Student, sid: int, day: string, shown: string): (d: ES.Draft)
    ensures d.to == s.parentEmail && d.kind == "attendance_alert"
    ensures d.studentId == sid && d.ref == ES.ForDate(day)
  {
    ES.Draft(s.parentEmail, "Attendance Alert for " + FullName(s),
             "Your child " + FullName(s) + " was marked absent on " + shown + ".",
             "attendance_alert", sid, ES.ForDate(day))
  }

  /** Lines 63-78: an alert only for `absent`, a student in the page's list, and a non-empty parent email. */
  function PageAlert(students: seq<Student>, sid: int, day: string, status: string, shown: string): (r: Option<ES.Draft>)
    ensures r.Some? <==> status == "absent" && FindStudent(students, sid).Some?
                         && FindStudent(students, sid).value.parentEmail != ""
    ensures r.Some? ==> r.value == AbsenceDraft(FindStudent(students, sid).value, sid, day, shown)
  {
    if status != "absent" then None
    else match FindStudent(students, sid)
      case None => None
      case Some(s) => if s.parentEmail == "" then None else Some(AbsenceDraft(s, sid, day, shown))
  }

  /** What the handler sends: nothing when the write threw (the alert is inside the same `try`). */
  function PageSends(outcome: MarkOutcome, students: seq<Student>, sid: int, day: string, status: string,
                     shown: string): (ds: seq<ES.Draft>)
    ensures |ds| <= 1
    ensures |ds| == 1 <==> outcome != MarkFailed && PageAlert(students, sid, day, status, shown).Some?
  {
    if outcome == MarkFailed then [] else ToSeq(PageAlert(students, sid, day, status, shown))
  }

  // ---------------------------------------------------------------------
  // Properties of the upsert

  /** With the snapshot current, a write never fails and never adds a second
      record for the pair: the count becomes 1 if it was 0 and stays otherwise. */
  lemma UpsertNeverDuplicates(rows: seq<Row>, sid: int, day: string, status: string)
    requires |rows| > 0 && UniqueIds(rows)
    ensures Upsert(rows, rows, sid, day, status).outcome != MarkFailed
    ensures CountFor(Upsert(rows, rows, sid, day, status).rows, sid, day)
         == if CountFor(rows, sid, day) == 0 then 1 else CountFor(rows, sid, day)
  {
    match FirstFor(rows, sid, day)
    case None => CreateCountsOne(rows, sid, day, status);
    case Some(existing) => UpdateKeepsCount(rows, sid, day, status, existing);
  }

  lemma CreateCountsOne(rows: seq<Row>, sid: int, day: string, status: string)
    requires |rows| > 0 && FirstFor(rows, sid, day).None?
    ensures CountFor(rows, sid, day) == 0
    ensures CountFor(rows + [Created(rows, MarkData(sid, day, status))], sid, day) == 1
  {
    var p := ForPred(sid, day);
    var x := Created(rows, MarkData(sid, day, status));
    Seqs.FilterConcat(rows, [x], p);
    assert Seqs.Filter([x], p) == [x] + Seqs.Filter([], p);
    NoneCounted(rows, sid, day);
  }

  lemma {:induction false} NoneCounted(rows: seq<Row>, sid: int, day: string)
    requires forall i :: 0 <= i < |rows| ==> !IsFor(rows[i], sid, day)
    ensures CountFor(rows, sid, day) == 0
    decreases |rows|
  {
    if rows != [] {
      NoneCounted(rows[1..], sid, day);
    }
  }

  lemma UpdateKeepsCount(rows: seq<Row>, sid: int, day: string, status: string, existing: Row)
    requires UniqueIds(rows) && FirstFor(rows, sid, day) == Some(existing)
    ensures CountFor(rows, sid, day) != 0
    ensures CountFor(Updated(rows, existing.id, MarkData(sid, day, status)), sid, day) == CountFor(rows, sid, day)
  {
    var p := ForPred(sid, day);
    var data := MarkData(sid, day, status);
    var i := UpdatedIndex(rows, sid, day, existing);
    Seqs.FilterKeeps(rows, p, existing);
    MarkMerged(existing.id, rows[i].fields, sid, day, status);
    var merged := Row(existing.id, rows[i].fields + data);
    assert p(rows[i]) && p(merged);
    assert Updated(rows, existing.id, data) == rows[i := merged];
    Seqs.FilterLengthUpdate(rows, i, merged, p);
  }

  /** Under unique Ids, the record the snapshot finds is updated at its own index. */
  lemma UpdatedIndex(rows: seq<Row>, sid: int, day: string, existing: Row) returns (i: nat)
    requires UniqueIds(rows) && FirstFor(rows, sid, day) == Some(existing)
    ensures i < |rows| && rows[i] == existing && IsFor(rows[i], sid, day)
    ensures forall j :: 0 <= j < i ==> !IsFor(rows[j], sid, day)
    ensures FindIndex(rows, existing.id) == Some(i)
  {
    i :| 0 <= i < |rows| && rows[i] == existing && IsFor(rows[i], sid, day)
         && forall j :: 0 <= j < i ==> !IsFor(rows[j], sid, day);
    FindOwnId(rows, i, "");
  }

  /** With the snapshot current, afterwards the record found for the pair carries the new status and empty notes. */
  lemma UpsertWritesMark(rows: seq<Row>, sid: int, day: string, status: string)
    requires |rows| > 0 && UniqueIds(rows)
    ensures FirstFor(Upsert(rows, rows, sid, day, status).rows, sid, day).Some?
    ensures var r := FirstFor(Upsert(rows, rows, sid, day, status).rows, sid, day).value;
            Field(r, "status") == Str(status) && Field(r, "notes") == Str("")
  {
    var data := MarkData(sid, day, status);
    var w := Upsert(rows, rows, sid, day, status);
    match FirstFor(rows, sid, day)
    case None =>
      var x := Created(rows, data);
      assert w.rows[|rows|] == x;
      FirstForAt(w.rows, sid, day, |rows|);
    case Some(existing) =>
      var i := UpdatedIndex(rows, sid, day, existing);
      MarkMerged(existing.id, rows[i].fields, sid, day, status);
      var merged := Row(existing.id, rows[i].fields + data);
      assert w.rows == rows[i := merged];
      FirstForAt(w.rows, sid, day, i);
  }

  /** Whatever the snapshot, a write that does not fail leaves a record for the pair in the store. */
  lemma UpsertLeavesRecord(snapshot: seq<Row>, rows: seq<Row>, sid: int, day: string, status: string)
    requires |rows| > 0
    ensures Upsert(snapshot, rows, sid, day, status).outcome != MarkFailed
            ==> FirstFor(Upsert(snapshot, rows, sid, day, status).rows, sid, day).Some?
  {
    var data := MarkData(sid, day, status);
    var w := Upsert(snapshot, rows, sid, day, status);
    match FirstFor(snapshot, sid, day)
    case None =>
      assert w.rows[|rows|] == Created(rows, data);
    case Some(existing) =>
      match FindIndex(rows, existing.id)
      case None =>
      case Some(i) =>
        MarkMerged(existing.id, rows[i].fields, sid, day, status);
        var merged := Row(existing.id, rows[i].fields + data);
        assert w.rows[i] == merged;
  }

  /** The write keeps the store's Ids unique. */
  lemma UpsertKeepsUnique(snapshot: seq<Row>, rows: seq<Row>, sid: int, day: string, status: string)
    requires |rows| > 0 && UniqueIds(rows)
    ensures UniqueIds(Upsert(snapshot, rows, sid, day, status).rows)
  {
    if FirstFor(snapshot, sid, day).None? {
      CreateKeepsUnique(rows, MarkData(sid, day, status));
    }
  }

  /** An alert is composed only for an absence of an active student whose parent email is not empty. */
  lemma AlertOnlyForListedAbsence(all: seq<Student>, sid: int, day: string, status: string, shown: string)
    ensures PageAlert(Active(all), sid, day, status, shown).Some? ==>
              status == "absent" && exists s :: s in all && IsActive(s) && s.id == sid && s.parentEmail != ""
  {
    var r := FindStudent(Active(all), sid);
    if PageAlert(Active(all), sid, day, status, shown).Some? {
      assert r.value in Active(all);
    }
  }

  /** Lines 41-61: the store write of `handleMarkAttendance`. */
  method WriteMark(store: Table, snapshot: seq<Row>, sid: int, day: string, status: string)
    returns (outcome: MarkOutcome)
    requires store.Valid() && |store.rows| > 0
    modifies store
    ensures store.Valid()
    ensures Write(store.rows, outcome) == Upsert(snapshot, old(store.rows), sid, day, status)
  {
    var data := MarkData(sid, day, status);
    var existing := FirstFor(snapshot, sid, day);
    if existing.Some? {
      var r := store.Update(existing.value.id, data);
      outcome := if r.Err? then MarkFailed else MarkUpdated;
    } else {
      var row := store.Create(data);
      outcome := MarkCreated;
    }
  }

  /** `handleMarkAttendance(studentId, date, status)` with `date` as the day
      `day` (its ISO date part) and `shown` (its locale rendering). */
  method MarkAttendance(store: Table, mail: ES.EmailService, snapshot: seq<Row>, students: seq<Student>,
                        sid: int, day: string, status: string, shown: string, now: string)
    returns (outcome: MarkOutcome)
    requires store.Valid() && |store.rows| > 0 && mail.Valid()
    modifies store, mail
    ensures store.Valid() && mail.Valid()
    ensures Write(store.rows, outcome) == Upsert(snapshot, old(store.rows), sid, day, status)
    ensures mail.logs == old(mail.logs)
                         + ES.Stamps(PageSends(outcome, students, sid, day, status, shown), ES.NextId(old(mail.logs)), now)
  {
    outcome := WriteMark(store, snapshot, sid, day, status);
    var sends := PageSends(outcome, students, sid, day, status, shown);
    if sends != [] {
      // the alert, sent only when the write did not throw
      var e := mail.SendEmail(sends[0], now);
      assert ES.Stamps(sends, ES.NextId(old(mail.logs)), now) == [e];
    } else {
      assert ES.Stamps(sends, ES.NextId(old(mail.logs)), now) == [];
    }
  }
}
