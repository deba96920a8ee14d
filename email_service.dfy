/** The in-memory email log and the notification dispatcher
    (`EmailService` in src/services/api/emailService.js).

    The log is an append-only sequence of sent messages. `SendEmail`
    stamps a draft with the next Id, the current time and status "sent".
    The three `Trigger*` methods look up the student and the parent's
    preferences and send only when the preference flag is set; the bulk
    path sends to every recipient without looking at preferences.

    Lookups into the remote store are parameters: `students` maps an Id to
    the record `studentService.getById` returns (an absent key is its
    `null`), and `prefs` maps a parent email to the record
    `notificationPreferencesService.getByParentEmail` resolves to (an
    absent key is the `null` it can return). Reading a field of `null`
    throws inside the `try` block, so nothing further is sent. */
module EmailService {
  import opened Results
  import Seqs
  import opened Text
  import opened Entities

  /** The correlation field a message carries besides its `studentId`. */
  datatype Ref =
    | NoRef
    | GradeId(gradeId: int)
    | AttendanceId(attendanceId: int)
    | AssignmentId(assignmentId: int)
    | ForDate(date: string)

  /** The `emailData` object a caller hands to `sendEmail`. */
  datatype Draft = Draft(to: string, subject: string, body: string, kind: string, studentId: int, ref: Ref)

  /** A logged message: a draft plus the fields `sendEmail` adds. */
  datatype Email = Email(
    id: int,
    to: string,
    subject: string,
    body: string,
    kind: string,
    studentId: int,
    ref: Ref,
    timestamp: string,
    status: string)

  /** The counters `getStats` returns. */
  datatype Stats = Stats(sent: nat, pending: nat, failed: nat)

  /** `{ Id: id, ...d, timestamp: now, status: 'sent' }`. */
  function Stamp(d: Draft, id: int, now: string): (e: Email)
    ensures e.id == id && e.timestamp == now && e.status == "sent"
    ensures Content(e) == d
  {
    Email(id, d.to, d.subject, d.body, d.kind, d.studentId, d.ref, now, "sent")
  }

  /** The part of a logged message that came from its draft. */
  function Content(e: Email): Draft {
    Draft(e.to, e.subject, e.body, e.kind, e.studentId, e.ref)
  }

  /** `this.emailLogs.map(e => e.Id)`. */
  function Ids(logs: seq<Email>): (r: seq<int>)
    ensures |r| == |logs|
    ensures forall i :: 0 <= i < |logs| ==> r[i] == logs[i].id
  {
    Seqs.Map(logs, (x: Email) => x.id)
  }

  /** `Math.max(...this.emailLogs.map(e => e.Id)) + 1`. */
  function NextId(logs: seq<Email>): (n: int)
    requires |logs| > 0
    ensures forall i :: 0 <= i < |logs| ==> logs[i].id < n
    ensures exists i :: 0 <= i < |logs| && logs[i].id == n - 1
  {
    Seqs.Max(Ids(logs)) + 1
  }

  /** The messages successive `sendEmail` calls log for `ds`, Ids counting up from `first`. */
  function Stamps(ds: seq<Draft>, first: int, now: string): (es: seq<Email>)
    ensures |es| == |ds|
    ensures forall k :: 0 <= k < |ds| ==> es[k] == Stamp(ds[k], first + k, now)
  {
    seq(|ds|, k requires 0 <= k < |ds| => Stamp(ds[k], first + k, now))
  }

  lemma StampsSnoc(ds: seq<Draft>, d: Draft, first: int, now: string)
    ensures Stamps(ds + [d], first, now) == Stamps(ds, first, now) + [Stamp(d, first + |ds|, now)]
  {
    var l, r := Stamps(ds + [d], first, now), Stamps(ds, first, now) + [Stamp(d, first + |ds|, now)];
    assert |l| == |r|;
    forall k | 0 <= k < |l| ensures l[k] == r[k] {
      if k < |ds| { assert (ds + [d])[k] == ds[k]; }
    }
  }

  /** Two runs of sends in a row stamp the same as one run over both. */
  lemma StampsAppend(ds: seq<Draft>, es: seq<Draft>, first: int, now: string)
    ensures Stamps(ds, first, now) + Stamps(es, first + |ds|, now) == Stamps(ds + es, first, now)
  {
    var l, r := Stamps(ds, first, now) + Stamps(es, first + |ds|, now), Stamps(ds + es, first, now);
    assert |l| == |r|;
    forall k | 0 <= k < |l| ensures l[k] == r[k] {
      if k < |ds| { assert (ds + es)[k] == ds[k]; } else { assert (ds + es)[k] == es[k - |ds|]; }
    }
  }

  /** Stamping two runs onto a log one after the other is stamping their concatenation. */
  lemma StampsOnto(logs: seq<Email>, ds: seq<Draft>, es: seq<Draft>, first: int, now: string)
    ensures logs + Stamps(ds, first, now) + Stamps(es, first + |ds|, now) == logs + Stamps(ds + es, first, now)
  {
    StampsAppend(ds, es, first, now);
    assert logs + Stamps(ds, first, now) + Stamps(es, first + |ds|, now)
        == logs + (Stamps(ds, first, now) + Stamps(es, first + |ds|, now));
  }

  /** Appending the stamped message makes its Id the new maximum and keeps Ids distinct. */
  lemma {:induction false} SendKeepsIds(logs: seq<Email>, d: Draft, now: string)
    requires |logs| > 0
    ensures NextId(logs + [Stamp(d, NextId(logs), now)]) == NextId(logs) + 1
    ensures Seqs.Distinct(Ids(logs)) ==> Seqs.Distinct(Ids(logs + [Stamp(d, NextId(logs), now)]))
  {
    var e := Stamp(d, NextId(logs), now);
    assert Ids(logs + [e]) == Ids(logs) + [e.id];
    Seqs.MaxAppendAbove(Ids(logs), e.id);
    if Seqs.Distinct(Ids(logs)) {
      Seqs.DistinctAppendAbove(Ids(logs), e.id);
    }
  }

  /** A run of sends gives consecutive fresh Ids, so distinct Ids stay distinct. */
  lemma StampsKeepIdsDistinct(logs: seq<Email>, ds: seq<Draft>, now: string)
    requires |logs| > 0 && Seqs.Distinct(Ids(logs))
    ensures Seqs.Distinct(Ids(logs + Stamps(ds, NextId(logs), now)))
  {
    var n := NextId(logs);
    var all := logs + Stamps(ds, n, now);
    forall i, j | 0 <= i < j < |all| ensures Ids(all)[i] != Ids(all)[j] {
      if j < |logs| {
        assert all[i] == logs[i] && all[j] == logs[j];
        assert Ids(logs)[i] != Ids(logs)[j];
      } else if i < |logs| {
        assert all[i] == logs[i] && all[j].id == n + (j - |logs|);
      } else {
        assert all[i].id == n + (i - |logs|) && all[j].id == n + (j - |logs|);
      }
    }
  }

  /** After a run of sends the next Id has advanced by the number sent. */
  lemma StampsNextId(logs: seq<Email>, ds: seq<Draft>, now: string)
    requires |logs| > 0
    ensures NextId(logs + Stamps(ds, NextId(logs), now)) == NextId(logs) + |ds|
  {
    var n := NextId(logs);
    var all := logs + Stamps(ds, n, now);
    if ds == [] {
      assert all == logs;
    } else {
      var top := n + |ds| - 1;
      forall i | 0 <= i < |all| ensures Ids(all)[i] <= top {
        if i < |logs| { assert all[i] == logs[i]; } else { assert all[i].id == n + (i - |logs|); }
      }
      assert all[|all| - 1].id == top;
      Seqs.MaxIs(Ids(all), |all| - 1, top);
    }
  }

  // ---------------------------------------------------------------------
  // getStats

  function TimestampedOn(today: string): Email -> bool {
    (e: Email) => StartsWith(e.timestamp, today)
  }

  function HasStatus(status: string): Email -> bool {
    (e: Email) => e.status == status
  }

  /** `this.emailLogs.filter(e => e.timestamp.startsWith(today))`. */
  function TodayEmails(logs: seq<Email>, today: string): (r: seq<Email>)
    ensures forall e :: e in r <==> e in logs && StartsWith(e.timestamp, today)
    ensures Seqs.IsSubsequence(r, logs)
  {
    Seqs.FilterMembership(logs, TimestampedOn(today));
    Seqs.FilterIsSubsequence(logs, TimestampedOn(today));
    Seqs.Filter(logs, TimestampedOn(today))
  }

  /** How many of `es` have the given status. */
  function StatusCount(es: seq<Email>, status: string): nat {
    |Seqs.Filter(es, HasStatus(status))|
  }

  /** What `getStats` returns when the current date's ISO day is `today`. */
  function TodayStats(logs: seq<Email>, today: string): (s: Stats)
    ensures s.sent + s.pending + s.failed <= |TodayEmails(logs, today)|
    ensures logs == [] ==> s == Stats(0, 0, 0)
  {
    var t := TodayEmails(logs, today);
    Seqs.DisjointCountsBounded(t, HasStatus("sent"), HasStatus("pending"), HasStatus("failed"));
    Stats(StatusCount(t, "sent"), StatusCount(t, "pending"), StatusCount(t, "failed"))
  }

  /** A message sent now with a timestamp on `today` adds one to today's `sent`; any other leaves the counters alone. */
  lemma SendCountsToday(logs: seq<Email>, d: Draft, id: int, now: string, today: string)
    ensures TodayStats(logs + [Stamp(d, id, now)], today)
         == var s := TodayStats(logs, today);
            if StartsWith(now, today) then s.(sent := s.sent + 1) else s
  {
    var e := Stamp(d, id, now);
    Seqs.FilterConcat(logs, [e], TimestampedOn(today));
    var t := TodayEmails(logs, today);
    if StartsWith(now, today) {
      assert Seqs.Filter([e], TimestampedOn(today)) == [e];
      assert TodayEmails(logs + [e], today) == t + [e];
      Seqs.FilterConcat(t, [e], HasStatus("sent"));
      Seqs.FilterConcat(t, [e], HasStatus("pending"));
      Seqs.FilterConcat(t, [e], HasStatus("failed"));
    } else {
      assert Seqs.Filter([e], TimestampedOn(today)) == [];
      assert TodayEmails(logs + [e], today) == t;
    }
  }

  // ---------------------------------------------------------------------
  // The messages each entry point composes

  /** The grade-update message composed for `s` about grade `g`;
      `percent` is `Math.round(g.score / g.maxScore * 100)`. */
  function GradeDraft(s: Student, g: Grade, percent: int): (d: Draft)
    ensures d.kind == "grade_update" && d.to == s.parentEmail
    ensures d.studentId == g.studentId && d.ref == GradeId(g.id)
    ensures Contains(d.subject, FullName(s))
    ensures Contains(d.body, IntToString(percent) + "%")
  {
    var pre := "Your child " + FullName(s) + " received a grade of " + IntToString(g.score) + "/"
               + IntToString(g.maxScore) + " (";
    var post := ") on " + g.assignmentName + " in " + g.subject + ".";
    ContainsInfix(pre, IntToString(percent) + "%", post);
    ContainsInfix("Grade Update for ", FullName(s), "");
    assert "Grade Update for " + FullName(s) + "" == "Grade Update for " + FullName(s);
    assert pre + (IntToString(percent) + "%") + post
        == pre + IntToString(percent) + "%" + post;
    Draft(s.parentEmail, "Grade Update for " + FullName(s),
          pre + IntToString(percent) + "%" + post, "grade_update", g.studentId, GradeId(g.id))
  }

  /** The attendance alert composed for `s` about record `a`. */
  function AttendanceDraft(s: Student, a: AttendanceMark): (d: Draft)
    ensures d.kind == "attendance_alert" && d.to == s.parentEmail
    ensures d.studentId == a.studentId && d.ref == AttendanceId(a.id)
    ensures Contains(d.body, " marked " + a.status + " on ")
    ensures Contains(d.body, " on " + a.date + ".")
  {
    var head := "Your child " + FullName(s) + " was";
    ContainsInfix(head, " marked " + a.status + " on ", a.date + ".");
    assert head + (" marked " + a.status + " on ") + (a.date + ".")
        == head + " marked " + a.status + " on " + a.date + ".";
    ContainsInfix(head + " marked " + a.status, " on " + a.date + ".", "");
    assert head + " marked " + a.status + (" on " + a.date + ".") + ""
        == head + " marked " + a.status + " on " + a.date + ".";
    Draft(s.parentEmail, "Attendance Alert for " + FullName(s),
          head + " marked " + a.status + " on " + a.date + ".",
          "attendance_alert", a.studentId, AttendanceId(a.id))
  }

  /** The assignment notice composed for `s`; `shownDue` is `dueDate.toLocaleDateString()`. */
  function AssignmentDraft(s: Student, a: Assignment, shownDue: string): (d: Draft)
    ensures d.kind == "assignment_notification" && d.to == s.parentEmail
    ensures d.studentId == s.id && d.ref == AssignmentId(a.id)
    ensures d.subject == "New Assignment: " + a.title
  {
    Draft(s.parentEmail, "New Assignment: " + a.title,
          "Your child " + FullName(s) + " has a new assignment \"" + a.title + "\" in "
          + a.subject + ". Due date: " + shownDue + ".",
          "assignment_notification", s.id, AssignmentId(a.id))
  }

  /** The message `bulkSendEmail` composes for one recipient. */
  function BulkDraft(r: Recipient, subject: string, body: string): Draft {
    Draft(r.email, subject, body, "bulk_email", r.id, NoRef)
  }

  // ---------------------------------------------------------------------
  // What each entry point sends

  /** `triggerGradeNotification`: one grade update when the student and the
      parent's preferences resolve and `gradeUpdates` is set, otherwise nothing. */
  function GradeNotice(g: Grade, students: map<int, Student>, prefs: map<string, Prefs>, percent: int): (r: Option<Draft>)
    ensures r.Some? <==> (g.studentId in students && students[g.studentId].parentEmail in prefs
                          && prefs[students[g.studentId].parentEmail].gradeUpdates)
    ensures r.Some? ==> r.value == GradeDraft(students[g.studentId], g, percent)
  {
    if g.studentId !in students then None
    else
      var s := students[g.studentId];
      if s.parentEmail !in prefs || !prefs[s.parentEmail].gradeUpdates then None
      else Some(GradeDraft(s, g, percent))
  }

  /** `triggerAttendanceNotification`: gated on `attendanceAlerts` only; the
      record's status is not looked at. */
  function AttendanceNotice(a: AttendanceMark, students: map<int, Student>, prefs: map<string, Prefs>): (r: Option<Draft>)
    ensures r.Some? <==> (a.studentId in students && students[a.studentId].parentEmail in prefs
                          && prefs[students[a.studentId].parentEmail].attendanceAlerts)
    ensures r.Some? ==> r.value == AttendanceDraft(students[a.studentId], a)
  {
    if a.studentId !in students then None
    else
      var s := students[a.studentId];
      if s.parentEmail !in prefs || !prefs[s.parentEmail].attendanceAlerts then None
      else Some(AttendanceDraft(s, a))
  }

  /** The students the fan-out gets through before a preference lookup fails. */
  function Reached(students: seq<Student>, prefs: map<string, Prefs>): (r: seq<Student>)
    ensures |r| <= |students| && r == students[..|r|]
    ensures forall i :: 0 <= i < |r| ==> r[i].parentEmail in prefs
    ensures |r| < |students| ==> students[|r|].parentEmail !in prefs
    decreases |students|
  {
    if students == [] || students[0].parentEmail !in prefs then []
    else [students[0]] + Reached(students[1..], prefs)
  }

  function WantsAssignments(prefs: map<string, Prefs>): Student -> bool {
    (s: Student) => s.parentEmail in prefs && prefs[s.parentEmail].assignmentDeadlines
  }

  /** The students `triggerAssignmentNotification` notifies, in order: the active
      ones reached before any failed lookup whose parents want assignment notices. */
  function NotifiedStudents(all: seq<Student>, prefs: map<string, Prefs>): seq<Student> {
    Seqs.Filter(Reached(Active(all), prefs), WantsAssignments(prefs))
  }

  function AssignmentDrafts(students: seq<Student>, a: Assignment, shownDue: string): (ds: seq<Draft>)
    ensures |ds| == |students|
    ensures forall k :: 0 <= k < |students| ==> ds[k] == AssignmentDraft(students[k], a, shownDue)
  {
    seq(|students|, k requires 0 <= k < |students| => AssignmentDraft(students[k], a, shownDue))
  }

  /** `triggerAssignmentNotification`: one notice per notified student. */
  function AssignmentNotices(all: seq<Student>, prefs: map<string, Prefs>, a: Assignment, shownDue: string): seq<Draft> {
    AssignmentDrafts(NotifiedStudents(all, prefs), a, shownDue)
  }

  /** `bulkSendEmail`: one message per recipient, in recipient order. */
  function BulkDrafts(recipients: seq<Recipient>, subject: string, body: string): (ds: seq<Draft>)
    ensures |ds| == |recipients|
    ensures forall k :: 0 <= k < |ds| ==> ds[k] == BulkDraft(recipients[k], subject, body)
  {
    seq(|recipients|, k requires 0 <= k < |recipients| => BulkDraft(recipients[k], subject, body))
  }

  // ---------------------------------------------------------------------
  // Properties of the dispatcher

  /** Whatever the flags, the assignment fan-out only reaches active students
      whose parents have `assignmentDeadlines` set, and only in student order. */
  lemma NotifiedAreActiveAndOptedIn(all: seq<Student>, prefs: map<string, Prefs>)
    ensures forall s :: s in NotifiedStudents(all, prefs) ==>
              s in all && IsActive(s) && s.parentEmail in prefs && prefs[s.parentEmail].assignmentDeadlines
    ensures Seqs.IsSubsequence(NotifiedStudents(all, prefs), all)
  {
    var active := Active(all);
    var reached := Reached(active, prefs);
    forall s | s in reached ensures s in active {
      var i :| 0 <= i < |reached| && reached[i] == s;
      assert active[i] == s;
    }
    Seqs.FilterIsSubsequence(reached, WantsAssignments(prefs));
    PrefixIsSubsequence(active, |reached|);
    SubsequenceTransitive(NotifiedStudents(all, prefs), reached, active);
    SubsequenceTransitive(NotifiedStudents(all, prefs), active, all);
  }

  /** When every active student's preferences resolve, the fan-out sends
      exactly one notice per active student whose parent opted in. */
  lemma AssignmentNoticesCount(all: seq<Student>, prefs: map<string, Prefs>, a: Assignment, shownDue: string)
    requires forall s :: s in all && IsActive(s) ==> s.parentEmail in prefs
    ensures |AssignmentNotices(all, prefs, a, shownDue)| == |Seqs.Filter(Active(all), WantsAssignments(prefs))|
  {
    var active := Active(all);
    var reached := Reached(active, prefs);
    if |reached| < |active| {
      assert false;
    }
    assert reached == active;
  }

  lemma {:induction false} PrefixIsSubsequence<T>(s: seq<T>, k: nat)
    requires k <= |s|
    ensures Seqs.IsSubsequence(s[..k], s)
    decreases |s|
  {
    if k > 0 {
      PrefixIsSubsequence(s[1..], k - 1);
      assert s[..k][1..] == s[1..][..k - 1];
    }
  }

  lemma {:induction false} SubsequenceTransitive<T>(a: seq<T>, b: seq<T>, c: seq<T>)
    requires Seqs.IsSubsequence(a, b) && Seqs.IsSubsequence(b, c)
    ensures Seqs.IsSubsequence(a, c)
    decreases |c|
  {
    if a != [] {
      if b[0] == c[0] {
        if a[0] == b[0] {
          SubsequenceTransitive(a[1..], b[1..], c[1..]);
        } else {
          SubsequenceTransitive(a, b[1..], c[1..]);
          Seqs.SubsequenceOfTail(a, c);
        }
      } else {
        SubsequenceTransitive(a, b, c[1..]);
        Seqs.SubsequenceOfTail(a, c);
      }
    }
  }

  // ---------------------------------------------------------------------

  class EmailService {
    /** `this.emailLogs`, oldest first. */
    var logs: seq<Email>

    /** The log is never empty (so `Math.max` of its Ids is a number) and its Ids are distinct. */
    ghost predicate Valid()
      reads this
    {
      |logs| > 0 && Seqs.Distinct(Ids(logs))
    }

    /** `this.emailLogs = [...emailLogsData]`. */
    constructor (seed: seq<Email>)
      requires |seed| > 0 && Seqs.Distinct(Ids(seed))
      ensures Valid() && logs == seed
    {
      logs := seed;
    }

    /** `sendEmail(emailData)`: appends the stamped message and returns a copy of it. */
    method SendEmail(d: Draft, now: string) returns (e: Email)
      requires Valid()
      modifies this
      ensures Valid()
      ensures e == Stamp(d, NextId(old(logs)), now)
      ensures logs == old(logs) + [e]
      ensures NextId(logs) == NextId(old(logs)) + 1
    {
      e := Stamp(d, Seqs.Max(Ids(logs)) + 1, now);
      SendKeepsIds(logs, d, now);
      logs := logs + [e];
    }

    /** `getEmailLogs()`: a copy of the log. */
    method GetEmailLogs() returns (r: seq<Email>)
      ensures r == logs
    {
      r := logs;
    }

    /** `getStats()` on the day whose ISO prefix is `today`. */
    method GetStats(today: string) returns (s: Stats)
      ensures s == TodayStats(logs, today)
    {
      s := TodayStats(logs, today);
    }

    method TriggerGradeNotification(g: Grade, students: map<int, Student>, prefs: map<string, Prefs>,
                                    percent: int, now: string)
      requires Valid()
      modifies this
      ensures Valid()
      ensures logs == old(logs) + Stamps(ToSeq(GradeNotice(g, students, prefs, percent)), NextId(old(logs)), now)
    {
      var notice := GradeNotice(g, students, prefs, percent);
      if notice.Some? {
        var e := SendEmail(notice.value, now);
        assert Stamps([notice.value], NextId(old(logs)), now) == [e];
      } else {
        assert Stamps([], NextId(old(logs)), now) == [];
      }
    }

    method TriggerAttendanceNotification(a: AttendanceMark, students: map<int, Student>,
                                         prefs: map<string, Prefs>, now: string)
      requires Valid()
      modifies this
      ensures Valid()
      ensures logs == old(logs) + Stamps(ToSeq(AttendanceNotice(a, students, prefs)), NextId(old(logs)), now)
    {
      var notice := AttendanceNotice(a, students, prefs);
      if notice.Some? {
        var e := SendEmail(notice.value, now);
        assert Stamps([notice.value], NextId(old(logs)), now) == [e];
      } else {
        assert Stamps([], NextId(old(logs)), now) == [];
      }
    }

    /** `triggerAssignmentNotification`: `all` is what `studentService.getAll()` returned. */
    method TriggerAssignmentNotification(a: Assignment, all: seq<Student>, prefs: map<string, Prefs>,
                                         shownDue: string, now: string)
      requires Valid()
      modifies this
      ensures Valid()
      ensures logs == old(logs) + Stamps(AssignmentNotices(all, prefs, a, shownDue), NextId(old(logs)), now)
    {
      var active := Active(all);
      var base := NextId(logs);
      ghost var notified: seq<Student> := [];
      var i := 0;
      while i < |active|
        invariant 0 <= i <= |active|
        invariant Valid()
        invariant i <= |Reached(active, prefs)|
        invariant notified == Seqs.Filter(active[..i], WantsAssignments(prefs))
        invariant logs == old(logs) + Stamps(AssignmentDrafts(notified, a, shownDue), base, now)
        invariant NextId(logs) == base + |notified|
      {
        var s := active[i];
        if s.parentEmail !in prefs {
          // reading a field of the `null` preferences throws; the catch ends the fan-out
          break;
        }
        ReachedStep(active, prefs, i);
        FilterStep(active, i, WantsAssignments(prefs));
        if prefs[s.parentEmail].assignmentDeadlines {
          ghost var before := logs;
          var e := SendEmail(AssignmentDraft(s, a, shownDue), now);
          AssignmentStep(old(logs), before, notified, s, a, shownDue, base, now, e);
          notified := notified + [s];
        }
        i := i + 1;
      }
      ReachedIsPrefix(active, prefs, i);
    }

    /** `bulkSendEmail(recipients, subject, body)`: returns the logged messages in recipient order. */
    method BulkSendEmail(recipients: seq<Recipient>, subject: string, body: string, now: string)
      returns (results: seq<Email>)
      requires Valid()
      modifies this
      ensures Valid()
      ensures results == Stamps(BulkDrafts(recipients, subject, body), NextId(old(logs)), now)
      ensures logs == old(logs) + results
    {
      var base := NextId(logs);
      results := [];
      for i := 0 to |recipients|
        invariant Valid()
        invariant results == Stamps(BulkDrafts(recipients[..i], subject, body), base, now)
        invariant logs == old(logs) + results
        invariant NextId(logs) == base + i
      {
        ghost var before := logs;
        var e := SendEmail(BulkDraft(recipients[i], subject, body), now);
        BulkStep(old(logs), before, results, recipients, i, subject, body, base, now, e);
        results := results + [e];
      }
      assert recipients[..|recipients|] == recipients;
    }
  }

  lemma AssignmentStep(logs0: seq<Email>, before: seq<Email>, notified: seq<Student>, s: Student,
                       a: Assignment, shownDue: string, base: int, now: string, e: Email)
    requires |before| > 0
    requires before == logs0 + Stamps(AssignmentDrafts(notified, a, shownDue), base, now)
    requires NextId(before) == base + |notified|
    requires e == Stamp(AssignmentDraft(s, a, shownDue), NextId(before), now)
    ensures before + [e] == logs0 + Stamps(AssignmentDrafts(notified + [s], a, shownDue), base, now)
  {
    AssignmentDraftsSnoc(notified, s, a, shownDue);
    StampsSnoc(AssignmentDrafts(notified, a, shownDue), AssignmentDraft(s, a, shownDue), base, now);
  }

  lemma BulkStep(logs0: seq<Email>, before: seq<Email>, results: seq<Email>, recipients: seq<Recipient>, i: nat,
                 subject: string, body: string, base: int, now: string, e: Email)
    requires i < |recipients| && |before| > 0
    requires results == Stamps(BulkDrafts(recipients[..i], subject, body), base, now)
    requires before == logs0 + results && NextId(before) == base + i
    requires e == Stamp(BulkDraft(recipients[i], subject, body), NextId(before), now)
    ensures results + [e] == Stamps(BulkDrafts(recipients[..i + 1], subject, body), base, now)
    ensures before + [e] == logs0 + (results + [e])
  {
    BulkDraftsSnoc(recipients, i, subject, body);
    StampsSnoc(BulkDrafts(recipients[..i], subject, body), BulkDraft(recipients[i], subject, body), base, now);
  }

  lemma FilterStep<T>(s: seq<T>, i: nat, p: T -> bool)
    requires i < |s|
    ensures Seqs.Filter(s[..i + 1], p) == Seqs.Filter(s[..i], p) + (if p(s[i]) then [s[i]] else [])
  {
    assert s[..i + 1] == s[..i] + [s[i]];
    Seqs.FilterConcat(s[..i], [s[i]], p);
    assert Seqs.Filter([s[i]], p) == (if p(s[i]) then [s[i]] else []) + Seqs.Filter([], p);
  }

  lemma AssignmentDraftsSnoc(students: seq<Student>, s: Student, a: Assignment, shownDue: string)
    ensures AssignmentDrafts(students + [s], a, shownDue)
         == AssignmentDrafts(students, a, shownDue) + [AssignmentDraft(s, a, shownDue)]
  {
    var l, r := AssignmentDrafts(students + [s], a, shownDue),
                AssignmentDrafts(students, a, shownDue) + [AssignmentDraft(s, a, shownDue)];
    forall k | 0 <= k < |l| ensures l[k] == r[k] {
      if k < |students| { assert (students + [s])[k] == students[k]; }
    }
  }

  lemma BulkDraftsSnoc(recipients: seq<Recipient>, i: nat, subject: string, body: string)
    requires i < |recipients|
    ensures BulkDrafts(recipients[..i + 1], subject, body)
         == BulkDrafts(recipients[..i], subject, body) + [BulkDraft(recipients[i], subject, body)]
  {
    var l, r := BulkDrafts(recipients[..i + 1], subject, body),
                BulkDrafts(recipients[..i], subject, body) + [BulkDraft(recipients[i], subject, body)];
    forall k | 0 <= k < |l| ensures l[k] == r[k] {
      assert recipients[..i + 1][k] == recipients[k];
    }
  }

  lemma ReachedStep(students: seq<Student>, prefs: map<string, Prefs>, i: nat)
    requires i < |students| && i <= |Reached(students, prefs)| && students[i].parentEmail in prefs
    ensures i + 1 <= |Reached(students, prefs)|
  {
  }

  /** The loop of the fan-out stops exactly where `Reached` does. */
  lemma ReachedIsPrefix(students: seq<Student>, prefs: map<string, Prefs>, i: nat)
    requires i <= |students|
    requires i <= |Reached(students, prefs)|
    requires i < |students| ==> students[i].parentEmail !in prefs
    ensures Reached(students, prefs) == students[..i]
  {
    var r := Reached(students, prefs);
    if |r| != i {
      assert false;
    }
  }
}
