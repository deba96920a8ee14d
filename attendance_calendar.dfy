/** The attendance calendar (src/components/organisms/AttendanceCalendar.jsx):
    a month grid with a per-day status summary, and a panel for the selected
    day that offers mark buttons for each student without a record. Marking
    hands the write to the page's handler and then, for an absence, sends
    the calendar's own alert, so an absence is announced twice. */
module AttendanceCalendar {
  import opened Results
  import Seqs
  import opened Entities
  import opened RecordTable
  import opened AttendanceRecords
  import opened AttendancePage
  import ES = EmailService

  // ---------------------------------------------------------------------
  // Per-day summary (`getAttendanceStats`)

  datatype DayStats = DayStats(present: nat, absent: nat, late: nat, total: nat)

  function HasMark(status: string): Row -> bool {
    (r: Row) => Field(r, "status") == Str(status)
  }

  /** How many of `rows` carry the status. */
  function MarkCount(rows: seq<Row>, status: string): nat {
    |Seqs.Filter(rows, HasMark(status))|
  }

  /** The records of a day and how many of them are present, absent and late. */
  function AttendanceStats(attendance: seq<Row>, day: string): (st: DayStats)
    ensures st.present + st.absent + st.late <= st.total
    ensures st.total <= |attendance|
    ensures attendance == [] ==> st == DayStats(0, 0, 0, 0)
  {
    var onDay := Seqs.Filter(attendance, OnDay(day));
    Seqs.DisjointCountsBounded(onDay, HasMark("present"), HasMark("absent"), HasMark("late"));
    DayStats(MarkCount(onDay, "present"), MarkCount(onDay, "absent"), MarkCount(onDay, "late"), |onDay|)
  }

  /** One more record changes the summary of its own day only, by one in its status column. */
  lemma StatsOfAppended(attendance: seq<Row>, r: Row, day: string)
    ensures AttendanceStats(attendance + [r], day)
         == var st := AttendanceStats(attendance, day);
            if Field(r, "date") != Str(day) then st
            else st.(present := st.present + (if Field(r, "status") == Str("present") then 1 else 0),
                     absent := st.absent + (if Field(r, "status") == Str("absent") then 1 else 0),
                     late := st.late + (if Field(r, "status") == Str("late") then 1 else 0),
                     total := st.total + 1)
  {
    var onDay := Seqs.Filter(attendance, OnDay(day));
    FilterSnoc(attendance, r, OnDay(day));
    if Field(r, "date") == Str(day) {
      assert Seqs.Filter(attendance + [r], OnDay(day)) == onDay + [r];
      FilterSnoc(onDay, r, HasMark("present"));
      FilterSnoc(onDay, r, HasMark("absent"));
      FilterSnoc(onDay, r, HasMark("late"));
    } else {
      assert Seqs.Filter(attendance + [r], OnDay(day)) == onDay;
    }
  }

  lemma FilterSnoc<T>(s: seq<T>, x: T, p: T -> bool)
    ensures Seqs.Filter(s + [x], p) == Seqs.Filter(s, p) + (if p(x) then [x] else [])
  {
    Seqs.FilterConcat(s, [x], p);
    assert Seqs.Filter([x], p) == (if p(x) then [x] else []) + Seqs.Filter([], p);
  }

  /** The mark buttons are offered exactly when the student has no record on the day. */
  predicate MarkButtonsShown(attendance: seq<Row>, sid: int, day: string) {
    FirstFor(attendance, sid, day).None?
  }

  /** Once a mark has been written and the records reloaded, the buttons for that student and day are gone.
      This holds because the calendar's day is matched here by equality of ISO days; the page writes the
      UTC day while `isSameDay` compares local days, so away from UTC the record can land on the
      neighbouring day. */
  lemma MarkHidesButtons(snapshot: seq<Row>, rows: seq<Row>, sid: int, day: string, status: string)
    requires |rows| > 0
    requires Upsert(snapshot, rows, sid, day, status).outcome != MarkFailed
    ensures !MarkButtonsShown(Upsert(snapshot, rows, sid, day, status).rows, sid, day)
  {
    UpsertLeavesRecord(snapshot, rows, sid, day, status);
  }

  // ---------------------------------------------------------------------
  // Month navigation

  /** A JavaScript `Date` reduced to year, zero-based month (`getMonth()`) and day of month. */
  datatype CalDate = CalDate(year: int, month: int, day: int)

  /** `new Date(year, month, 1)`: a month outside 0..11 rolls over into the neighbouring years. */
  function MonthStart(year: int, month: int): (c: CalDate)
    ensures 0 <= c.month < 12 && c.day == 1
    ensures MonthIndex(c) == year * 12 + month
  {
    CalDate(year + month / 12, month % 12, 1)
  }

  /** Months counted from year 0. */
  function MonthIndex(c: CalDate): int {
    c.year * 12 + c.month
  }

  function PreviousMonth(c: CalDate): CalDate {
    MonthStart(c.year, c.month - 1)
  }

  function NextMonth(c: CalDate): CalDate {
    MonthStart(c.year, c.month + 1)
  }

  /** Previous and next move one month, and January and December wrap the year. */
  lemma MonthSteps(c: CalDate)
    requires 0 <= c.month < 12
    ensures MonthIndex(PreviousMonth(c)) == MonthIndex(c) - 1 && PreviousMonth(c).day == 1
    ensures MonthIndex(NextMonth(c)) == MonthIndex(c) + 1 && NextMonth(c).day == 1
    ensures c.month == 0 ==> PreviousMonth(c) == CalDate(c.year - 1, 11, 1)
    ensures c.month == 11 ==> NextMonth(c) == CalDate(c.year + 1, 0, 1)
    ensures 0 < c.month ==> PreviousMonth(c) == CalDate(c.year, c.month - 1, 1)
    ensures c.month < 11 ==> NextMonth(c) == CalDate(c.year, c.month + 1, 1)
  {
  }

  /** Two dates with the same month index and day are the same date, when the months are in range. */
  lemma MonthIndexInjective(a: CalDate, b: CalDate)
    requires 0 <= a.month < 12 && 0 <= b.month < 12
    requires MonthIndex(a) == MonthIndex(b) && a.day == b.day
    ensures a == b
  {
  }

  /** Next after previous, and previous after next, return to the first of the month shown. */
  lemma NavigationRoundTrip(c: CalDate)
    requires 0 <= c.month < 12
    ensures NextMonth(PreviousMonth(c)) == c.(day := 1)
    ensures PreviousMonth(NextMonth(c)) == c.(day := 1)
  {
    MonthSteps(c);
    MonthSteps(PreviousMonth(c));
    MonthSteps(NextMonth(c));
    MonthIndexInjective(NextMonth(PreviousMonth(c)), c.(day := 1));
    MonthIndexInjective(PreviousMonth(NextMonth(c)), c.(day := 1));
  }

  // ---------------------------------------------------------------------
  // The calendar's own absence alert

  /** Lines 53-68: an alert for `absent` whenever the student is in the list; the parent email is not checked. */
  function CalendarAlert(students: seq<Student>, sid: int, day: string, status: string, shown: string): (r: Option<ES.Draft>)
    ensures r.Some? <==> status == "absent" && FindStudent(students, sid).Some?
    ensures r.Some? ==> r.value == AbsenceDraft(FindStudent(students, sid).value, sid, day, shown)
  {
    if status != "absent" then None
    else match FindStudent(students, sid)
      case None => None
      case Some(s) => Some(AbsenceDraft(s, sid, day, shown))
  }

  /** Everything one click of a mark button sends: the page's alert, then the calendar's. */
  function ClickSends(outcome: MarkOutcome, students: seq<Student>, sid: int, day: string, status: string,
                      pageShown: string, calendarShown: string): seq<ES.Draft> {
    PageSends(outcome, students, sid, day, status, pageShown)
    + ToSeq(CalendarAlert(students, sid, day, status, calendarShown))
  }

  /** An absence of a listed student with a parent email, written without error, sends two
      alerts for the same day to the same parent; other statuses send none. */
  lemma AbsenceAlertsTwice(outcome: MarkOutcome, students: seq<Student>, sid: int, day: string, status: string,
                           pageShown: string, calendarShown: string)
    ensures status != "absent" ==> ClickSends(outcome, students, sid, day, status, pageShown, calendarShown) == []
    ensures status == "absent" && outcome != MarkFailed && FindStudent(students, sid).Some?
            && FindStudent(students, sid).value.parentEmail != ""
            ==> |ClickSends(outcome, students, sid, day, status, pageShown, calendarShown)| == 2
                && ClickSends(outcome, students, sid, day, status, pageShown, calendarShown)[0].to
                   == ClickSends(outcome, students, sid, day, status, pageShown, calendarShown)[1].to
                && ClickSends(outcome, students, sid, day, status, pageShown, calendarShown)[0].ref
                   == ClickSends(outcome, students, sid, day, status, pageShown, calendarShown)[1].ref
    ensures status == "absent" && outcome == MarkFailed && FindStudent(students, sid).Some?
            ==> ClickSends(outcome, students, sid, day, status, pageShown, calendarShown)
                == [AbsenceDraft(FindStudent(students, sid).value, sid, day, calendarShown)]
  {
  }

  // ---------------------------------------------------------------------

  /** The calendar's React state. */
  class CalendarView {
    /** `currentDate`: the month shown. */
    var current: CalDate
    /** `selectedDate`, as its ISO day. */
    var selectedDay: string

    /** The month shown is a real month of the year. */
    ghost predicate Valid()
      reads this
    {
      0 <= current.month < 12
    }

    /** Both start at the present moment. */
    constructor (today: CalDate, todayDay: string)
      requires 0 <= today.month < 12
      ensures Valid()
      ensures current == today && selectedDay == todayDay
    {
      current := today;
      selectedDay := todayDay;
    }

    /** `handlePreviousMonth`. */
    method HandlePreviousMonth()
      requires Valid()
      modifies this
      ensures Valid()
      ensures current == PreviousMonth(old(current)) && selectedDay == old(selectedDay)
    {
      current := MonthStart(current.year, current.month - 1);
    }

    /** `handleNextMonth`. */
    method HandleNextMonth()
      requires Valid()
      modifies this
      ensures Valid()
      ensures current == NextMonth(old(current)) && selectedDay == old(selectedDay)
    {
      current := MonthStart(current.year, current.month + 1);
    }

    /** `handleDateClick`. */
    method HandleDateClick(day: string)
      requires Valid()
      modifies this
      ensures Valid()
      ensures selectedDay == day && current == old(current)
    {
      selectedDay := day;
    }

    /** `handleMarkAttendance(studentId, status)`: the page's handler on the selected day, then the
        calendar's own alert. `attendance` and `students` are the component's props. */
    method HandleMarkAttendance(store: Table, mail: ES.EmailService, attendance: seq<Row>, students: seq<Student>,
                                sid: int, status: string, pageShown: string, calendarShown: string, now: string)
      returns (outcome: MarkOutcome)
      requires store.Valid() && |store.rows| > 0 && mail.Valid()
      modifies store, mail
      ensures store.Valid() && mail.Valid()
      ensures Write(store.rows, outcome) == Upsert(attendance, old(store.rows), sid, selectedDay, status)
      ensures mail.logs == old(mail.logs)
                           + ES.Stamps(ClickSends(outcome, students, sid, selectedDay, status, pageShown, calendarShown),
                                       ES.NextId(old(mail.logs)), now)
    {
      outcome := MarkAttendance(store, mail, attendance, students, sid, selectedDay, status, pageShown, now);
      ghost var afterPage := mail.logs;
      var alert := CalendarAlert(students, sid, selectedDay, status, calendarShown);
      if alert.Some? {
        var e := mail.SendEmail(alert.value, now);
        assert ES.Stamps([alert.value], ES.NextId(afterPage), now) == [e];
      } else {
        assert ES.Stamps([], ES.NextId(afterPage), now) == [];
      }
      ClickStamps(old(mail.logs), afterPage, PageSends(outcome, students, sid, selectedDay, status, pageShown),
                  ToSeq(alert), now);
    }
  }

  /** The stamps of two runs of sends in a row. */
  lemma ClickStamps(logs: seq<ES.Email>, mid: seq<ES.Email>, first: seq<ES.Draft>, second: seq<ES.Draft>, now: string)
    requires |logs| > 0 && mid == logs + ES.Stamps(first, ES.NextId(logs), now)
    ensures mid + ES.Stamps(second, ES.NextId(mid), now) == logs + ES.Stamps(first + second, ES.NextId(logs), now)
  {
    ES.StampsNextId(logs, first, now);
    ES.StampsOnto(logs, first, second, ES.NextId(logs), now);
  }
}
