/** The grade table (src/components/organisms/GradeTable.jsx): grades sorted
    by a clicked column, a colour band per percentage, the student's name and
    parent address looked up in the `students` prop, and an "email parent"
    button that sends the grade message directly. */
module GradeTable {
  import opened Results
  import opened Entities
  import opened TableSort
  import ES = EmailService

  /** The sortable columns. */
  datatype GradeColumn = StudentName | Subject | AssignmentName | Type | Score | Date

  /** Lines 25-30: the name a grade sorts under, "" for a student not in the list. */
  function NameKey(students: seq<Student>, g: Grade): (name: string)
    ensures FindStudent(students, g.studentId).None? ==> name == ""
    ensures FindStudent(students, g.studentId).Some? ==> name == FullName(FindStudent(students, g.studentId).value)
  {
    match FindStudent(students, g.studentId)
    case None => ""
    case Some(s) => FullName(s)
  }

  /** The value `a[sortConfig.key]` of a column. */
  function ColumnValue(students: seq<Student>, column: GradeColumn): Grade -> Key {
    (g: Grade) =>
      match column
      case StudentName => Text(NameKey(students, g))
      case Subject => Text(g.subject)
      case AssignmentName => Text(g.assignmentName)
      case Type => Text(g.kind)
      case Score => Num(g.score)
      case Date => Text(g.date)
  }

  function SortColumn(students: seq<Student>, key: Option<GradeColumn>): Option<Grade -> Key> {
    match key
    case None => None
    case Some(c) => Some(ColumnValue(students, c))
  }

  /** `sortedGrades`: a permutation of the grades, unchanged without a column,
      otherwise ordered by that column in the chosen direction. */
  function SortedGrades(grades: seq<Grade>, students: seq<Student>, cfg: SortConfig<GradeColumn>): (r: seq<Grade>)
    ensures multiset(r) == multiset(grades)
    ensures cfg.key.None? ==> r == grades
    ensures cfg.key.Some? ==> Ordered(r, SortColumn(students, cfg.key), cfg.direction)
  {
    SortByPermutation(grades, SortColumn(students, cfg.key), cfg.direction);
    SortByOrdered(grades, SortColumn(students, cfg.key), cfg.direction);
    if cfg.key.None? then
      SortUnkeyed(grades, cfg.direction);
      SortBy(grades, None, cfg.direction)
    else
      SortBy(grades, SortColumn(students, cfg.key), cfg.direction)
  }

  /** Sorted by score, the scores run up when ascending and down when descending. */
  lemma SortedByScore(grades: seq<Grade>, students: seq<Student>, dir: Direction, i: int, j: int)
    requires 0 <= i < j < |grades|
    ensures var r := SortedGrades(grades, students, SortConfig(Some(Score), dir));
            if dir == Asc then r[i].score <= r[j].score else r[i].score >= r[j].score
  {
    var r := SortedGrades(grades, students, SortConfig(Some(Score), dir));
    assert |r| == |grades| by {
      assert |multiset(r)| == |multiset(grades)|;
    }
    OrderedMeans(r, ColumnValue(students, Score), dir, i, j);
  }

  /** `getGradeColor`. */
  function GradeColor(percentage: int): (c: string)
    ensures c == "success" <==> percentage >= 90
    ensures c == "primary" <==> 80 <= percentage < 90
    ensures c == "warning" <==> 70 <= percentage < 80
    ensures c == "error" <==> percentage < 70
  {
    if percentage >= 90 then "success"
    else if percentage >= 80 then "primary"
    else if percentage >= 70 then "warning"
    else "error"
  }

  /** The bands in order from worst to best. */
  function BandRank(c: string): nat {
    match c
    case "error" => 0
    case "warning" => 1
    case "primary" => 2
    case _ => 3
  }

  /** A higher percentage never gets a worse band. */
  lemma GradeColorMonotone(p: int, q: int)
    requires p <= q
    ensures BandRank(GradeColor(p)) <= BandRank(GradeColor(q))
  {
  }

  /** `getStudentName`: the full name, or "Unknown". */
  function StudentNameOf(students: seq<Student>, studentId: int): (name: string)
    ensures FindStudent(students, studentId).None? ==> name == "Unknown"
    ensures FindStudent(students, studentId).Some? ==> name == FullName(FindStudent(students, studentId).value)
  {
    match FindStudent(students, studentId)
    case None => "Unknown"
    case Some(s) => FullName(s)
  }

  /** The name shown and the name sorted by agree except for a missing student. */
  lemma ShownNameIsSortName(students: seq<Student>, g: Grade)
    ensures FindStudent(students, g.studentId).Some? ==> StudentNameOf(students, g.studentId) == NameKey(students, g)
    ensures FindStudent(students, g.studentId).None? ==> StudentNameOf(students, g.studentId) != NameKey(students, g)
  {
  }

  /** `getParentEmail`: `student?.parentEmail || "No parent email"`, so an empty address also shows the fallback. */
  function ParentEmailOf(students: seq<Student>, studentId: int): (email: string)
    ensures email != ""
    ensures email == "No parent email" <==>
              FindStudent(students, studentId).None? || FindStudent(students, studentId).value.parentEmail in {"", "No parent email"}
    ensures email != "No parent email" ==> email == FindStudent(students, studentId).value.parentEmail
  {
    match FindStudent(students, studentId)
    case None => "No parent email"
    case Some(s) => if s.parentEmail == "" then "No parent email" else s.parentEmail
  }

  /** What `handleEmailParent` sends: the dispatcher's grade message, with no preference check. */
  function EmailParentDraft(students: seq<Student>, g: Grade, percent: int): (r: Option<ES.Draft>)
    ensures r.Some? <==> FindStudent(students, g.studentId).Some?
    ensures r.Some? ==> r.value == ES.GradeDraft(FindStudent(students, g.studentId).value, g, percent)
  {
    match FindStudent(students, g.studentId)
    case None => None
    case Some(s) => Some(ES.GradeDraft(s, g, percent))
  }

  /** The button sends the same message as the dispatcher's grade notification, but also when the
      parent has turned grade updates off or has no preferences at all. */
  lemma EmailParentBypassesPreferences(students: seq<Student>, byId: map<int, Student>, prefs: map<string, Prefs>,
                                       g: Grade, percent: int)
    requires FindStudent(students, g.studentId).Some?
    requires g.studentId in byId && byId[g.studentId] == FindStudent(students, g.studentId).value
    ensures ES.GradeNotice(g, byId, prefs, percent).Some? ==>
              EmailParentDraft(students, g, percent) == ES.GradeNotice(g, byId, prefs, percent)
    ensures EmailParentDraft(students, g, percent).Some?
  {
  }

  /** `handleEmailParent(grade)`: `false` for "Student not found", otherwise the one message is sent. */
  method EmailParent(mail: ES.EmailService, students: seq<Student>, g: Grade, percent: int, now: string)
    returns (sent: bool)
    requires mail.Valid()
    modifies mail
    ensures mail.Valid()
    ensures sent <==> FindStudent(students, g.studentId).Some?
    ensures mail.logs == old(mail.logs) + ES.Stamps(ToSeq(EmailParentDraft(students, g, percent)), ES.NextId(old(mail.logs)), now)
  {
    var d := EmailParentDraft(students, g, percent);
    if d.None? {
      sent := false;
      assert ES.Stamps([], ES.NextId(old(mail.logs)), now) == [];
      return;
    }
    var e := mail.SendEmail(d.value, now);
    assert ES.Stamps([d.value], ES.NextId(old(mail.logs)), now) == [e];
    sent := true;
  }
}
