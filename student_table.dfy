/** The student table (src/components/organisms/StudentTable.jsx): students
    sorted by a clicked column and a badge per enrolment status. */
module StudentTable {
  import opened Results
  import opened Entities
  import opened TableSort
  import Seqs

  /** The sortable columns. */
  datatype StudentColumn = FirstName | Email | GradeLevel

  /** The value `a[sortConfig.key]` of a column. */
  function ColumnValue(column: StudentColumn): Student -> Key {
    (s: Student) =>
      match column
      case FirstName => Text(s.firstName)
      case Email => Text(s.email)
      case GradeLevel => Text(s.gradeLevel)
  }

  function SortColumn(key: Option<StudentColumn>): Option<Student -> Key> {
    match key
    case None => None
    case Some(c) => Some(ColumnValue(c))
  }

  /** `sortedStudents`: a permutation, unchanged without a column, otherwise ordered by it. */
  function SortedStudents(students: seq<Student>, cfg: SortConfig<StudentColumn>): (r: seq<Student>)
    ensures multiset(r) == multiset(students)
    ensures cfg.key.None? ==> r == students
    ensures cfg.key.Some? ==> Ordered(r, SortColumn(cfg.key), cfg.direction)
  {
    SortByPermutation(students, SortColumn(cfg.key), cfg.direction);
    SortByOrdered(students, SortColumn(cfg.key), cfg.direction);
    if cfg.key.None? then
      SortUnkeyed(students, cfg.direction);
      SortBy(students, None, cfg.direction)
    else
      SortBy(students, SortColumn(cfg.key), cfg.direction)
  }

  function SameFirstName(name: string): Student -> bool {
    (s: Student) => s.firstName == name
  }

  /** Students sharing a first name keep their original order when sorted by first name. */
  lemma SortByFirstNameStable(students: seq<Student>, dir: Direction, name: string)
    ensures Seqs.Filter(SortedStudents(students, SortConfig(Some(FirstName), dir)), SameFirstName(name))
         == Seqs.Filter(students, SameFirstName(name))
  {
    SortByStable(students, ColumnValue(FirstName), dir, Text(name));
    FilterSamePredicate(SortedStudents(students, SortConfig(Some(FirstName), dir)), name);
    FilterSamePredicate(students, name);
  }

  lemma {:induction false} FilterSamePredicate(s: seq<Student>, name: string)
    ensures Seqs.Filter(s, SameFirstName(name)) == Seqs.Filter(s, HasKey(ColumnValue(FirstName), Text(name)))
    decreases |s|
  {
    if s != [] {
      FilterSamePredicate(s[1..], name);
    }
  }

  /** `getStatusVariant`. */
  function StatusVariant(status: string): (v: string)
    ensures v == "success" <==> status == "active"
    ensures v == "error" <==> status == "inactive"
    ensures v == "default" <==> status !in ["active", "inactive"]
  {
    match status
    case "active" => "success"
    case "inactive" => "error"
    case _ => "default"
  }

  /** The students the pages treat as active are exactly those with the success badge. */
  lemma ActiveHaveSuccessBadge(s: Student)
    ensures IsActive(s) <==> StatusVariant(s.status) == "success"
  {
  }
}
