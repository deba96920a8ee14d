/** The assignment table (src/components/organisms/AssignmentTable.jsx):
    assignments sorted by a clicked column, a colour per assignment type, and
    a due-date badge computed from the whole days until the due date. That
    day count (`Math.ceil((due - now) / 86400000)`) is taken as an integer
    `daysDiff`. */
module AssignmentTable {
  import opened Results
  import opened Text
  import opened Entities
  import opened TableSort

  /** The sortable columns. */
  datatype AssignmentColumn = Title | Subject | Type | DueDate

  /** The value `a[sortConfig.key]` of a column. */
  function ColumnValue(column: AssignmentColumn): Assignment -> Key {
    (a: Assignment) =>
      match column
      case Title => Text(a.title)
      case Subject => Text(a.subject)
      case Type => Text(a.kind)
      case DueDate => Text(a.dueDate)
  }

  function SortColumn(key: Option<AssignmentColumn>): Option<Assignment -> Key> {
    match key
    case None => None
    case Some(c) => Some(ColumnValue(c))
  }

  /** `sortedAssignments`: a permutation, unchanged without a column, otherwise ordered by it. */
  function SortedAssignments(assignments: seq<Assignment>, cfg: SortConfig<AssignmentColumn>): (r: seq<Assignment>)
    ensures multiset(r) == multiset(assignments)
    ensures cfg.key.None? ==> r == assignments
    ensures cfg.key.Some? ==> Ordered(r, SortColumn(cfg.key), cfg.direction)
  {
    SortByPermutation(assignments, SortColumn(cfg.key), cfg.direction);
    SortByOrdered(assignments, SortColumn(cfg.key), cfg.direction);
    if cfg.key.None? then
      SortUnkeyed(assignments, cfg.direction);
      SortBy(assignments, None, cfg.direction)
    else
      SortBy(assignments, SortColumn(cfg.key), cfg.direction)
  }

  /** Sorted ascending by due date, no due date sorts before an earlier one. */
  lemma SortedByDueDate(assignments: seq<Assignment>, i: int, j: int)
    requires 0 <= i < j < |assignments|
    ensures var r := SortedAssignments(assignments, SortConfig(Some(DueDate), Asc));
            !TextLess(r[j].dueDate, r[i].dueDate)
  {
    var r := SortedAssignments(assignments, SortConfig(Some(DueDate), Asc));
    assert |r| == |assignments| by {
      assert |multiset(r)| == |multiset(assignments)|;
    }
    assert Compare(SortColumn(Some(DueDate)), Asc, r[i], r[j]) <= 0;
  }

  /** `getTypeColor`. */
  function TypeColor(kind: string): (c: string)
    ensures c == "default" <==> kind !in ["homework", "quiz", "test", "project"]
    ensures c == "primary" <==> kind == "homework"
    ensures c == "secondary" <==> kind == "quiz"
    ensures c == "warning" <==> kind == "test"
    ensures c == "success" <==> kind == "project"
  {
    match kind
    case "homework" => "primary"
    case "quiz" => "secondary"
    case "test" => "warning"
    case "project" => "success"
    case _ => "default"
  }

  /** `getStatusColor`: overdue, due within three days, or later. */
  function StatusColor(daysDiff: int): (c: string)
    ensures c == "error" <==> daysDiff < 0
    ensures c == "warning" <==> 0 <= daysDiff <= 3
    ensures c == "success" <==> daysDiff > 3
  {
    if daysDiff < 0 then "error"
    else if daysDiff <= 3 then "warning"
    else "success"
  }

  /** `getStatusText`. */
  function StatusText(daysDiff: int): (t: string)
    ensures daysDiff < 0 ==> t == "Overdue"
    ensures daysDiff == 0 ==> t == "Due Today"
    ensures daysDiff == 1 ==> t == "Due Tomorrow"
    ensures daysDiff > 1 ==> t == NatToString(daysDiff) + " days left"
  {
    if daysDiff < 0 then "Overdue"
    else if daysDiff == 0 then "Due Today"
    else if daysDiff == 1 then "Due Tomorrow"
    else IntToString(daysDiff) + " days left"
  }

  /** The badge says "Overdue" exactly when it is coloured as an error. */
  lemma OverdueIffError(daysDiff: int)
    ensures StatusText(daysDiff) == "Overdue" <==> StatusColor(daysDiff) == "error"
  {
    if daysDiff > 1 {
      assert |StatusText(daysDiff)| > |"Overdue"|;
    }
  }

  /** Different day counts that are not overdue get different texts, so the text gives the count back. */
  lemma StatusTextDistinguishes(d1: int, d2: int)
    requires 0 <= d1 && 0 <= d2 && d1 != d2
    ensures StatusText(d1) != StatusText(d2)
  {
    var t1 := StatusText(d1);
    var t2 := StatusText(d2);
    if d1 > 1 && d2 > 1 {
      if t1 == t2 {
        var n1 := NatToString(d1);
        var n2 := NatToString(d2);
        assert |n1| == |n2|;
        assert n1 == t1[..|n1|] && n2 == t2[..|n2|];
        NatToStringInjective(d1, d2);
      }
    } else if d1 > 1 {
      assert '0' <= t1[0] <= '9';
      assert t2 == "Due Today" || t2 == "Due Tomorrow";
    } else if d2 > 1 {
      assert '0' <= t2[0] <= '9';
      assert t1 == "Due Today" || t1 == "Due Tomorrow";
    }
  }
}
