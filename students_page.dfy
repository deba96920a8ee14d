/** The students page (src/components/pages/Students.jsx): a search box over
    the loaded students and the save handler of the add/edit form. */
module StudentsPage {
  import opened Results
  import Seqs
  import opened Text
  import opened Entities
  import opened RecordTable

  /** The student's first name, last name, email or grade level contains the term, ignoring case. */
  predicate StudentMatches(s: Student, term: string) {
    ContainsIgnoringCase(s.firstName, term) || ContainsIgnoringCase(s.lastName, term)
    || ContainsIgnoringCase(s.email, term) || ContainsIgnoringCase(s.gradeLevel, term)
  }

  function MatchesTerm(term: string): Student -> bool {
    (s: Student) => StudentMatches(s, term)
  }

  /** `handleSearch`: all students for the empty term, otherwise the matching ones in their order. */
  function SearchStudents(students: seq<Student>, term: string): (r: seq<Student>)
    ensures term == "" ==> r == students
    ensures term != "" ==> forall s :: s in r <==> s in students && StudentMatches(s, term)
    ensures Seqs.IsSubsequence(r, students)
  {
    if term == "" then
      Seqs.SubsequenceRefl(students);
      students
    else
      Seqs.FilterMembership(students, MatchesTerm(term));
      Seqs.FilterIsSubsequence(students, MatchesTerm(term));
      Seqs.Filter(students, MatchesTerm(term))
  }

  /** Searching for a student's email address, or their first or last name, finds them. */
  lemma SearchFindsStudent(students: seq<Student>, s: Student)
    requires s in students
    ensures s in SearchStudents(students, s.email)
    ensures s in SearchStudents(students, s.firstName)
    ensures s in SearchStudents(students, s.lastName)
  {
    ContainsIgnoringCaseSelf(s.email);
    ContainsIgnoringCaseSelf(s.firstName);
    ContainsIgnoringCaseSelf(s.lastName);
  }

  /** The call `handleStudentSave` makes to the student service. */
  datatype SaveCall = UpdateStudent(id: int, data: Data) | CreateStudent(data: Data)

  /** `handleStudentSave`: update the student being edited, otherwise create a new one. */
  function StudentSave(editing: Option<Student>, data: Data): (c: SaveCall)
    ensures c.UpdateStudent? <==> editing.Some?
    ensures c.UpdateStudent? ==> c.id == editing.value.id
    ensures c.data == data
  {
    match editing
    case Some(s) => UpdateStudent(s.id, data)
    case None => CreateStudent(data)
  }
}
