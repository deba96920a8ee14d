/** The records that the pages and the notification dispatcher read:
    students, preferences, grades, attendance marks, assignments and email
    recipients. They come from the remote record store, which is not part
    of this model; here they are plain values. */
module Entities {
  import opened Results
  import Seqs

  /** A student as the pages and the dispatcher read it. */
  datatype Student = Student(
    id: int,
    firstName: string,
    lastName: string,
    email: string,
    gradeLevel: string,
    parentEmail: string,
    parentName: string,
    status: string)

  /** A parent's notification preferences. */
  datatype Prefs = Prefs(
    gradeUpdates: bool,
    attendanceAlerts: bool,
    assignmentDeadlines: bool,
    generalAnnouncements: bool,
    emailFrequency: string)

  /** A grade as the grade table and the grade notification read it. */
  datatype Grade = Grade(
    id: int,
    studentId: int,
    subject: string,
    assignmentName: string,
    kind: string,
    score: int,
    maxScore: int,
    date: string)

  /** The attendance record handed to the attendance notification. */
  datatype AttendanceMark = AttendanceMark(id: int, studentId: int, date: string, status: string)

  /** An assignment as the assignment table and the assignment notification read it. */
  datatype Assignment = Assignment(id: int, title: string, subject: string, kind: string, dueDate: string)

  /** A recipient of the bulk composer: `{ id, name, email, parentName }`. */
  datatype Recipient = Recipient(id: int, name: string, email: string, parentName: string)

  /** `${firstName} ${lastName}`. */
  function FullName(s: Student): string {
    s.firstName + " " + s.lastName
  }

  predicate IsActive(s: Student) {
    s.status == "active"
  }

  /** `students.filter(s => s.status === "active")`. */
  function Active(students: seq<Student>): (r: seq<Student>)
    ensures forall s :: s in r <==> s in students && IsActive(s)
    ensures Seqs.IsSubsequence(r, students)
  {
    Seqs.FilterMembership(students, IsActive);
    Seqs.FilterIsSubsequence(students, IsActive);
    Seqs.Filter(students, IsActive)
  }

  /** `students.find(s => s.Id === id)`: the first student with that Id. */
  function FindStudent(students: seq<Student>, id: int): (r: Option<Student>)
    ensures r.Some? <==> exists i :: 0 <= i < |students| && students[i].id == id
    ensures r.Some? ==> r.value in students && r.value.id == id
    ensures r.Some? ==> exists i :: 0 <= i < |students| && students[i] == r.value
                          && forall j :: 0 <= j < i ==> students[j].id != id
    decreases |students|
  {
    if students == [] then None
    else if students[0].id == id then Some(students[0])
    else
      var r := FindStudent(students[1..], id);
      assert forall i :: 1 <= i < |students| ==> students[i] == students[1..][i - 1];
      if r.Some? then
        var k :| 0 <= k < |students[1..]| && students[1..][k] == r.value
                 && forall j :: 0 <= j < k ==> students[1..][j].id != id;
        assert students[k + 1] == r.value;
        r
      else r
  }
}
