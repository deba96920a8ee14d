/** The shape of the attendance records the attendance page writes and
    the calendar reads: `{ Id, studentId, date, status, notes }`, where
    `date` is the ISO day `YYYY-MM-DD`. Two records are for the same day
    when their day strings are equal. */
module AttendanceRecords {
  import opened Results
  import Seqs
  import opened RecordTable

  /** `record[name]`, with `Null` for a missing field. */
  function Field(r: Row, name: string): Value {
    if name in r.fields then r.fields[name] else Null
  }

  /** `att.studentId === studentId && att.date === day`. */
  predicate IsFor(r: Row, sid: int, day: string) {
    Field(r, "studentId") == Num(sid) && Field(r, "date") == Str(day)
  }

  function ForPred(sid: int, day: string): Row -> bool {
    (r: Row) => IsFor(r, sid, day)
  }

  /** `att.date` names the day. */
  function OnDay(day: string): Row -> bool {
    (r: Row) => Field(r, "date") == Str(day)
  }

  /** The data the page writes: `{ studentId, date, status, notes: "" }`. */
  function MarkData(sid: int, day: string, status: string): (d: Data)
    ensures forall r: Row :: r.fields == d ==> IsFor(r, sid, day)
    ensures "status" in d && d["status"] == Str(status) && "notes" in d && d["notes"] == Str("")
  {
    map["studentId" := Num(sid), "date" := Str(day), "status" := Str(status), "notes" := Str("")]
  }

  /** A record updated with the mark's data is for that student and day, with the new status and empty notes. */
  lemma MarkMerged(id: int, f: Data, sid: int, day: string, status: string)
    ensures "Id" !in f + MarkData(sid, day, status)
    ensures var r := Row(id, f + MarkData(sid, day, status));
            IsFor(r, sid, day) && Field(r, "status") == Str(status) && Field(r, "notes") == Str("")
  {
  }

  /** `attendance.find(att => ...)` for a student and day: the first matching record. */
  function FirstFor(rows: seq<Row>, sid: int, day: string): (r: Option<Row>)
    ensures r.None? <==> forall i :: 0 <= i < |rows| ==> !IsFor(rows[i], sid, day)
    ensures r.Some? ==> exists i :: 0 <= i < |rows| && rows[i] == r.value && IsFor(rows[i], sid, day)
                                    && forall j :: 0 <= j < i ==> !IsFor(rows[j], sid, day)
    decreases |rows|
  {
    if rows == [] then None
    else if IsFor(rows[0], sid, day) then Some(rows[0])
    else
      var r := FirstFor(rows[1..], sid, day);
      assert forall i :: 1 <= i < |rows| ==> rows[i] == rows[1..][i - 1];
      if r.Some? then
        var k :| 0 <= k < |rows[1..]| && rows[1..][k] == r.value && IsFor(rows[1..][k], sid, day)
                 && forall j :: 0 <= j < k ==> !IsFor(rows[1..][j], sid, day);
        assert rows[k + 1] == r.value;
        r
      else r
  }

  /** The first record for a student and day is the one at the first matching index. */
  lemma FirstForAt(rows: seq<Row>, sid: int, day: string, i: nat)
    requires i < |rows| && IsFor(rows[i], sid, day)
    requires forall j :: 0 <= j < i ==> !IsFor(rows[j], sid, day)
    ensures FirstFor(rows, sid, day) == Some(rows[i])
  {
    var r := FirstFor(rows, sid, day);
    var k :| 0 <= k < |rows| && rows[k] == r.value && IsFor(rows[k], sid, day)
             && forall j :: 0 <= j < k ==> !IsFor(rows[j], sid, day);
    if k != i {
      assert false;
    }
  }

  /** How many records there are for a student and day. */
  function CountFor(rows: seq<Row>, sid: int, day: string): nat {
    |Seqs.Filter(rows, ForPred(sid, day))|
  }
}
