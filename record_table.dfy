/** The in-memory record stores `AttendanceService`
    (src/services/api/attendanceService.js) and `AssignmentService`
    (src/services/api/assignmentService.js). The two are the same code
    over different seed data and a different "not found" message, so both
    are one class here, `Table`, built with the message it throws.

    A record is its numeric `Id` plus the rest of its fields. The data a
    caller passes to `create` or `update` never carries an `Id` key
    (`Data`), so the spread `{ Id: ..., ...data }` cannot overwrite it. */
module RecordTable {
  import opened Results
  import Seqs

  /** A JSON field value. */
  datatype Value = Null | Bool(b: bool) | Num(n: int) | Str(s: string)

  /** Field data without an `Id` key. */
  type Data = m: map<string, Value> | "Id" !in m witness map[]

  /** A stored record: `{ Id: id, ...fields }`. */
  datatype Row = Row(id: int, fields: Data)

  const AttendanceNotFound: string := "Attendance record not found"
  const AssignmentNotFound: string := "Assignment not found"

  /** `rows.map(a => a.Id)`. */
  function RowIds(rows: seq<Row>): (r: seq<int>)
    ensures |r| == |rows|
    ensures forall i :: 0 <= i < |rows| ==> r[i] == rows[i].id
  {
    Seqs.Map(rows, (x: Row) => x.id)
  }

  /** No two records share an Id. */
  predicate UniqueIds(rows: seq<Row>) {
    Seqs.Distinct(RowIds(rows))
  }

  /** `rows.findIndex(a => a.Id === id)`, with `None` for `-1`. */
  function FindIndex(rows: seq<Row>, id: int): (r: Option<nat>)
    ensures r.None? <==> forall i :: 0 <= i < |rows| ==> rows[i].id != id
    ensures r.Some? ==> r.value < |rows| && rows[r.value].id == id
    ensures r.Some? ==> forall j :: 0 <= j < r.value ==> rows[j].id != id
    decreases |rows|
  {
    if rows == [] then None
    else if rows[0].id == id then Some(0)
    else
      match FindIndex(rows[1..], id)
      case None => None
      case Some(k) => Some(k + 1)
  }

  /** `getById`: a copy of the first record with the Id, or the store's error. */
  function Find(rows: seq<Row>, id: int, notFound: string): (r: Result<Row>)
    ensures r.Err? <==> forall i :: 0 <= i < |rows| ==> rows[i].id != id
    ensures r.Err? ==> r.message == notFound
    ensures r.Ok? ==> r.value in rows && r.value.id == id
  {
    match FindIndex(rows, id)
    case None => Err(notFound)
    case Some(i) => Ok(rows[i])
  }

  /** `Math.max(...rows.map(a => a.Id)) + 1`. */
  function NextRowId(rows: seq<Row>): (n: int)
    requires |rows| > 0
    ensures forall i :: 0 <= i < |rows| ==> rows[i].id < n
    ensures exists i :: 0 <= i < |rows| && rows[i].id == n - 1
  {
    Seqs.Max(RowIds(rows)) + 1
  }

  /** The record `create(data)` adds. */
  function Created(rows: seq<Row>, data: Data): Row
    requires |rows| > 0
  {
    Row(NextRowId(rows), data)
  }

  /** The store after `update(id, data)`: the first record with the Id merged with `data`; unchanged when there is none. */
  function Updated(rows: seq<Row>, id: int, data: Data): (r: seq<Row>)
    ensures |r| == |rows|
    ensures RowIds(r) == RowIds(rows)
    ensures FindIndex(rows, id).None? ==> r == rows
  {
    match FindIndex(rows, id)
    case None => rows
    case Some(i) => rows[i := Row(id, rows[i].fields + data)]
  }

  /** The store after `delete(id)`: the first record with the Id spliced out; unchanged when there is none. */
  function Deleted(rows: seq<Row>, id: int): (r: seq<Row>)
    ensures |r| == |rows| - (if FindIndex(rows, id).Some? then 1 else 0)
    ensures FindIndex(rows, id).None? ==> r == rows
    ensures Seqs.IsSubsequence(r, rows)
  {
    match FindIndex(rows, id)
    case None =>
      Seqs.SubsequenceRefl(rows);
      rows
    case Some(i) =>
      Seqs.RemoveAtIsSubsequence(rows, i);
      rows[..i] + rows[i + 1..]
  }

  // ---------------------------------------------------------------------
  // Round trips between the operations and `getById`

  /** A created record is found under its new Id, and every other Id finds what it found before. */
  lemma FindAfterCreate(rows: seq<Row>, data: Data, id: int, notFound: string)
    requires |rows| > 0
    ensures Find(rows + [Created(rows, data)], NextRowId(rows), notFound) == Ok(Created(rows, data))
    ensures id != NextRowId(rows) ==> Find(rows + [Created(rows, data)], id, notFound) == Find(rows, id, notFound)
  {
    var r := rows + [Created(rows, data)];
    FindIndexAppend(rows, Created(rows, data), NextRowId(rows));
    FindIndexAppend(rows, Created(rows, data), id);
  }

  lemma {:induction false} FindIndexAppend(rows: seq<Row>, x: Row, id: int)
    ensures FindIndex(rows + [x], id)
         == match FindIndex(rows, id)
            case Some(i) => Some(i)
            case None => if x.id == id then Some(|rows|) else None
    decreases |rows|
  {
    if rows != [] {
      assert (rows + [x])[1..] == rows[1..] + [x];
      FindIndexAppend(rows[1..], x, id);
    }
  }

  /** Updating a present record merges the data into it; every other Id is unaffected. */
  lemma FindAfterUpdate(rows: seq<Row>, id: int, data: Data, other: int, notFound: string)
    requires Find(rows, id, notFound).Ok?
    ensures Find(Updated(rows, id, data), id, notFound)
         == Ok(Row(id, Find(rows, id, notFound).value.fields + data))
    ensures other != id ==> Find(Updated(rows, id, data), other, notFound) == Find(rows, other, notFound)
  {
    var i := FindIndex(rows, id).value;
    var u := Updated(rows, id, data);
    assert forall j :: 0 <= j < |rows| ==> u[j].id == rows[j].id;
    FindIndexSameIds(rows, u, id);
    FindIndexSameIds(rows, u, other);
  }

  /** `FindIndex` looks only at the Ids. */
  lemma {:induction false} FindIndexSameIds(a: seq<Row>, b: seq<Row>, id: int)
    requires |a| == |b| && forall j :: 0 <= j < |a| ==> a[j].id == b[j].id
    ensures FindIndex(a, id) == FindIndex(b, id)
    decreases |a|
  {
    if a != [] {
      FindIndexSameIds(a[1..], b[1..], id);
    }
  }

  /** The first index holding an Id is the one `FindIndex` returns. */
  lemma FindIndexIsFirst(rows: seq<Row>, id: int, c: nat)
    requires c < |rows| && rows[c].id == id
    requires forall j :: 0 <= j < c ==> rows[j].id != id
    ensures FindIndex(rows, id) == Some(c)
  {
  }

  /** With unique Ids, a deleted record is no longer found. */
  lemma FindAfterDelete(rows: seq<Row>, id: int, notFound: string)
    requires UniqueIds(rows)
    ensures Find(Deleted(rows, id), id, notFound).Err?
  {
    match FindIndex(rows, id)
    case None =>
    case Some(i) =>
      var d := Deleted(rows, id);
      forall j | 0 <= j < |d| ensures d[j].id != id {
        if j >= i {
          assert d[j] == rows[j + 1];
          assert RowIds(rows)[j + 1] != RowIds(rows)[i];
        } else {
          assert d[j] == rows[j];
        }
      }
  }

  /** Deleting one Id leaves what every other Id finds unchanged. */
  lemma DeleteKeepsOthers(rows: seq<Row>, id: int, other: int, notFound: string)
    requires other != id
    ensures Find(Deleted(rows, id), other, notFound) == Find(rows, other, notFound)
  {
    match FindIndex(rows, id)
    case None =>
    case Some(i) =>
      var d := Deleted(rows, id);
      assert forall j :: 0 <= j < i ==> d[j] == rows[j];
      assert forall j :: i <= j < |d| ==> d[j] == rows[j + 1];
      match FindIndex(rows, other)
      case None =>
        assert forall j :: 0 <= j < |d| ==> d[j].id != other;
      case Some(k) =>
        var c := if k < i then k else k - 1;
        assert d[c] == rows[k];
        FindIndexIsFirst(d, other, c);
  }

  // ---------------------------------------------------------------------
  // Every operation keeps Ids unique

  lemma CreateKeepsUnique(rows: seq<Row>, data: Data)
    requires |rows| > 0 && UniqueIds(rows)
    ensures UniqueIds(rows + [Created(rows, data)])
  {
    var x := Created(rows, data);
    assert RowIds(rows + [x]) == RowIds(rows) + [x.id];
    Seqs.DistinctAppendAbove(RowIds(rows), x.id);
  }

  lemma DeleteKeepsUnique(rows: seq<Row>, id: int)
    requires UniqueIds(rows)
    ensures UniqueIds(Deleted(rows, id))
  {
    match FindIndex(rows, id)
    case None =>
    case Some(i) =>
      var d := Deleted(rows, id);
      forall j, k | 0 <= j < k < |d| ensures RowIds(d)[j] != RowIds(d)[k] {
        var j', k' := if j < i then j else j + 1, if k < i then k else k + 1;
        assert d[j] == rows[j'] && d[k] == rows[k'];
        assert RowIds(rows)[j'] != RowIds(rows)[k'];
      }
  }

  /** Under unique Ids, each record is the one found under its own Id. */
  lemma FindOwnId(rows: seq<Row>, i: nat, notFound: string)
    requires UniqueIds(rows) && i < |rows|
    ensures FindIndex(rows, rows[i].id) == Some(i)
    ensures Find(rows, rows[i].id, notFound) == Ok(rows[i])
  {
    var k := FindIndex(rows, rows[i].id).value;
    assert RowIds(rows)[k] == RowIds(rows)[i];
  }

  // ---------------------------------------------------------------------

  class Table {
    /** The stored records, in insertion order. */
    var rows: seq<Row>
    /** The message of the `Error` thrown for a missing Id. */
    const notFound: string

    ghost predicate Valid()
      reads this
    {
      UniqueIds(rows)
    }

    /** `this.attendance = [...attendanceData]` (resp. `this.assignments`). */
    constructor (seed: seq<Row>, notFound: string)
      requires UniqueIds(seed)
      ensures Valid() && rows == seed && this.notFound == notFound
    {
      rows := seed;
      this.notFound := notFound;
    }

    /** `getAll()`: a copy of the records. */
    method GetAll() returns (r: seq<Row>)
      ensures r == rows
    {
      r := rows;
    }

    /** `getById(id)`. */
    method GetById(id: int) returns (r: Result<Row>)
      ensures r == Find(rows, id, notFound)
    {
      var i := 0;
      while i < |rows| && rows[i].id != id
        invariant 0 <= i <= |rows|
        invariant forall j :: 0 <= j < i ==> rows[j].id != id
      {
        i := i + 1;
      }
      if i == |rows| {
        r := Err(notFound);
      } else {
        r := Ok(rows[i]);
      }
    }

    /** `create(data)`: appends a record with the next Id. An empty store is
        not accepted: its `Math.max()` is `-Infinity`. */
    method Create(data: Data) returns (r: Row)
      requires Valid() && |rows| > 0
      modifies this
      ensures Valid()
      ensures r == Created(old(rows), data) && rows == old(rows) + [r]
    {
      r := Row(Seqs.Max(RowIds(rows)) + 1, data);
      CreateKeepsUnique(rows, data);
      rows := rows + [r];
    }

    /** `update(id, data)`: merges `data` into the record and returns a copy; an unknown Id throws. */
    method Update(id: int, data: Data) returns (r: Result<Row>)
      requires Valid()
      modifies this
      ensures Valid()
      ensures rows == Updated(old(rows), id, data)
      ensures r == match Find(old(rows), id, notFound)
                   case Err(m) => Err(m)
                   case Ok(row) => Ok(Row(id, row.fields + data))
    {
      var k := FindIndex(rows, id);
      if k.None? {
        r := Err(notFound);
      } else {
        var i := k.value;
        var merged := Row(id, rows[i].fields + data);
        rows := rows[i := merged];
        r := Ok(merged);
      }
    }

    /** `delete(id)`: splices the record out and returns `true`; an unknown Id throws. */
    method Delete(id: int) returns (r: Result<bool>)
      requires Valid()
      modifies this
      ensures Valid()
      ensures rows == Deleted(old(rows), id)
      ensures r == if Find(old(rows), id, notFound).Ok? then Ok(true) else Err(notFound)
    {
      DeleteKeepsUnique(rows, id);
      var k := FindIndex(rows, id);
      if k.None? {
        r := Err(notFound);
      } else {
        rows := rows[..k.value] + rows[k.value + 1..];
        r := Ok(true);
      }
    }
  }
}
