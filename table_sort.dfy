/** The column sorting the grade, assignment and student tables share: a sort
    configuration `{ key, direction }` switched by the column headers, and
    `[...rows].sort(comparator)` where the comparator orders by the value in
    the chosen column. `Array.prototype.sort` is stable, so the sort is
    modelled as a stable insertion sort by that comparator. */
module TableSort {
  import opened Results
  import Seqs

  datatype Direction = Asc | Desc

  /** `sortConfig`: the column sorted by (none at first) and the direction. */
  datatype SortConfig<C> = SortConfig(key: Option<C>, direction: Direction)

  function InitialSort<C>(): (cfg: SortConfig<C>)
    ensures cfg.key.None? && cfg.direction == Asc
  {
    SortConfig(None, Asc)
  }

  /** `handleSort(key)`: descending when the same column is clicked while ascending, ascending otherwise. */
  function HandleSort<C(==)>(cfg: SortConfig<C>, key: C): (next: SortConfig<C>)
    ensures next.key == Some(key)
    ensures next.direction == Desc <==> cfg.key == Some(key) && cfg.direction == Asc
  {
    SortConfig(Some(key), if cfg.key == Some(key) && cfg.direction == Asc then Desc else Asc)
  }

  /** Clicking one column again and again alternates its direction; a new column starts ascending. */
  lemma HandleSortAlternates<C>(cfg: SortConfig<C>, key: C)
    ensures HandleSort(HandleSort(cfg, key), key).direction != HandleSort(cfg, key).direction
    ensures HandleSort(HandleSort(HandleSort(cfg, key), key), key) == HandleSort(cfg, key)
    ensures cfg.key != Some(key) ==> HandleSort(cfg, key).direction == Asc
  {
  }

  // ---------------------------------------------------------------------
  // Column values and JavaScript's `<` on them

  /** A column value: the tables sort numbers (scores) and strings (everything else). */
  datatype Key = Num(n: int) | Text(s: string)

  /** `a < b` on two strings: code-unit by code-unit, a proper prefix first. */
  predicate TextLess(a: string, b: string)
    decreases |a|
  {
    if b == [] then false
    else if a == [] then true
    else if a[0] != b[0] then a[0] < b[0]
    else TextLess(a[1..], b[1..])
  }

  /** `a < b` on column values; a column holds one kind only, numbers are put first when kinds mix. */
  predicate KeyLess(a: Key, b: Key) {
    match (a, b)
    case (Num(x), Num(y)) => x < y
    case (Text(x), Text(y)) => TextLess(x, y)
    case (Num(_), Text(_)) => true
    case (Text(_), Num(_)) => false
  }

  lemma {:induction false} TextLessIrreflexive(a: string)
    ensures !TextLess(a, a)
    decreases |a|
  {
    if a != [] {
      TextLessIrreflexive(a[1..]);
    }
  }

  lemma {:induction false} TextLessTransitive(a: string, b: string, c: string)
    requires TextLess(a, b) && TextLess(b, c)
    ensures TextLess(a, c)
    decreases |a|
  {
    if a != [] && a[0] == b[0] && b[0] == c[0] {
      TextLessTransitive(a[1..], b[1..], c[1..]);
    }
  }

  lemma {:induction false} TextLessTotal(a: string, b: string)
    ensures a == b || TextLess(a, b) || TextLess(b, a)
    decreases |a|
  {
    if a != [] && b != [] && a[0] == b[0] {
      TextLessTotal(a[1..], b[1..]);
      if a[1..] == b[1..] {
        assert a == [a[0]] + a[1..] && b == [b[0]] + b[1..];
      }
    }
  }

  /** `KeyLess` is a strict total order. */
  lemma KeyOrder(a: Key, b: Key, c: Key)
    ensures !KeyLess(a, a)
    ensures KeyLess(a, b) && KeyLess(b, c) ==> KeyLess(a, c)
    ensures a == b || KeyLess(a, b) || KeyLess(b, a)
  {
    if a.Text? {
      TextLessIrreflexive(a.s);
    }
    if a.Text? && b.Text? && c.Text? && KeyLess(a, b) && KeyLess(b, c) {
      TextLessTransitive(a.s, b.s, c.s);
    }
    if a.Text? && b.Text? {
      TextLessTotal(a.s, b.s);
    }
  }

  // ---------------------------------------------------------------------
  // The comparator and the sort

  /** The comparator: 0 without a column; otherwise -1, 1 or 0 by the column values, flipped when descending. */
  function Compare<T>(col: Option<T -> Key>, dir: Direction, a: T, b: T): (c: int)
    ensures -1 <= c <= 1
    ensures col.None? ==> c == 0
    ensures col.Some? ==> (c == -1 <==> (if dir == Asc then KeyLess(col.value(a), col.value(b)) else KeyLess(col.value(b), col.value(a))))
    ensures col.Some? ==> (c == 1 <==> (if dir == Asc then KeyLess(col.value(b), col.value(a)) else KeyLess(col.value(a), col.value(b))))
  {
    match col
    case None => 0
    case Some(f) =>
      if KeyLess(f(a), f(b)) then KeyOrder(f(a), f(b), f(a)); (if dir == Asc then -1 else 1)
      else if KeyLess(f(b), f(a)) then (if dir == Asc then 1 else -1)
      else 0
  }

  /** The comparator is antisymmetric and its "not after" relation is transitive. */
  lemma CompareLaws<T>(col: Option<T -> Key>, dir: Direction, a: T, b: T, c: T)
    ensures Compare(col, dir, a, b) == -Compare(col, dir, b, a)
    ensures Compare(col, dir, a, b) <= 0 && Compare(col, dir, b, c) <= 0 ==> Compare(col, dir, a, c) <= 0
  {
    if col.Some? {
      var f := col.value;
      KeyOrder(f(a), f(b), f(c));
      KeyOrder(f(c), f(a), f(b));
      KeyOrder(f(b), f(c), f(a));
      KeyOrder(f(a), f(c), f(b));
    }
  }

  /** Puts `x` after the leading entries the comparator puts strictly before it. */
  function Insert<T>(x: T, s: seq<T>, col: Option<T -> Key>, dir: Direction): (r: seq<T>)
    ensures multiset(r) == multiset(s) + multiset{x}
    decreases |s|
  {
    if s == [] then [x]
    else if Compare(col, dir, s[0], x) < 0 then
      assert s == [s[0]] + s[1..];
      [s[0]] + Insert(x, s[1..], col, dir)
    else [x] + s
  }

  /** The sorted copy of the rows. */
  function SortBy<T>(s: seq<T>, col: Option<T -> Key>, dir: Direction): (r: seq<T>)
    decreases |s|
  {
    if s == [] then [] else Insert(s[0], SortBy(s[1..], col, dir), col, dir)
  }

  /** No entry is put after one that the comparator puts after it. */
  predicate Ordered<T>(s: seq<T>, col: Option<T -> Key>, dir: Direction) {
    forall i, j :: 0 <= i < j < |s| ==> Compare(col, dir, s[i], s[j]) <= 0
  }

  lemma OrderedCons<T>(x: T, s: seq<T>, col: Option<T -> Key>, dir: Direction)
    requires Ordered(s, col, dir)
    requires forall j :: 0 <= j < |s| ==> Compare(col, dir, x, s[j]) <= 0
    ensures Ordered([x] + s, col, dir)
  {
    var t := [x] + s;
    forall i, j | 0 <= i < j < |t| ensures Compare(col, dir, t[i], t[j]) <= 0 {
      if i > 0 {
        assert t[i] == s[i - 1] && t[j] == s[j - 1];
      } else {
        assert t[j] == s[j - 1];
      }
    }
  }

  lemma {:induction false} InsertOrdered<T>(x: T, s: seq<T>, col: Option<T -> Key>, dir: Direction)
    requires Ordered(s, col, dir)
    ensures Ordered(Insert(x, s, col, dir), col, dir)
    decreases |s|
  {
    if s == [] {
    } else if Compare(col, dir, s[0], x) < 0 {
      var t := s[1..];
      assert Ordered(t, col, dir) by {
        forall i, j | 0 <= i < j < |t| ensures Compare(col, dir, t[i], t[j]) <= 0 {
          assert t[i] == s[i + 1] && t[j] == s[j + 1];
        }
      }
      InsertOrdered(x, t, col, dir);
      var u := Insert(x, t, col, dir);
      forall j | 0 <= j < |u| ensures Compare(col, dir, s[0], u[j]) <= 0 {
        assert u[j] in multiset(u);
        if u[j] != x {
          assert u[j] in multiset(t);
          var k :| 0 <= k < |t| && t[k] == u[j];
          assert s[k + 1] == u[j];
        }
      }
      OrderedCons(s[0], u, col, dir);
    } else {
      forall j | 0 <= j < |s| ensures Compare(col, dir, x, s[j]) <= 0 {
        CompareLaws(col, dir, x, s[0], s[j]);
        CompareLaws(col, dir, s[0], x, s[j]);
      }
      OrderedCons(x, s, col, dir);
    }
  }

  /** The sorted copy is a permutation of the rows. */
  lemma {:induction false} SortByPermutation<T>(s: seq<T>, col: Option<T -> Key>, dir: Direction)
    ensures multiset(SortBy(s, col, dir)) == multiset(s)
    decreases |s|
  {
    if s != [] {
      SortByPermutation(s[1..], col, dir);
      assert s == [s[0]] + s[1..];
    }
  }

  /** The sorted copy is ordered by the comparator. */
  lemma {:induction false} SortByOrdered<T>(s: seq<T>, col: Option<T -> Key>, dir: Direction)
    ensures Ordered(SortBy(s, col, dir), col, dir)
    decreases |s|
  {
    if s != [] {
      SortByOrdered(s[1..], col, dir);
      InsertOrdered(s[0], SortBy(s[1..], col, dir), col, dir);
    }
  }

  /** Ordered by the comparator means non-decreasing column values ascending, non-increasing descending. */
  lemma OrderedMeans<T>(s: seq<T>, f: T -> Key, dir: Direction, i: int, j: int)
    requires Ordered(s, Some(f), dir) && 0 <= i < j < |s|
    ensures dir == Asc ==> f(s[i]) == f(s[j]) || KeyLess(f(s[i]), f(s[j]))
    ensures dir == Desc ==> f(s[i]) == f(s[j]) || KeyLess(f(s[j]), f(s[i]))
  {
    KeyOrder(f(s[i]), f(s[j]), f(s[j]));
    assert Compare(Some(f), dir, s[i], s[j]) <= 0;
  }

  /** Without a column the comparator says 0 everywhere and the order is unchanged. */
  lemma {:induction false} SortUnkeyed<T>(s: seq<T>, dir: Direction)
    ensures SortBy(s, None, dir) == s
    decreases |s|
  {
    if s != [] {
      SortUnkeyed(s[1..], dir);
      if s[1..] != [] {
        assert Compare(None, dir, s[1], s[0]) == 0;
      }
      assert s == [s[0]] + s[1..];
    }
  }

  function HasKey<T>(f: T -> Key, k: Key): T -> bool {
    (x: T) => f(x) == k
  }

  lemma {:induction false} InsertStable<T>(x: T, s: seq<T>, f: T -> Key, dir: Direction, k: Key)
    ensures Seqs.Filter(Insert(x, s, Some(f), dir), HasKey(f, k)) == Seqs.Filter([x] + s, HasKey(f, k))
    decreases |s|
  {
    var p := HasKey(f, k);
    if s != [] && Compare(Some(f), dir, s[0], x) < 0 {
      // s[0] and x have different values, so at most one of them is kept
      KeyOrder(f(x), f(x), f(x));
      var a := if p(s[0]) then [s[0]] else [];
      var b := if p(x) then [x] else [];
      var rest := Seqs.Filter(s[1..], p);
      assert a + (b + rest) == b + (a + rest) by {
        if a == [] {
          assert a + (b + rest) == b + rest == b + (a + rest);
        } else {
          assert b == [];
          assert a + (b + rest) == a + rest == b + (a + rest);
        }
      }
      var t := s[1..];
      var u := Insert(x, t, Some(f), dir);
      assert Insert(x, s, Some(f), dir) == [s[0]] + u;
      InsertStable(x, t, f, dir, k);
      Seqs.FilterCons(s[0], u, p);
      Seqs.FilterCons(x, t, p);
      assert Seqs.Filter([s[0]] + u, p) == a + (b + Seqs.Filter(t, p));
      assert s == [s[0]] + t;
      Seqs.FilterCons(x, s, p);
      Seqs.FilterCons(s[0], t, p);
      assert Seqs.Filter([x] + s, p) == b + (a + Seqs.Filter(t, p));
    } else {
      assert Insert(x, s, Some(f), dir) == [x] + s;
    }
  }

  /** The sort is stable: the rows with any one column value keep their original order. */
  lemma {:induction false} SortByStable<T>(s: seq<T>, f: T -> Key, dir: Direction, k: Key)
    ensures Seqs.Filter(SortBy(s, Some(f), dir), HasKey(f, k)) == Seqs.Filter(s, HasKey(f, k))
    decreases |s|
  {
    if s != [] {
      var p := HasKey(f, k);
      var t := SortBy(s[1..], Some(f), dir);
      SortByStable(s[1..], f, dir, k);
      InsertStable(s[0], t, f, dir, k);
      Seqs.FilterConcat([s[0]], t, p);
      Seqs.FilterConcat([s[0]], s[1..], p);
      assert s == [s[0]] + s[1..];
    }
  }
}
