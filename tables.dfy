/** Tables as both workers hold them after reading a file: ordered column
    names and rows of cells aligned with them. A cell is a JSON-like value or
    the missing-value marker that pandas fills in when a table lacks a column;
    two missing markers compare equal, as `drop_duplicates` treats them. */
module Tables {
  import opened Base
  import opened Json

  datatype Cell = Absent | Present(value: Json)

  /** A column label: a header string, or an integer position for tables
      built from lists and scalars. */
  type Label = Json

  type Row = seq<Cell>

  datatype Table = Table(columns: seq<Label>, rows: seq<Row>)

  /** pandas' `df.empty`: no rows, or no columns. */
  predicate IsEmpty(t: Table) {
    |t.rows| == 0 || |t.columns| == 0
  }

  /** The cell of `row` under column `c`, or the missing marker when the
      table has no such column (or the row is short of it). */
  function CellAt(columns: seq<Label>, row: Row, c: Label): Cell {
    if c in columns && FirstIndex(columns, c) < |row| then row[FirstIndex(columns, c)] else Absent
  }

  /** `reindex(columns=target)` of one row. */
  function ReindexRow(columns: seq<Label>, row: Row, target: seq<Label>): (r: Row)
    ensures |r| == |target|
    ensures forall j :: 0 <= j < |target| ==> r[j] == CellAt(columns, row, target[j])
  {
    seq(|target|, j requires 0 <= j < |target| => CellAt(columns, row, target[j]))
  }

  function Reindex(t: Table, target: seq<Label>): (r: Table)
    ensures r.columns == target && |r.rows| == |t.rows|
    ensures forall i :: 0 <= i < |t.rows| ==> r.rows[i] == ReindexRow(t.columns, t.rows[i], target)
  {
    Table(target, seq(|t.rows|, i requires 0 <= i < |t.rows| => ReindexRow(t.columns, t.rows[i], target)))
  }

  /** Reindexing onto duplicate-free columns keeps every value: under each
      target column the new row holds what the old row held there, and the
      missing marker where the old table had no such column. */
  lemma ReindexRowReads(columns: seq<Label>, row: Row, target: seq<Label>, c: Label)
    requires NoDuplicates(target) && c in target
    ensures CellAt(target, ReindexRow(columns, row, target), c) == CellAt(columns, row, c)
    ensures c !in columns ==> CellAt(target, ReindexRow(columns, row, target), c) == Absent
  {
    var j := FirstIndex(target, c);
    assert ReindexRow(columns, row, target)[j] == CellAt(columns, row, c);
  }

  /** All column names of all tables, table by table. */
  function AllColumnNames(ts: seq<Table>): seq<Label> {
    if ts == [] then [] else ts[0].columns + AllColumnNames(ts[1..])
  }

  lemma {:induction false} AllColumnNamesMembers(ts: seq<Table>, c: Label)
    ensures c in AllColumnNames(ts) <==> exists k :: 0 <= k < |ts| && c in ts[k].columns
  {
    if ts != [] {
      AllColumnNamesMembers(ts[1..], c);
      if c in AllColumnNames(ts[1..]) {
        var k :| 0 <= k < |ts[1..]| && c in ts[1..][k].columns;
        assert c in ts[k + 1].columns;
      }
      if exists k :: 0 <= k < |ts| && c in ts[k].columns {
        var k :| 0 <= k < |ts| && c in ts[k].columns;
        if k > 0 {
          assert c in ts[1..][k - 1].columns;
        }
      }
    }
  }

  /** The columns `pd.concat` gives: every column of every table, once, in
      the order the tables first mention them. */
  function UnionColumns(ts: seq<Table>): seq<Label> {
    KeepFirst(AllColumnNames(ts))
  }

  lemma UnionColumnsSpec(ts: seq<Table>)
    ensures NoDuplicates(UnionColumns(ts))
    ensures forall c :: c in UnionColumns(ts) ==> c in AllColumnNames(ts)
    ensures forall c :: c in UnionColumns(ts) <==> exists k :: 0 <= k < |ts| && c in ts[k].columns
    ensures forall i, j :: 0 <= i < j < |UnionColumns(ts)| ==>
      FirstIndex(AllColumnNames(ts), UnionColumns(ts)[i]) < FirstIndex(AllColumnNames(ts), UnionColumns(ts)[j])
  {
    KeepFirstNoDuplicates(AllColumnNames(ts));
    KeepFirstOrder(AllColumnNames(ts));
    forall c ensures c in UnionColumns(ts) <==> exists k :: 0 <= k < |ts| && c in ts[k].columns {
      KeepFirstMembers(AllColumnNames(ts), c);
      AllColumnNamesMembers(ts, c);
    }
  }

  /** Number of rows of all tables together. */
  function RowCount(ts: seq<Table>): nat {
    if ts == [] then 0 else |ts[0].rows| + RowCount(ts[1..])
  }

  /** Number of rows of the tables before position `k`. */
  function RowsBefore(ts: seq<Table>, k: nat): nat
    requires k <= |ts|
  {
    if k == 0 then 0 else |ts[0].rows| + RowsBefore(ts[1..], k - 1)
  }

  /** Row groups laid out like the tables' rows: group `k` has as many rows as
      table `k`. */
  predicate ShapedLike<R>(xss: seq<seq<R>>, ts: seq<Table>) {
    |xss| == |ts| && forall k :: 0 <= k < |ts| ==> |xss[k]| == |ts[k].rows|
  }

  lemma {:induction false} ShapedLikeCounts<R>(xss: seq<seq<R>>, ts: seq<Table>)
    requires ShapedLike(xss, ts)
    ensures TotalLength(xss) == RowCount(ts)
    ensures forall k :: 0 <= k <= |ts| ==> LengthBefore(xss, k) == RowsBefore(ts, k)
  {
    if ts != [] {
      assert ShapedLike(xss[1..], ts[1..]) by {
        forall k | 0 <= k < |ts[1..]| ensures |xss[1..][k]| == |ts[1..][k].rows| {
          assert xss[1..][k] == xss[k + 1] && ts[1..][k] == ts[k + 1];
        }
      }
      ShapedLikeCounts(xss[1..], ts[1..]);
      forall k | 0 < k <= |ts| ensures LengthBefore(xss, k) == RowsBefore(ts, k) {
        assert LengthBefore(xss, k) == |xss[0]| + LengthBefore(xss[1..], k - 1);
      }
    }
  }

  /** Flattening groups shaped like the tables puts element `i` of group `k`
      after all the rows of the tables before `k`. */
  lemma GroupsLayout<R>(g: seq<seq<R>>, ts: seq<Table>)
    requires ShapedLike(g, ts)
    ensures |Flatten(g)| == RowCount(ts)
    ensures forall k :: 0 <= k < |ts| ==> RowsBefore(ts, k) + |ts[k].rows| <= RowCount(ts)
    ensures forall k, i :: 0 <= k < |ts| && 0 <= i < |ts[k].rows| ==>
      Flatten(g)[RowsBefore(ts, k) + i] == g[k][i]
  {
    FlattenLength(g);
    ShapedLikeCounts(g, ts);
    forall k | 0 <= k < |ts| ensures RowsBefore(ts, k) + |ts[k].rows| <= RowCount(ts) {
      LengthBeforeBound(g, k);
    }
    forall k, i | 0 <= k < |ts| && 0 <= i < |ts[k].rows|
      ensures Flatten(g)[RowsBefore(ts, k) + i] == g[k][i]
    {
      FlattenAt(g, k, i);
    }
  }

  /** Each table's rows, reindexed onto `cols`, one group per table. */
  function ReindexedGroups(ts: seq<Table>, cols: seq<Label>): (g: seq<seq<Row>>)
    ensures ShapedLike(g, ts)
    ensures forall k :: 0 <= k < |ts| ==> g[k] == Reindex(ts[k], cols).rows
  {
    seq(|ts|, k requires 0 <= k < |ts| => Reindex(ts[k], cols).rows)
  }

  /** `pd.concat(tables, ignore_index=True)` onto the columns `cols`. */
  function ConcatRows(ts: seq<Table>, cols: seq<Label>): seq<Row> {
    Flatten(ReindexedGroups(ts, cols))
  }

  /** Concatenation keeps every row, in table order and then row order: row
      `i` of table `k` lands right after the rows of the tables before it. */
  lemma ConcatRowsLayout(ts: seq<Table>, cols: seq<Label>)
    ensures |ConcatRows(ts, cols)| == RowCount(ts)
    ensures forall k :: 0 <= k < |ts| ==> RowsBefore(ts, k) + |ts[k].rows| <= RowCount(ts)
    ensures forall k, i :: 0 <= k < |ts| && 0 <= i < |ts[k].rows| ==>
      ConcatRows(ts, cols)[RowsBefore(ts, k) + i] == ReindexRow(ts[k].columns, ts[k].rows[i], cols)
  {
    var g := ReindexedGroups(ts, cols);
    assert ConcatRows(ts, cols) == Flatten(g);
    GroupsLayout(g, ts);
  }

  /** The type pandas names when it cannot hash a cell: a nested list or a
      nested dict, as a JSON record can hold. Every other cell hashes. */
  function UnhashableType(c: Cell): (t: Option<string>)
    ensures t.Some? ==> t.value == "list" || t.value == "dict"
  {
    if c.Present? && c.value.Arr? then Some("list")
    else if c.Present? && c.value.Obj? then Some("dict")
    else None
  }

  predicate Hashable(c: Cell) {
    UnhashableType(c).None?
  }

  /** The cell at position `j` of `row`, missing past the row's end. */
  function CellIn(row: Row, j: nat): Cell {
    if j < |row| then row[j] else Absent
  }

  /** The first cell of column `j` that cannot be hashed, from the top row
      down. */
  function FirstUnhashableIn(rows: seq<Row>, j: nat): Option<string> {
    if rows == [] then None
    else if !Hashable(CellIn(rows[0], j)) then UnhashableType(CellIn(rows[0], j))
    else FirstUnhashableIn(rows[1..], j)
  }

  lemma {:induction false} FirstUnhashableInSpec(rows: seq<Row>, j: nat)
    ensures FirstUnhashableIn(rows, j).None? <==> forall i :: 0 <= i < |rows| ==> Hashable(CellIn(rows[i], j))
    ensures FirstUnhashableIn(rows, j).Some? ==>
      exists i :: 0 <= i < |rows| &&
        UnhashableType(CellIn(rows[i], j)) == FirstUnhashableIn(rows, j) &&
        forall i' :: 0 <= i' < i ==> Hashable(CellIn(rows[i'], j))
  {
    if rows != [] && Hashable(CellIn(rows[0], j)) {
      var rest := rows[1..];
      FirstUnhashableInSpec(rest, j);
      assert forall i :: 1 <= i < |rows| ==> rows[i] == rest[i - 1];
      if FirstUnhashableIn(rest, j).Some? {
        var i :| 0 <= i < |rest| && UnhashableType(CellIn(rest[i], j)) == FirstUnhashableIn(rest, j) &&
          forall i' :: 0 <= i' < i ==> Hashable(CellIn(rest[i'], j));
        assert UnhashableType(CellIn(rows[i + 1], j)) == FirstUnhashableIn(rows, j);
      }
    }
  }

  /** The cell `drop_duplicates` fails on: pandas factorizes the columns one
      after another, each from its top row down, and the first nested list
      or dict it meets raises. */
  function FirstUnhashable(rows: seq<Row>, width: nat): Option<string> {
    if width == 0 then None
    else match FirstUnhashable(rows, width - 1)
      case Some(t) => Some(t)
      case None => FirstUnhashableIn(rows, width - 1)
  }

  /** `drop_duplicates` fails exactly when some cell is a nested list or
      dict, and then names the type of the first such cell in column order,
      then row order. */
  lemma {:induction false} FirstUnhashableSpec(rows: seq<Row>, width: nat)
    ensures FirstUnhashable(rows, width).None? <==>
      forall i, j :: 0 <= i < |rows| && 0 <= j < width ==> Hashable(CellIn(rows[i], j))
    ensures FirstUnhashable(rows, width).Some? ==>
      exists i, j :: 0 <= i < |rows| && 0 <= j < width &&
        UnhashableType(CellIn(rows[i], j)) == FirstUnhashable(rows, width) &&
        (forall i', j' :: 0 <= i' < |rows| && 0 <= j' < j ==> Hashable(CellIn(rows[i'], j'))) &&
        (forall i' :: 0 <= i' < i ==> Hashable(CellIn(rows[i'], j)))
  {
    if width > 0 {
      FirstUnhashableSpec(rows, width - 1);
      FirstUnhashableInSpec(rows, width - 1);
    }
  }

  /** What `drop_duplicates` compares a cell by. pandas factorizes an object
      column with Python's `==` and hash, under which `True == 1` and
      `False == 0`, and it counts `None` as missing, like the marker reindexing
      fills in. */
  function Canonical(c: Cell): (k: Cell)
    ensures k.Present? ==> !k.value.Bool? && !k.value.Null?
    ensures c.Present? && c.value.Bool? ==> k == Present(Num(if c.value.b then 1 else 0))
    ensures c.Present? && c.value.Null? ==> k == Absent
    ensures !(c.Present? && (c.value.Bool? || c.value.Null?)) ==> k == c
  {
    match c
    case Present(Bool(b)) => Present(Num(if b then 1 else 0))
    case Present(Null) => Absent
    case _ => c
  }

  /** A row as `drop_duplicates` compares it: cell by cell, canonically. */
  function RowKey(row: Row): (k: Row)
    ensures |k| == |row|
    ensures forall j :: 0 <= j < |row| ==> k[j] == Canonical(row[j])
  {
    seq(|row|, j requires 0 <= j < |row| => Canonical(row[j]))
  }

  function RowKeys(rows: seq<Row>): (ks: seq<Row>)
    ensures |ks| == |rows|
    ensures forall i :: 0 <= i < |rows| ==> ks[i] == RowKey(rows[i])
  {
    seq(|rows|, i requires 0 <= i < |rows| => RowKey(rows[i]))
  }

  /** `drop_duplicates()`: a row is dropped exactly when an earlier row
      compares equal to it in every column. */
  function DropDuplicates(rows: seq<Row>): seq<Row> {
    if rows == [] then []
    else
      var init := rows[..|rows| - 1];
      DropDuplicates(init) + (if RowKey(rows[|rows| - 1]) in RowKeys(init) then [] else [rows[|rows| - 1]])
  }

  lemma RowKeysConcat(a: seq<Row>, b: seq<Row>)
    ensures RowKeys(a + b) == RowKeys(a) + RowKeys(b)
  {
  }

  lemma RowKeysPrefix(rows: seq<Row>, n: nat)
    requires n <= |rows|
    ensures RowKeys(rows[..n]) == RowKeys(rows)[..n]
  {
  }

  /** The keys of the surviving rows are the first occurrences of the keys. */
  lemma {:induction false} DropDuplicatesKeys(rows: seq<Row>)
    ensures RowKeys(DropDuplicates(rows)) == KeepFirst(RowKeys(rows))
  {
    if rows != [] {
      var n := |rows| - 1;
      var init := rows[..n];
      DropDuplicatesKeys(init);
      RowKeysPrefix(rows, n);
      var tail := if RowKey(rows[n]) in RowKeys(init) then [] else [rows[n]];
      RowKeysConcat(DropDuplicates(init), tail);
    }
  }

  /** Each survivor is the first row that compares equal to it. */
  lemma {:induction false} DropDuplicatesFirst(rows: seq<Row>)
    ensures forall r :: r in DropDuplicates(rows) ==>
      RowKey(r) in RowKeys(rows) && r == rows[FirstIndex(RowKeys(rows), RowKey(r))]
  {
    if rows != [] {
      var n := |rows| - 1;
      var init := rows[..n];
      DropDuplicatesFirst(init);
      RowKeysPrefix(rows, n);
      forall r | r in DropDuplicates(rows)
        ensures RowKey(r) in RowKeys(rows) && r == rows[FirstIndex(RowKeys(rows), RowKey(r))]
      {
        if r in DropDuplicates(init) {
          FirstIndexPrefix(RowKeys(init), RowKeys(rows), RowKey(r));
          assert init[FirstIndex(RowKeys(init), RowKey(r))] == rows[FirstIndex(RowKeys(init), RowKey(r))];
        } else {
          assert r == rows[n] && RowKey(r) !in RowKeys(init);
          assert RowKeys(rows)[n] == RowKey(r);
        }
      }
    }
  }

  /** Nothing is dropped from rows that are pairwise different. */
  lemma {:induction false} DropDuplicatesOfDistinct(rows: seq<Row>)
    requires NoDuplicates(RowKeys(rows))
    ensures DropDuplicates(rows) == rows
  {
    if rows != [] {
      var n := |rows| - 1;
      var init := rows[..n];
      RowKeysPrefix(rows, n);
      DropDuplicatesOfDistinct(init);
      assert RowKey(rows[n]) !in RowKeys(init) by {
        forall i | 0 <= i < n ensures RowKeys(init)[i] != RowKey(rows[n]) {
          assert RowKeys(rows)[i] != RowKeys(rows)[n];
        }
      }
      assert rows == init + [rows[n]];
    }
  }

  /** Rows equal to earlier ones are all dropped. */
  lemma {:induction false} DropDuplicatesAbsorbs(a: seq<Row>, b: seq<Row>)
    requires forall r :: r in b ==> RowKey(r) in RowKeys(a)
    ensures DropDuplicates(a + b) == DropDuplicates(a)
  {
    if b == [] {
      assert a + b == a;
    } else {
      var b0 := b[..|b| - 1];
      DropDuplicatesAbsorbs(a, b0);
      assert (a + b)[..|a + b| - 1] == a + b0;
      RowKeysConcat(a, b0);
      assert b[|b| - 1] in b;
    }
  }

  /** What `drop_duplicates()` promises: no two remaining rows compare equal,
      every remaining row is an input row, every input row compares equal to
      a remaining one, the survivor of each group of equal rows is its first,
      the survivors keep the order of their first occurrence, and the count
      shrinks exactly when two input rows compared equal. */
  lemma DropDuplicatesSpec(rows: seq<Row>)
    ensures NoDuplicates(RowKeys(DropDuplicates(rows)))
    ensures forall r :: r in DropDuplicates(rows) ==> r in rows
    ensures forall k :: k in RowKeys(DropDuplicates(rows)) <==> k in RowKeys(rows)
    ensures forall r :: r in DropDuplicates(rows) ==>
      RowKey(r) in RowKeys(rows) && r == rows[FirstIndex(RowKeys(rows), RowKey(r))]
    ensures |DropDuplicates(rows)| <= |rows|
    ensures |DropDuplicates(rows)| == |rows| <==> NoDuplicates(RowKeys(rows))
  {
    var keys := RowKeys(rows);
    var kept := DropDuplicates(rows);
    DropDuplicatesKeys(rows);
    DropDuplicatesFirst(rows);
    KeepFirstNoDuplicates(keys);
    KeepFirstShrinks(keys);
    forall k ensures k in RowKeys(kept) <==> k in keys {
      KeepFirstMembers(keys, k);
    }
    if NoDuplicates(keys) {
      KeepFirstOfDistinct(keys);
    }
  }

  /** The survivors keep the order of their first occurrence. */
  lemma DropDuplicatesOrder(rows: seq<Row>)
    ensures forall i, j :: 0 <= i < j < |DropDuplicates(rows)| ==>
      RowKey(DropDuplicates(rows)[i]) in RowKeys(rows) && RowKey(DropDuplicates(rows)[j]) in RowKeys(rows) &&
      FirstIndex(RowKeys(rows), RowKey(DropDuplicates(rows)[i])) <
      FirstIndex(RowKeys(rows), RowKey(DropDuplicates(rows)[j]))
  {
    var keys := RowKeys(rows);
    var kept := DropDuplicates(rows);
    DropDuplicatesKeys(rows);
    KeepFirstOrder(keys);
    forall i, j | 0 <= i < j < |kept|
      ensures RowKey(kept[i]) in keys && RowKey(kept[j]) in keys
      ensures FirstIndex(keys, RowKey(kept[i])) < FirstIndex(keys, RowKey(kept[j]))
    {
      assert KeepFirst(keys)[i] == RowKey(kept[i]) && KeepFirst(keys)[j] == RowKey(kept[j]);
    }
  }

  /** Under `drop_duplicates` a `true` cell and a `1` cell are the same
      value, and a `null` cell is a missing one: of two rows that differ only
      so, the second is dropped. */
  lemma PythonEqualCells(r1: Row, r2: Row)
    requires RowKey(r1) == RowKey(r2)
    ensures DropDuplicates([r1, r2]) == [r1]
  {
    assert [r1, r2][..1] == [r1];
    assert [r1][..0] == [];
    assert DropDuplicates([r1]) == [r1];
    assert RowKeys([r1])[0] == RowKey(r2);
  }

  lemma TrueIsOne()
    ensures RowKey([Present(Bool(true))]) == RowKey([Present(Num(1))])
    ensures RowKey([Present(Bool(false)), Present(Null)]) == RowKey([Present(Num(0)), Absent])
    ensures RowKey([Present(Bool(true))]) != RowKey([Present(Num(2))])
  {
    assert RowKey([Present(Bool(true))])[0] != RowKey([Present(Num(2))])[0];
  }
}
