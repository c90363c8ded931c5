/** The table model shared by the producer pipeline and the dashboard.

    A frame stands for a pandas DataFrame whose first column is `Timestamp`
    (epoch milliseconds, an `int`) and whose other columns hold market-cap
    values (`real`).  A cell is `None` where pandas would hold NaN.  Row
    positions play the part of the DataFrame index: after `reset_index` the
    index of a row is its position. */
module Frames {
  import opened Seqs

  datatype Option<T> = None | Some(value: T)

  datatype Result<T, E> = Success(value: T) | Failure(error: E)

  /** The contribution of a cell to a pandas sum: a missing cell counts 0. */
  function ValueOr0(v: Option<real>): real {
    match v
    case Some(x) => x
    case None => 0.0
  }

  const TIMESTAMP := "Timestamp"

  datatype Row = Row(ts: int, cells: map<string, Option<real>>)

  /** `valueColumns` are the columns after `Timestamp`, in table order. */
  datatype Frame = Frame(valueColumns: seq<string>, rows: seq<Row>)

  /** All column names, in table order. */
  function Columns(f: Frame): seq<string> {
    [TIMESTAMP] + f.valueColumns
  }

  function ColumnSet(cols: seq<string>): set<string> {
    set c | c in cols
  }

  /** A rectangular table: distinct column names and a cell for every
      column in every row. */
  predicate WellFormed(f: Frame) {
    && Distinct(f.valueColumns)
    && TIMESTAMP !in f.valueColumns
    && forall r :: r in f.rows ==> r.cells.Keys == ColumnSet(f.valueColumns)
  }

  function Timestamps(rows: seq<Row>): set<int> {
    set r | r in rows :: r.ts
  }

  predicate UniqueTimestamps(rows: seq<Row>) {
    forall i, j :: 0 <= i < j < |rows| ==> rows[i].ts != rows[j].ts
  }

  /** A well-formed table in which Timestamp is a key. */
  predicate Keyed(f: Frame) {
    WellFormed(f) && UniqueTimestamps(f.rows)
  }

  /** The first row stamped `t`, if there is one. */
  function Find(rows: seq<Row>, t: int): (r: Option<Row>)
    ensures r.Some? ==> r.value in rows && r.value.ts == t
    ensures r.None? <==> t !in Timestamps(rows)
    decreases |rows|
  {
    if rows == [] then None
    else if rows[0].ts == t then Some(rows[0])
    else
      assert forall x :: x in rows <==> x == rows[0] || x in rows[1..];
      Find(rows[1..], t)
  }

  lemma {:induction false} FindUnique(rows: seq<Row>, i: int)
    requires UniqueTimestamps(rows) && 0 <= i < |rows|
    ensures Find(rows, rows[i].ts) == Some(rows[i])
    decreases |rows|
  {
    if i > 0 {
      assert rows[1..][i - 1] == rows[i];
      FindUnique(rows[1..], i - 1);
    }
  }

  /** The value in column `c` at timestamp `t`; `None` when the table has no
      row stamped `t` or no such column. */
  function Get(f: Frame, t: int, c: string): Option<real> {
    match Find(f.rows, t)
    case None => None
    case Some(row) => if c in row.cells then row.cells[c] else None
  }

  /** In a keyed table, looking a row's timestamp up finds that row. */
  lemma GetRows(f: Frame)
    requires UniqueTimestamps(f.rows)
    ensures forall row, c :: row in f.rows && c in row.cells ==> Get(f, row.ts, c) == row.cells[c]
  {
    forall row, c | row in f.rows && c in row.cells
      ensures Get(f, row.ts, c) == row.cells[c]
    {
      var i :| 0 <= i < |f.rows| && f.rows[i] == row;
      FindUnique(f.rows, i);
    }
  }

  /** A key column has as many distinct values as the table has rows. */
  lemma {:induction false} TimestampCount(rows: seq<Row>)
    requires UniqueTimestamps(rows)
    ensures |Timestamps(rows)| == |rows|
    decreases |rows|
  {
    if rows != [] {
      var tail := rows[1..];
      assert UniqueTimestamps(tail) by {
        forall i, j | 0 <= i < j < |tail| ensures tail[i].ts != tail[j].ts {
          assert tail[i] == rows[i + 1] && tail[j] == rows[j + 1];
        }
      }
      TimestampCount(tail);
      assert Timestamps(rows) == {rows[0].ts} + Timestamps(tail) by {
        assert forall x :: x in rows <==> x == rows[0] || x in tail;
      }
      assert rows[0].ts !in Timestamps(tail) by {
        forall x | x in tail ensures x.ts != rows[0].ts {
          var j :| 0 <= j < |tail| && tail[j] == x;
          assert rows[j + 1] == x;
        }
      }
    }
  }

  /** A subsequence of a keyed row sequence is keyed. */
  lemma {:induction false} SubseqUnique(a: seq<Row>, b: seq<Row>)
    requires Subseq(a, b) && UniqueTimestamps(b)
    ensures UniqueTimestamps(a)
    decreases |b|
  {
    if a != [] {
      assert UniqueTimestamps(b[1..]) by {
        forall i, j | 0 <= i < j < |b[1..]| ensures b[1..][i].ts != b[1..][j].ts {
          assert b[1..][i] == b[i + 1] && b[1..][j] == b[j + 1];
        }
      }
      if a[0] == b[0] {
        SubseqUnique(a[1..], b[1..]);
        SubseqMembers(a[1..], b[1..]);
        forall i, j | 0 <= i < j < |a| ensures a[i].ts != a[j].ts {
          assert a[j] == a[1..][j - 1];
          if i == 0 {
            assert a[1..][j - 1] in a[1..];
            var k :| 0 <= k < |b[1..]| && b[1..][k] == a[j];
            assert b[k + 1] == a[j];
          } else {
            assert a[i] == a[1..][i - 1];
          }
        }
      } else {
        SubseqUnique(a, b[1..]);
      }
    }
  }

  /** A cell map with every given column missing. */
  function NullCells(cols: seq<string>): (m: map<string, Option<real>>)
    ensures m.Keys == ColumnSet(cols)
    ensures forall c :: c in m ==> m[c] == None
  {
    map c | c in cols :: None
  }

  /** The cells `f` contributes at timestamp `t` to an outer merge: its row's
      cells, or all-missing cells when it has no row stamped `t`. */
  function CellsAt(f: Frame, t: int): (m: map<string, Option<real>>)
    requires WellFormed(f)
    ensures m.Keys == ColumnSet(f.valueColumns)
    ensures forall c :: c in f.valueColumns ==> m[c] == Get(f, t, c)
  {
    match Find(f.rows, t)
    case Some(row) => row.cells
    case None => NullCells(f.valueColumns)
  }

  /** Rows of an outer merge that come from the left table. */
  function LeftRows(l: Frame, r: Frame): (rows: seq<Row>)
    requires Keyed(l) && WellFormed(r)
    requires ColumnSet(l.valueColumns) !! ColumnSet(r.valueColumns)
    ensures |rows| == |l.rows|
    ensures forall i :: 0 <= i < |rows| ==> rows[i].ts == l.rows[i].ts
    ensures forall i :: 0 <= i < |rows| ==>
      rows[i].cells.Keys == ColumnSet(l.valueColumns) + ColumnSet(r.valueColumns)
    ensures forall i, c :: 0 <= i < |rows| && c in l.valueColumns ==> rows[i].cells[c] == Get(l, rows[i].ts, c)
    ensures forall i, c :: 0 <= i < |rows| && c in r.valueColumns ==> rows[i].cells[c] == Get(r, rows[i].ts, c)
  {
    GetRows(l);
    seq(|l.rows|, i requires 0 <= i < |l.rows| =>
      assert l.rows[i] in l.rows;
      Row(l.rows[i].ts, l.rows[i].cells + CellsAt(r, l.rows[i].ts)))
  }

  /** The given rows with all-missing cells added for `cols`. */
  function PadRows(rows: seq<Row>, cols: seq<string>): (out: seq<Row>)
    ensures |out| == |rows|
    ensures forall i :: 0 <= i < |rows| ==> out[i].ts == rows[i].ts
    ensures forall i :: 0 <= i < |rows| ==> out[i].cells == NullCells(cols) + rows[i].cells
  {
    seq(|rows|, i requires 0 <= i < |rows| => Row(rows[i].ts, NullCells(cols) + rows[i].cells))
  }

  lemma PadRowsTimestamps(rows: seq<Row>, cols: seq<string>)
    ensures Timestamps(PadRows(rows, cols)) == Timestamps(rows)
    ensures UniqueTimestamps(rows) ==> UniqueTimestamps(PadRows(rows, cols))
  {
    var out := PadRows(rows, cols);
    forall t | t in Timestamps(rows) ensures t in Timestamps(out) {
      var x :| x in rows && x.ts == t;
      var k :| 0 <= k < |rows| && rows[k] == x;
      assert out[k] in out;
    }
  }

  /** The right table's rows whose timestamp the left table lacks. */
  function RightOnly(l: Frame, r: Frame): (extra: seq<Row>)
    ensures forall x :: x in extra ==> x in r.rows && x.ts !in Timestamps(l.rows)
    ensures Timestamps(extra) == Timestamps(r.rows) - Timestamps(l.rows)
    ensures UniqueTimestamps(r.rows) ==> UniqueTimestamps(extra)
  {
    var extra := Filter(r.rows, (row: Row) => Find(l.rows, row.ts).None?);
    RightOnlyFacts(l, r, extra);
    extra
  }

  lemma RightOnlyFacts(l: Frame, r: Frame, extra: seq<Row>)
    requires extra == Filter(r.rows, (row: Row) => Find(l.rows, row.ts).None?)
    ensures forall x :: x in extra ==> x in r.rows && x.ts !in Timestamps(l.rows)
    ensures Timestamps(extra) == Timestamps(r.rows) - Timestamps(l.rows)
    ensures UniqueTimestamps(r.rows) ==> UniqueTimestamps(extra)
  {
    if UniqueTimestamps(r.rows) {
      SubseqUnique(extra, r.rows);
    }
    FilterMembers(r.rows, (row: Row) => Find(l.rows, row.ts).None?);
    forall t | t in Timestamps(r.rows) - Timestamps(l.rows) ensures t in Timestamps(extra) {
      var x :| x in r.rows && x.ts == t;
      var k :| 0 <= k < |r.rows| && r.rows[k] == x;
      assert x in extra;
    }
  }

  /** Rows of an outer merge whose timestamp only the right table has. */
  function RightOnlyRows(l: Frame, r: Frame): (rows: seq<Row>)
    requires WellFormed(l) && Keyed(r)
    requires ColumnSet(l.valueColumns) !! ColumnSet(r.valueColumns)
    ensures UniqueTimestamps(rows)
    ensures Timestamps(rows) == Timestamps(r.rows) - Timestamps(l.rows)
    ensures forall row :: row in rows ==>
      row.cells.Keys == ColumnSet(l.valueColumns) + ColumnSet(r.valueColumns)
    ensures forall row, c :: row in rows && c in l.valueColumns ==> row.cells[c] == Get(l, row.ts, c)
    ensures forall row, c :: row in rows && c in r.valueColumns ==> row.cells[c] == Get(r, row.ts, c)
  {
    var extra := RightOnly(l, r);
    var rows := PadRows(extra, l.valueColumns);
    PadRowsTimestamps(extra, l.valueColumns);
    RightOnlyCells(l, r, extra, rows);
    rows
  }

  lemma RightOnlyCells(l: Frame, r: Frame, extra: seq<Row>, rows: seq<Row>)
    requires WellFormed(l) && Keyed(r)
    requires ColumnSet(l.valueColumns) !! ColumnSet(r.valueColumns)
    requires forall x :: x in extra ==> x in r.rows && x.ts !in Timestamps(l.rows)
    requires rows == PadRows(extra, l.valueColumns)
    ensures forall row :: row in rows ==>
      row.cells.Keys == ColumnSet(l.valueColumns) + ColumnSet(r.valueColumns)
    ensures forall row, c :: row in rows && c in l.valueColumns ==> row.cells[c] == Get(l, row.ts, c)
    ensures forall row, c :: row in rows && c in r.valueColumns ==> row.cells[c] == Get(r, row.ts, c)
  {
    GetRows(r);
    forall row | row in rows
      ensures row.cells.Keys == ColumnSet(l.valueColumns) + ColumnSet(r.valueColumns)
      ensures forall c :: c in l.valueColumns ==> row.cells[c] == Get(l, row.ts, c)
      ensures forall c :: c in r.valueColumns ==> row.cells[c] == Get(r, row.ts, c)
    {
      var i :| 0 <= i < |rows| && rows[i] == row;
      assert extra[i] in extra;
    }
  }

  /** pandas `l.merge(r, on="Timestamp", how="outer")` for tables whose value
      columns are disjoint and in which Timestamp is a key: one row per
      timestamp of either table, carrying each table's value or a missing
      cell where that table has no such timestamp.  The order of the merged
      rows is not specified (only the final explicit sort is). */
  function Merge(l: Frame, r: Frame): (m: Frame)
    requires Keyed(l) && Keyed(r)
    requires ColumnSet(l.valueColumns) !! ColumnSet(r.valueColumns)
    ensures Keyed(m)
    ensures m.valueColumns == l.valueColumns + r.valueColumns
    ensures Timestamps(m.rows) == Timestamps(l.rows) + Timestamps(r.rows)
    ensures forall row, c :: row in m.rows && c in l.valueColumns ==> row.cells[c] == Get(l, row.ts, c)
    ensures forall row, c :: row in m.rows && c in r.valueColumns ==> row.cells[c] == Get(r, row.ts, c)
  {
    var left := LeftRows(l, r);
    var right := RightOnlyRows(l, r);
    var cols := l.valueColumns + r.valueColumns;
    DisjointConcat(l.valueColumns, r.valueColumns);
    MergedRows(l, left, right);
    Frame(cols, left + right)
  }

  lemma DisjointConcat(a: seq<string>, b: seq<string>)
    requires Distinct(a) && Distinct(b) && ColumnSet(a) !! ColumnSet(b)
    ensures Distinct(a + b)
    ensures ColumnSet(a + b) == ColumnSet(a) + ColumnSet(b)
  {
    var cols := a + b;
    forall i, j | 0 <= i < j < |cols| ensures cols[i] != cols[j] {
      if j >= |a| && i < |a| {
        assert cols[i] in ColumnSet(a);
        assert cols[j] == b[j - |a|];
        assert cols[j] in ColumnSet(b);
      }
    }
  }

  lemma MergedRows(l: Frame, left: seq<Row>, right: seq<Row>)
    requires UniqueTimestamps(l.rows)
    requires |left| == |l.rows| && forall i :: 0 <= i < |left| ==> left[i].ts == l.rows[i].ts
    requires UniqueTimestamps(right) && Timestamps(right) !! Timestamps(l.rows)
    ensures forall row :: row in left + right <==> row in left || row in right
    ensures Timestamps(left) == Timestamps(l.rows)
    ensures Timestamps(left + right) == Timestamps(left) + Timestamps(right)
    ensures UniqueTimestamps(left + right)
  {
    var rows := left + right;
    assert forall row :: row in rows <==> row in left || row in right;
    forall t | t in Timestamps(l.rows) ensures t in Timestamps(left) {
      var x :| x in l.rows && x.ts == t;
      var k :| 0 <= k < |l.rows| && l.rows[k] == x;
      assert left[k] in left;
    }
    forall i, j | 0 <= i < j < |rows| ensures rows[i].ts != rows[j].ts {
      if j < |left| {
        assert rows[i] == left[i] && rows[j] == left[j];
      } else if i >= |left| {
        assert rows[i] == right[i - |left|] && rows[j] == right[j - |left|];
      } else {
        assert rows[i] == left[i] && rows[j] == right[j - |left|];
        assert rows[i].ts in Timestamps(l.rows);
        assert rows[j] in right;
      }
    }
  }

  /** The merge keeps each input's values at every timestamp. */
  lemma MergeGet(l: Frame, r: Frame)
    requires Keyed(l) && Keyed(r)
    requires ColumnSet(l.valueColumns) !! ColumnSet(r.valueColumns)
    ensures forall t, c :: c in l.valueColumns ==> Get(Merge(l, r), t, c) == Get(l, t, c)
    ensures forall t, c :: c in r.valueColumns ==> Get(Merge(l, r), t, c) == Get(r, t, c)
  {
    forall t, c | c in l.valueColumns || c in r.valueColumns
      ensures c in l.valueColumns ==> Get(Merge(l, r), t, c) == Get(l, t, c)
      ensures c in r.valueColumns ==> Get(Merge(l, r), t, c) == Get(r, t, c)
    {
      MergeGetAt(l, r, t, c);
    }
  }

  lemma MergeGetAt(l: Frame, r: Frame, t: int, c: string)
    requires Keyed(l) && Keyed(r)
    requires ColumnSet(l.valueColumns) !! ColumnSet(r.valueColumns)
    ensures c in l.valueColumns ==> Get(Merge(l, r), t, c) == Get(l, t, c)
    ensures c in r.valueColumns ==> Get(Merge(l, r), t, c) == Get(r, t, c)
  {
    var m := Merge(l, r);
    var found := Find(m.rows, t);
    if found.Some? {
      var row := found.value;
      assert row in m.rows && row.ts == t;
      assert row.cells.Keys == ColumnSet(m.valueColumns);
      assert c in l.valueColumns || c in r.valueColumns ==> c in row.cells;
    } else {
      assert t !in Timestamps(l.rows) && t !in Timestamps(r.rows);
    }
  }

  /** The merge has one row per timestamp of the union: the sum of the sizes
      when the inputs share no timestamp. */
  lemma MergeSize(l: Frame, r: Frame)
    requires Keyed(l) && Keyed(r)
    requires ColumnSet(l.valueColumns) !! ColumnSet(r.valueColumns)
    ensures |Merge(l, r).rows| == |Timestamps(l.rows) + Timestamps(r.rows)|
    ensures Timestamps(l.rows) !! Timestamps(r.rows) ==> |Merge(l, r).rows| == |l.rows| + |r.rows|
  {
    TimestampCount(Merge(l, r).rows);
    TimestampCount(l.rows);
    TimestampCount(r.rows);
  }

  /** pandas `fillna(0)`: every missing cell becomes 0, nothing else moves. */
  function FillZero(f: Frame): (g: Frame)
    ensures g.valueColumns == f.valueColumns && |g.rows| == |f.rows|
    ensures forall i :: 0 <= i < |f.rows| ==>
      g.rows[i].ts == f.rows[i].ts && g.rows[i].cells.Keys == f.rows[i].cells.Keys
    ensures forall i, c :: 0 <= i < |f.rows| && c in f.rows[i].cells ==> g.rows[i].cells[c].Some?
    ensures forall i, c :: 0 <= i < |f.rows| && c in f.rows[i].cells && f.rows[i].cells[c].Some? ==>
      g.rows[i].cells[c] == f.rows[i].cells[c]
    ensures forall i, c :: 0 <= i < |f.rows| && c in f.rows[i].cells && f.rows[i].cells[c].None? ==>
      g.rows[i].cells[c] == Some(0.0)
    ensures Keyed(f) ==> Keyed(g)
  {
    var g := Frame(f.valueColumns, seq(|f.rows|, i requires 0 <= i < |f.rows| =>
      Row(f.rows[i].ts, map c | c in f.rows[i].cells :: Some(ValueOr0(f.rows[i].cells[c])))));
    assert Keyed(f) ==> WellFormed(g) by {
      if Keyed(f) {
        forall x | x in g.rows ensures x.cells.Keys == ColumnSet(g.valueColumns) {
          var i :| 0 <= i < |g.rows| && g.rows[i] == x;
          assert f.rows[i] in f.rows;
        }
      }
    }
    g
  }

  /** pandas `sum(axis=1)` over `cols` for one row (NaN skipped, so a missing
      cell or column adds 0). */
  function RowTotal(cells: map<string, Option<real>>, cols: seq<string>): (total: real)
    ensures (forall c :: c in cols && c in cells ==> cells[c].None?) ==> total == 0.0
    ensures (forall c :: c in cols && c in cells && cells[c].Some? ==> cells[c].value >= 0.0) ==> total >= 0.0
    decreases |cols|
  {
    if cols == [] then 0.0
    else (if cols[0] in cells then ValueOr0(cells[cols[0]]) else 0.0) + RowTotal(cells, cols[1..])
  }

  /** The sum over `cols` of the values at timestamp `t`, a missing value
      counting 0. */
  function CellSum(f: Frame, cols: seq<string>, t: int): real
    decreases |cols|
  {
    if cols == [] then 0.0 else ValueOr0(Get(f, t, cols[0])) + CellSum(f, cols[1..], t)
  }

  lemma {:induction false} CellSumConcat(f: Frame, a: seq<string>, b: seq<string>, t: int)
    ensures CellSum(f, a + b, t) == CellSum(f, a, t) + CellSum(f, b, t)
    decreases |a|
  {
    if a != [] {
      assert (a + b)[1..] == a[1..] + b;
      CellSumConcat(f, a[1..], b, t);
    } else {
      assert a + b == b;
    }
  }

  /** Two tables that agree on `cols` at `t` have the same sum there. */
  lemma {:induction false} CellSumAgree(f: Frame, g: Frame, cols: seq<string>, t: int)
    requires forall c :: c in cols ==> Get(f, t, c) == Get(g, t, c)
    ensures CellSum(f, cols, t) == CellSum(g, cols, t)
    decreases |cols|
  {
    if cols != [] {
      assert cols[0] in cols;
      assert forall c :: c in cols[1..] ==> c in cols;
      CellSumAgree(f, g, cols[1..], t);
    }
  }

  /** A table without a row stamped `t` sums to 0 there. */
  lemma {:induction false} CellSumAbsent(f: Frame, cols: seq<string>, t: int)
    requires t !in Timestamps(f.rows)
    ensures CellSum(f, cols, t) == 0.0
    decreases |cols|
  {
    if cols != [] {
      CellSumAbsent(f, cols[1..], t);
    }
  }

  /** The pandas row sum after `fillna(0)` is the sum of the values the row
      had, looked up by its timestamp. */
  lemma {:induction false} RowTotalFilled(f: Frame, i: int, cols: seq<string>)
    requires Keyed(f) && 0 <= i < |f.rows|
    requires forall c :: c in cols ==> c in f.valueColumns
    ensures RowTotal(FillZero(f).rows[i].cells, cols) == CellSum(f, cols, f.rows[i].ts)
    decreases |cols|
  {
    if cols != [] {
      assert f.rows[i] in f.rows;
      GetRows(f);
      assert forall c :: c in cols[1..] ==> c in cols;
      RowTotalFilled(f, i, cols[1..]);
    }
  }

  /** Row sequences with the same timestamps position by position have the
      same timestamp set and the same key and order properties. */
  lemma SameTimestamps(a: seq<Row>, b: seq<Row>)
    requires |a| == |b| && forall i :: 0 <= i < |a| ==> a[i].ts == b[i].ts
    ensures Timestamps(a) == Timestamps(b)
    ensures UniqueTimestamps(a) ==> UniqueTimestamps(b)
    ensures Ascending(a) ==> Ascending(b)
  {
    forall t | t in Timestamps(a) ensures t in Timestamps(b) {
      var x :| x in a && x.ts == t;
      var k :| 0 <= k < |a| && a[k] == x;
      assert b[k] in b;
    }
    forall t | t in Timestamps(b) ensures t in Timestamps(a) {
      var x :| x in b && x.ts == t;
      var k :| 0 <= k < |b| && b[k] == x;
      assert a[k] in a;
    }
  }

  /** Rearranged rows are the same rows, with the same timestamp set. */
  lemma PermutedRows(a: seq<Row>, b: seq<Row>)
    requires multiset(a) == multiset(b)
    ensures forall x :: x in a <==> x in b
    ensures Timestamps(a) == Timestamps(b)
  {
    forall x ensures x in a <==> x in b {
      assert x in a <==> x in multiset(a);
      assert x in b <==> x in multiset(b);
    }
  }

  /** pandas `f[name] = values`: the column gets `values` row by row,
      replacing it when it exists and appending it at the end otherwise. */
  function WithColumn(f: Frame, name: string, values: seq<Option<real>>): (g: Frame)
    requires WellFormed(f) && name != TIMESTAMP && |values| == |f.rows|
    ensures WellFormed(g)
    ensures g.valueColumns == if name in f.valueColumns then f.valueColumns else f.valueColumns + [name]
    ensures |g.rows| == |f.rows|
    ensures forall i :: 0 <= i < |f.rows| ==> g.rows[i].ts == f.rows[i].ts && g.rows[i].cells[name] == values[i]
    ensures forall i, c :: 0 <= i < |f.rows| && c in f.rows[i].cells && c != name ==>
      g.rows[i].cells[c] == f.rows[i].cells[c]
    ensures UniqueTimestamps(f.rows) ==> UniqueTimestamps(g.rows)
  {
    var cols := if name in f.valueColumns then f.valueColumns else f.valueColumns + [name];
    var g := Frame(cols, seq(|f.rows|, i requires 0 <= i < |f.rows| =>
      Row(f.rows[i].ts, f.rows[i].cells[name := values[i]])));
    assert Distinct(cols);
    assert ColumnSet(cols) == ColumnSet(f.valueColumns) + {name};
    assert forall x :: x in g.rows ==> x.cells.Keys == ColumnSet(cols) by {
      forall x | x in g.rows ensures x.cells.Keys == ColumnSet(cols) {
        var i :| 0 <= i < |g.rows| && g.rows[i] == x;
        assert f.rows[i] in f.rows;
      }
    }
    g
  }

  /** `g` is `f` with column `from` renamed to `to`: the column keeps its
      position, and every cell, Timestamp and the row order stay as they
      were. */
  predicate IsRenaming(f: Frame, from: string, to: string, g: Frame) {
    && WellFormed(g) && |g.valueColumns| == |f.valueColumns| && |g.rows| == |f.rows|
    && (forall k :: 0 <= k < |f.valueColumns| ==>
      g.valueColumns[k] == if f.valueColumns[k] == from then to else f.valueColumns[k])
    && (forall i :: 0 <= i < |f.rows| ==> g.rows[i].ts == f.rows[i].ts)
    && (forall i, c :: 0 <= i < |f.rows| && c in f.valueColumns && c != from ==>
      c in f.rows[i].cells && c in g.rows[i].cells && g.rows[i].cells[c] == f.rows[i].cells[c])
    && (from in f.valueColumns ==> forall i :: 0 <= i < |f.rows| ==>
      from in f.rows[i].cells && to in g.rows[i].cells && g.rows[i].cells[to] == f.rows[i].cells[from])
    && (UniqueTimestamps(f.rows) ==> UniqueTimestamps(g.rows))
  }

  /** pandas `rename(columns={from: to})`: column `from` is renamed `to`,
      in the same place, with the same values. */
  function Rename(f: Frame, from: string, to: string): (g: Frame)
    requires WellFormed(f) && to != TIMESTAMP && to !in f.valueColumns
    ensures IsRenaming(f, from, to, g)
  {
    var cols := seq(|f.valueColumns|, k requires 0 <= k < |f.valueColumns| =>
      if f.valueColumns[k] == from then to else f.valueColumns[k]);
    var g := Frame(cols, seq(|f.rows|, i requires 0 <= i < |f.rows| =>
      if from in f.valueColumns then Row(f.rows[i].ts, RenameCell(f.rows[i].cells, from, to)) else f.rows[i]));
    RenameMeets(f, from, to, g);
    g
  }

  function RenameCell(cells: map<string, Option<real>>, from: string, to: string): (m: map<string, Option<real>>)
    requires from in cells && to !in cells
    ensures m.Keys == cells.Keys - {from} + {to}
    ensures m[to] == cells[from]
    ensures forall c :: c in cells && c != from ==> m[c] == cells[c]
  {
    (map c | c in cells && c != from :: cells[c])[to := cells[from]]
  }

  lemma RenameMeets(f: Frame, from: string, to: string, g: Frame)
    requires WellFormed(f) && to != TIMESTAMP && to !in f.valueColumns
    requires g.valueColumns == seq(|f.valueColumns|, k requires 0 <= k < |f.valueColumns| =>
      if f.valueColumns[k] == from then to else f.valueColumns[k])
    requires |g.rows| == |f.rows|
    requires forall i :: 0 <= i < |f.rows| ==>
      g.rows[i] == if from in f.valueColumns then Row(f.rows[i].ts, RenameCell(f.rows[i].cells, from, to)) else f.rows[i]
    ensures IsRenaming(f, from, to, g)
  {
    assert forall k :: 0 <= k < |f.valueColumns| ==>
      g.valueColumns[k] == if f.valueColumns[k] == from then to else f.valueColumns[k];
    assert forall i :: 0 <= i < |f.rows| ==> g.rows[i].ts == f.rows[i].ts;
    assert UniqueTimestamps(f.rows) ==> UniqueTimestamps(g.rows);
    RenameWellFormed(f, from, to, g);
    RenameCells(f, from, to, g);
  }

  lemma RenameCells(f: Frame, from: string, to: string, g: Frame)
    requires WellFormed(f) && to != TIMESTAMP && to !in f.valueColumns
    requires |g.rows| == |f.rows|
    requires forall i :: 0 <= i < |f.rows| ==>
      g.rows[i] == if from in f.valueColumns then Row(f.rows[i].ts, RenameCell(f.rows[i].cells, from, to)) else f.rows[i]
    ensures forall i, c :: 0 <= i < |f.rows| && c in f.valueColumns && c != from ==>
      c in f.rows[i].cells && c in g.rows[i].cells && g.rows[i].cells[c] == f.rows[i].cells[c]
    ensures from in f.valueColumns ==> forall i :: 0 <= i < |f.rows| ==>
      from in f.rows[i].cells && to in g.rows[i].cells && g.rows[i].cells[to] == f.rows[i].cells[from]
  {
    forall i, c | 0 <= i < |f.rows| && c in f.valueColumns && c != from
      ensures c in f.rows[i].cells && c in g.rows[i].cells && g.rows[i].cells[c] == f.rows[i].cells[c]
    {
      assert f.rows[i] in f.rows;
    }
    if from in f.valueColumns {
      forall i | 0 <= i < |f.rows|
        ensures from in f.rows[i].cells && to in g.rows[i].cells && g.rows[i].cells[to] == f.rows[i].cells[from]
      {
        assert f.rows[i] in f.rows;
      }
    }
  }

  lemma RenameWellFormed(f: Frame, from: string, to: string, g: Frame)
    requires WellFormed(f) && to != TIMESTAMP && to !in f.valueColumns
    requires g.valueColumns == seq(|f.valueColumns|, k requires 0 <= k < |f.valueColumns| =>
      if f.valueColumns[k] == from then to else f.valueColumns[k])
    requires |g.rows| == |f.rows|
    requires forall i :: 0 <= i < |f.rows| ==>
      g.rows[i] == if from in f.valueColumns then Row(f.rows[i].ts, RenameCell(f.rows[i].cells, from, to)) else f.rows[i]
    ensures WellFormed(g)
  {
    var cols := g.valueColumns;
    if from in f.valueColumns {
      assert ColumnSet(cols) == ColumnSet(f.valueColumns) - {from} + {to} by {
        forall c | c in ColumnSet(f.valueColumns) - {from} + {to} ensures c in cols {
          if c == to {
            var k :| 0 <= k < |f.valueColumns| && f.valueColumns[k] == from;
            assert cols[k] == to;
          } else {
            var k :| 0 <= k < |f.valueColumns| && f.valueColumns[k] == c;
            assert cols[k] == c;
          }
        }
      }
      forall x | x in g.rows ensures x.cells.Keys == ColumnSet(cols) {
        var i :| 0 <= i < |g.rows| && g.rows[i] == x;
        assert f.rows[i] in f.rows;
      }
    } else {
      assert cols == f.valueColumns;
    }
  }

  /** pandas selection `f[cols]` (with Timestamp kept first): only the given
      columns, in the given order, with their values. */
  function Select(f: Frame, cols: seq<string>): (g: Frame)
    requires WellFormed(f) && Distinct(cols)
    requires forall c :: c in cols ==> c in f.valueColumns
    ensures WellFormed(g) && g.valueColumns == cols && |g.rows| == |f.rows|
    ensures forall i :: 0 <= i < |f.rows| ==> g.rows[i].ts == f.rows[i].ts
    ensures forall i, c :: 0 <= i < |f.rows| && c in cols ==> g.rows[i].cells[c] == f.rows[i].cells[c]
    ensures UniqueTimestamps(f.rows) ==> UniqueTimestamps(g.rows)
  {
    var g := Frame(cols, seq(|f.rows|, i requires 0 <= i < |f.rows| =>
      assert f.rows[i] in f.rows;
      Row(f.rows[i].ts, map c | c in cols :: f.rows[i].cells[c])));
    assert forall x :: x in g.rows ==> x.cells.Keys == ColumnSet(cols) by {
      forall x | x in g.rows ensures x.cells.Keys == ColumnSet(cols) {
        var i :| 0 <= i < |g.rows| && g.rows[i] == x;
      }
    }
    g
  }

  /** Strictly ascending by Timestamp. */
  predicate Ascending(rows: seq<Row>) {
    forall i, j :: 0 <= i < j < |rows| ==> rows[i].ts < rows[j].ts
  }

  lemma AscendingIsUnique(rows: seq<Row>)
    requires Ascending(rows)
    ensures UniqueTimestamps(rows)
  {
  }

  /** pandas `sort_values("Timestamp", inplace=True)` on a table whose
      Timestamp is a key: an insertion sort in place that leaves the rows
      strictly ascending and a permutation of the rows it was given. */
  method SortByTimestamp(a: array<Row>)
    requires UniqueTimestamps(a[..])
    modifies a
    ensures Ascending(a[..])
    ensures multiset(a[..]) == multiset(old(a[..]))
  {
    var i := 0;
    while i < a.Length
      invariant 0 <= i <= a.Length
      invariant AscendingUpTo(a[..], i)
      invariant UniqueTimestamps(a[..])
      invariant multiset(a[..]) == multiset(old(a[..]))
    {
      SinkLast(a, i);
      i := i + 1;
    }
  }

  /** The first `n` rows are strictly ascending. */
  predicate AscendingUpTo(rows: seq<Row>, n: int)
    requires 0 <= n <= |rows|
  {
    forall p, q :: 0 <= p < q < n ==> rows[p].ts < rows[q].ts
  }

  /** One insertion step: moves `a[i]` left past every larger timestamp,
      so that the first `i + 1` rows are ascending; the rows after `i` stay
      where they are. */
  method SinkLast(a: array<Row>, i: int)
    requires 0 <= i < a.Length
    requires AscendingUpTo(a[..], i) && UniqueTimestamps(a[..])
    modifies a
    ensures AscendingUpTo(a[..], i + 1) && UniqueTimestamps(a[..])
    ensures multiset(a[..]) == multiset(old(a[..]))
    ensures a[i + 1..] == old(a[i + 1..])
  {
    var j := i;
    SinkStart(a[..], i);
    while j > 0 && a[j - 1].ts > a[j].ts
      invariant 0 <= j <= i
      invariant Sinking(a[..], i, j)
      invariant multiset(a[..]) == multiset(old(a[..]))
      invariant a[i + 1..] == old(a[i + 1..])
    {
      ghost var before := a[..];
      Swap(a, j - 1, j);
      SinkStep(before, a[..], i, j);
      j := j - 1;
    }
    SinkDone(a[..], i, j);
  }

  lemma SinkStart(s: seq<Row>, i: int)
    requires 0 <= i < |s|
    requires AscendingUpTo(s, i) && UniqueTimestamps(s)
    ensures Sinking(s, i, i)
  {
  }

  /** Once the row at `j` is above its left neighbour, the first `i + 1`
      rows are ascending. */
  lemma SinkDone(s: seq<Row>, i: int, j: int)
    requires 0 <= j <= i < |s| && Sinking(s, i, j)
    requires j == 0 || s[j - 1].ts <= s[j].ts
    ensures AscendingUpTo(s, i + 1) && UniqueTimestamps(s)
  {
  }

  /** The invariant of the insertion step: the first `i + 1` rows are
      ascending except around position `j`, which is below every later one
      of them, and the timestamps stay distinct. */
  ghost predicate Sinking(s: seq<Row>, i: int, j: int)
    requires 0 <= j <= i < |s|
  {
    && (forall p, q :: 0 <= p < q <= i && p != j && q != j ==> s[p].ts < s[q].ts)
    && (forall q :: j < q <= i ==> s[j].ts < s[q].ts)
    && (forall p, q :: 0 <= p < q < |s| ==> s[p].ts != s[q].ts)
  }

  /** Swapping `j - 1` and `j` when `j - 1` is the later timestamp moves
      the gap one place left and keeps the rows after `i`. */
  lemma SinkStep(before: seq<Row>, after: seq<Row>, i: int, j: int)
    requires 0 < j <= i < |before| && |after| == |before|
    requires Sinking(before, i, j) && before[j - 1].ts > before[j].ts
    requires after[j - 1] == before[j] && after[j] == before[j - 1]
    requires forall k :: 0 <= k < |before| && k != j - 1 && k != j ==> after[k] == before[k]
    ensures Sinking(after, i, j - 1)
    ensures after[i + 1..] == before[i + 1..]
  {
  }

  method Swap(a: array<Row>, i: int, j: int)
    requires 0 <= i < a.Length && 0 <= j < a.Length
    modifies a
    ensures a[i] == old(a[j]) && a[j] == old(a[i])
    ensures forall k :: 0 <= k < a.Length && k != i && k != j ==> a[k] == old(a[k])
    ensures multiset(a[..]) == multiset(old(a[..]))
  {
    a[i], a[j] := a[j], a[i];
  }
}
