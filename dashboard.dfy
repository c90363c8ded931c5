/** dashboard.py: loading the persisted table (the column check, the derived
    "Market Cap Excl Bitcoin" column, dropping incomplete rows, and the
    fall-back to an empty table on any error) and the date-range filter. */
module Dashboard {
  import opened Seqs
  import opened Frames
  import opened Schema
  import opened CryptoData
  import opened Metrics

  /** The columns the dashboard cannot do without, in the order it reports
      them. */
  const REQUIRED_COLUMNS: seq<string> :=
    [TIMESTAMP, BITCOIN_CAP, ETHEREUM_CAP, TOTAL_CAP, BTC_DOMINANCE, ALT_DOMINANCE]

  /** The column the dashboard derives when the table lacks it. */
  const EXCL_BITCOIN := "Market Cap Excl Bitcoin"

  /** `pd.DataFrame()`, the empty table: no value columns and no rows. */
  const EMPTY := Frame([], [])

  /** The required columns the table lacks, in the order of the required
      list (line 28). */
  function MissingColumns(f: Frame): (missing: seq<string>)
    ensures forall c :: c in missing <==> c in REQUIRED_COLUMNS && c !in Columns(f)
    ensures Subseq(missing, REQUIRED_COLUMNS)
    ensures missing == [] <==> forall c :: c in REQUIRED_COLUMNS ==> c in Columns(f)
  {
    var absent := c => c !in Columns(f);
    var missing := Filter(REQUIRED_COLUMNS, absent);
    FilterMembers(REQUIRED_COLUMNS, absent);
    assert missing != [] ==> missing[0] in missing;
    missing
  }

  /** `total - btc` under pandas' missing-value arithmetic. */
  function Difference(total: Option<real>, btc: Option<real>): (d: Option<real>)
    ensures d.Some? <==> total.Some? && btc.Some?
    ensures d.Some? ==> d.value + btc.value == total.value
  {
    if total.Some? && btc.Some? then Some(total.value - btc.value) else None
  }

  /** The column `Total Market Cap - Bitcoin Market Cap` (lines 34-36). */
  function ExclValues(f: Frame): (values: seq<Option<real>>)
    requires WellFormed(f) && TOTAL_CAP in f.valueColumns && BITCOIN_CAP in f.valueColumns
    ensures |values| == |f.rows|
    ensures forall i :: 0 <= i < |f.rows| ==>
      values[i] == Difference(f.rows[i].cells[TOTAL_CAP], f.rows[i].cells[BITCOIN_CAP])
  {
    seq(|f.rows|, i requires 0 <= i < |f.rows| =>
      assert f.rows[i] in f.rows;
      Difference(f.rows[i].cells[TOTAL_CAP], f.rows[i].cells[BITCOIN_CAP]))
  }

  /** Lines 33-36: the table with the derived column, which is computed only
      when the table does not already have it. */
  function WithExcl(f: Frame): (g: Frame)
    requires WellFormed(f) && TOTAL_CAP in f.valueColumns && BITCOIN_CAP in f.valueColumns
    ensures WellFormed(g) && EXCL_BITCOIN in g.valueColumns
    ensures EXCL_BITCOIN in f.valueColumns ==> g == f
    ensures EXCL_BITCOIN !in f.valueColumns ==> g.valueColumns == f.valueColumns + [EXCL_BITCOIN]
    ensures EXCL_BITCOIN !in f.valueColumns ==> |g.rows| == |f.rows| && forall i :: 0 <= i < |f.rows| ==>
      && g.rows[i].ts == f.rows[i].ts
      && g.rows[i].cells[EXCL_BITCOIN] == Difference(f.rows[i].cells[TOTAL_CAP], f.rows[i].cells[BITCOIN_CAP])
    ensures forall i, c :: 0 <= i < |f.rows| && c in f.rows[i].cells ==>
      c in g.rows[i].cells && g.rows[i].cells[c] == f.rows[i].cells[c]
  {
    if EXCL_BITCOIN in f.valueColumns then f
    else WithColumn(f, EXCL_BITCOIN, ExclValues(f))
  }

  /** A row without a missing cell. */
  predicate Complete(row: Row) {
    forall c :: c in row.cells ==> row.cells[c].Some?
  }

  /** `dropna()`: exactly the complete rows, in their order (line 39). */
  function DropNa(f: Frame): (g: Frame)
    ensures g.valueColumns == f.valueColumns
    ensures Subseq(g.rows, f.rows)
    ensures forall row :: row in g.rows <==> row in f.rows && Complete(row)
    ensures forall row :: multiset(g.rows)[row] == if Complete(row) then multiset(f.rows)[row] else 0
    ensures WellFormed(f) ==> WellFormed(g)
  {
    var rows := Filter(f.rows, Complete);
    FilterMembers(f.rows, Complete);
    Frame(f.valueColumns, rows)
  }

  /** `load_market_cap_data()`.  `sheet` is what `read_excel` returns, `None`
      when it raises.  Any error yields the empty table. */
  method LoadMarketCapData(sheet: Option<Frame>) returns (df: Frame)
    requires sheet.Some? ==> WellFormed(sheet.value)
    ensures sheet.None? ==> df == EMPTY
    ensures sheet.Some? && MissingColumns(sheet.value) != [] ==> df == EMPTY
    ensures sheet.Some? && MissingColumns(sheet.value) == [] ==>
      TOTAL_CAP in sheet.value.valueColumns && BITCOIN_CAP in sheet.value.valueColumns &&
      df == DropNa(WithExcl(sheet.value))
  {
    if sheet.None? {
      return EMPTY;
    }
    var marketCaps := sheet.value;
    var missing := MissingColumns(marketCaps);
    if missing != [] {
      return EMPTY;
    }
    RequiredPresent(marketCaps);
    if EXCL_BITCOIN !in marketCaps.valueColumns {
      marketCaps := WithColumn(marketCaps, EXCL_BITCOIN, ExclValues(marketCaps));
    }
    df := DropNa(marketCaps);
  }

  /** A table the column check accepts has every required value column. */
  lemma RequiredPresent(f: Frame)
    requires MissingColumns(f) == []
    ensures forall c :: c in FINAL_COLUMNS ==> c in f.valueColumns
  {
    forall c | c in FINAL_COLUMNS ensures c in f.valueColumns {
      assert c in REQUIRED_COLUMNS && c != TIMESTAMP;
    }
  }

  /** Every loaded row is complete and comes from the table with the derived
      column; when the sheet lacked that column, the row's value in it is
      its total minus its Bitcoin cap. */
  lemma LoadedRows(sheet: Frame, row: Row)
    requires WellFormed(sheet) && TOTAL_CAP in sheet.valueColumns && BITCOIN_CAP in sheet.valueColumns
    requires row in DropNa(WithExcl(sheet)).rows
    ensures Complete(row) && row in WithExcl(sheet).rows
    ensures TOTAL_CAP in row.cells && BITCOIN_CAP in row.cells && EXCL_BITCOIN in row.cells
    ensures EXCL_BITCOIN !in sheet.valueColumns ==>
      row.cells[EXCL_BITCOIN].value + row.cells[BITCOIN_CAP].value == row.cells[TOTAL_CAP].value
  {
    var g := WithExcl(sheet);
    assert row in g.rows;
    assert row.cells.Keys == ColumnSet(g.valueColumns);
    if EXCL_BITCOIN !in sheet.valueColumns {
      var i :| 0 <= i < |g.rows| && g.rows[i] == row;
      assert sheet.rows[i] in sheet.rows;
    }
  }

  /** The table the producer persists passes the column check and lacks the
      derived column, which the dashboard therefore computes. */
  lemma PersistedTableLoads(table: Frame, f: Fetched)
    requires TableSpec(table, f)
    ensures MissingColumns(table) == []
    ensures EXCL_BITCOIN !in table.valueColumns
  {
    assert forall c :: c in REQUIRED_COLUMNS ==> c in Columns(table);
  }

  // ------------------------------------------------------------- date range

  /** One day in milliseconds, the unit of the timestamps. */
  const DAY_MS: int := 86_400_000

  /** The latest timestamp, `market_cap_df["Timestamp"].max()`. */
  function MaxTimestamp(rows: seq<Row>): (m: int)
    requires rows != []
    ensures m in Timestamps(rows)
    ensures forall row :: row in rows ==> row.ts <= m
    decreases |rows|
  {
    if |rows| == 1 then rows[0].ts
    else
      var rest := MaxTimestamp(rows[1..]);
      assert forall row :: row in rows ==> row == rows[0] || row in rows[1..];
      if rows[0].ts >= rest then rows[0].ts else rest
  }

  /** The earliest timestamp, `market_cap_df["Timestamp"].min()`. */
  function MinTimestamp(rows: seq<Row>): (m: int)
    requires rows != []
    ensures m in Timestamps(rows)
    ensures forall row :: row in rows ==> m <= row.ts
    decreases |rows|
  {
    if |rows| == 1 then rows[0].ts
    else
      var rest := MinTimestamp(rows[1..]);
      assert forall row :: row in rows ==> row == rows[0] || row in rows[1..];
      if rows[0].ts <= rest then rows[0].ts else rest
  }

  /** Lines 70-77: the start of the range a choice selects; any choice other
      than the three fixed ranges means the whole table. */
  function WindowStart(choice: string, rows: seq<Row>): (start: int)
    requires rows != []
    ensures start <= MaxTimestamp(rows)
    ensures choice == "7D" ==> MaxTimestamp(rows) - start == 7 * DAY_MS
    ensures choice == "1 Month" ==> MaxTimestamp(rows) - start == 30 * DAY_MS
    ensures choice == "3 Month" ==> MaxTimestamp(rows) - start == 90 * DAY_MS
    ensures choice !in {"7D", "1 Month", "3 Month"} ==> start == MinTimestamp(rows)
  {
    var end := MaxTimestamp(rows);
    if choice == "7D" then end - 7 * DAY_MS
    else if choice == "1 Month" then end - 30 * DAY_MS
    else if choice == "3 Month" then end - 90 * DAY_MS
    else MinTimestamp(rows)
  }

  /** Lines 80-82: the rows whose timestamp lies in `[start, end]`, in
      order. */
  function InRange(rows: seq<Row>, start: int, end: int): (kept: seq<Row>)
    ensures Subseq(kept, rows)
    ensures forall row :: row in kept <==> row in rows && start <= row.ts <= end
    ensures forall row :: multiset(kept)[row] == if start <= row.ts <= end then multiset(rows)[row] else 0
  {
    var kept := Filter(rows, (row: Row) => start <= row.ts <= end);
    FilterMembers(rows, (row: Row) => start <= row.ts <= end);
    kept
  }

  /** Lines 69-82: the table shown for a date-range label; the latest row is
      always shown.  The dashboard stops before this point when the table
      has no rows (lines 52-54). */
  function SelectRange(df: Frame, choice: string): (shown: Frame)
    requires df.rows != []
    ensures shown.valueColumns == df.valueColumns
    ensures Subseq(shown.rows, df.rows)
    ensures forall row :: row in shown.rows <==>
      row in df.rows && WindowStart(choice, df.rows) <= row.ts <= MaxTimestamp(df.rows)
    ensures forall row :: (multiset(shown.rows)[row] ==
      if WindowStart(choice, df.rows) <= row.ts <= MaxTimestamp(df.rows) then multiset(df.rows)[row] else 0)
    ensures exists row :: row in shown.rows && row.ts == MaxTimestamp(df.rows)
  {
    var end := MaxTimestamp(df.rows);
    var shown := Frame(df.valueColumns, InRange(df.rows, WindowStart(choice, df.rows), end));
    var latest :| latest in df.rows && latest.ts == end;
    assert latest in shown.rows;
    shown
  }

  /** "All" shows the whole table. */
  lemma AllShowsEverything(df: Frame)
    requires df.rows != []
    ensures SelectRange(df, "All") == df
  {
    var start := MinTimestamp(df.rows);
    var end := MaxTimestamp(df.rows);
    FilterKeepsAll(df.rows, (row: Row) => start <= row.ts <= end);
  }

  /** The ranges are nested: a row shown for 7 days is shown for a month,
      and a row shown for a month is shown for three months and for "All". */
  lemma RangesNested(df: Frame, row: Row)
    requires df.rows != []
    ensures row in SelectRange(df, "7D").rows ==> row in SelectRange(df, "1 Month").rows
    ensures row in SelectRange(df, "1 Month").rows ==> row in SelectRange(df, "3 Month").rows
    ensures row in SelectRange(df, "3 Month").rows ==> row in SelectRange(df, "All").rows
  {
    assert "All" !in {"7D", "1 Month", "3 Month"};
  }
}
