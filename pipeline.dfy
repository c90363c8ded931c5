/** The run of get_crypto_data.py from the fetched series to the persisted
    table (lines 84-111), statement by statement. */
module Pipeline {
  import opened Frames
  import opened Schema
  import opened CryptoData
  import opened Metrics

  lemma SeriesNames()
    ensures SeriesColumn("bitcoin") == BITCOIN_SERIES && SeriesColumn("ethereum") == ETHEREUM_SERIES
  {
  }

  /** The row sums of the zero-filled aggregate are the sums over every
      selected coin. */
  lemma FilledTotals(coins: seq<Frame>, acc: Frame)
    requires Family(coins) && Aggregate(coins) == Some(acc)
    ensures forall i :: 0 <= i < |acc.rows| ==> RowTotals(FillZero(acc))[i] == Some(SeriesSum(coins, acc.rows[i].ts))
  {
    forall i | 0 <= i < |acc.rows| ensures RowTotals(FillZero(acc))[i] == Some(SeriesSum(coins, acc.rows[i].ts)) {
      RowTotalFilled(acc, i, acc.valueColumns);
      AggregateSum(coins, acc.rows[i].ts);
    }
  }

  /** A keyed table looked up at a timestamp it has gives that row's cell,
      and at any other timestamp gives a missing value. */
  lemma KeyedLookup(f: Frame, c: string, t: int)
    requires Keyed(f) && c in f.valueColumns
    ensures t !in Timestamps(f.rows) ==> Get(f, t, c) == None
    ensures t in Timestamps(f.rows) ==> exists i :: 0 <= i < |f.rows| && f.rows[i].ts == t && Get(f, t, c) == f.rows[i].cells[c]
  {
    if t in Timestamps(f.rows) {
      var x :| x in f.rows && x.ts == t;
      var i :| 0 <= i < |f.rows| && f.rows[i] == x;
      FindUnique(f.rows, i);
    }
  }

  /** A one-column table whose row i carries the timestamp of the
      aggregate's row i and the sum over every coin there is the total
      table. */
  lemma TotalsMeet(coins: seq<Frame>, acc: Frame, totals: Frame)
    requires Family(coins) && Aggregate(coins) == Some(acc)
    requires WellFormed(totals) && totals.valueColumns == [TOTAL_CAP] && |totals.rows| == |acc.rows|
    requires forall i :: 0 <= i < |acc.rows| ==>
      && totals.rows[i].ts == acc.rows[i].ts
      && TOTAL_CAP in totals.rows[i].cells
      && totals.rows[i].cells[TOTAL_CAP] == Some(SeriesSum(coins, acc.rows[i].ts))
    ensures Keyed(totals)
    ensures Timestamps(totals.rows) == AllTimestamps(coins)
    ensures forall t :: Get(totals, t, TOTAL_CAP) == TotalAt(coins, t)
  {
    SameTimestamps(acc.rows, totals.rows);
    forall t ensures Get(totals, t, TOTAL_CAP) == TotalAt(coins, t) {
      KeyedLookup(totals, TOTAL_CAP, t);
    }
  }

  /** Lines 84-88 and the projection of line 91: the zero-filled aggregate
      with its row sums, reduced to the total, holds at each timestamp the
      sum over every selected coin. */
  method TotalColumn(acc: Frame, ghost coins: seq<Frame>) returns (totals: Frame)
    requires Family(coins) && Aggregate(coins) == Some(acc)
    ensures Keyed(totals) && totals.valueColumns == [TOTAL_CAP]
    ensures Timestamps(totals.rows) == AllTimestamps(coins)
    ensures forall t :: Get(totals, t, TOTAL_CAP) == TotalAt(coins, t)
  {
    var filled := FillZero(acc);
    var sums := RowTotals(filled);
    var withTotal := WithColumn(filled, TOTAL_CAP, sums);
    totals := Select(withTotal, [TOTAL_CAP]);
    FilledTotals(coins, acc);
    forall i | 0 <= i < |acc.rows|
      ensures totals.rows[i].ts == acc.rows[i].ts && TOTAL_CAP in totals.rows[i].cells
      ensures totals.rows[i].cells[TOTAL_CAP] == Some(SeriesSum(coins, acc.rows[i].ts))
    {
      assert totals.rows[i] in totals.rows;
      assert totals.rows[i].cells[TOTAL_CAP] == withTotal.rows[i].cells[TOTAL_CAP] == sums[i];
    }
    TotalsMeet(coins, acc, totals);
  }

  /** Every row of the merge of the primary table with the totals holds the
      three expected values. */
  lemma MergedValues(primary: Frame, totals: Frame, merged: Frame, x: Expected, n: Layout)
    requires Separate(n)
    requires Keyed(primary) && primary.valueColumns == [n.btc, n.eth]
    requires forall t :: Get(primary, t, n.btc) == x.btc(t)
    requires forall t :: Get(primary, t, n.eth) == x.eth(t)
    requires Keyed(totals) && totals.valueColumns == [n.total]
    requires forall t :: Get(totals, t, n.total) == x.total(t)
    requires merged == Merge(primary, totals)
    ensures Keyed(merged) && merged.valueColumns == [n.btc, n.eth, n.total]
    ensures forall row :: row in merged.rows ==> ValuesAt(row, x, n)
  {
    assert Keyed(merged) && merged.valueColumns == [n.btc, n.eth, n.total];
    forall row | row in merged.rows ensures ValuesAt(row, x, n) {
      MergedRow(primary, totals, merged, x, n, row);
    }
  }

  lemma MergedRow(primary: Frame, totals: Frame, merged: Frame, x: Expected, n: Layout, row: Row)
    requires Separate(n)
    requires Keyed(primary) && primary.valueColumns == [n.btc, n.eth]
    requires forall t :: Get(primary, t, n.btc) == x.btc(t)
    requires forall t :: Get(primary, t, n.eth) == x.eth(t)
    requires Keyed(totals) && totals.valueColumns == [n.total]
    requires forall t :: Get(totals, t, n.total) == x.total(t)
    requires merged == Merge(primary, totals)
    requires row in merged.rows
    ensures ValuesAt(row, x, n)
  {
    assert n.btc in primary.valueColumns && n.eth in primary.valueColumns;
    assert n.total in totals.valueColumns;
    assert row.cells.Keys == ColumnSet(merged.valueColumns);
  }

  /** Lines 94-95: the two dominance columns, assigned after the value
      columns. */
  method AddDominance(merged: Frame, ghost x: Expected) returns (withAlt: Frame)
    requires Keyed(merged) && merged.valueColumns == [BITCOIN_SERIES, ETHEREUM_SERIES, TOTAL_CAP]
    requires forall row :: row in merged.rows ==> ValuesAt(row, x, SERIES_LAYOUT)
    ensures Keyed(withAlt) && withAlt.valueColumns == LayoutColumns(SERIES_LAYOUT)
    ensures Timestamps(withAlt.rows) == Timestamps(merged.rows)
    ensures forall row :: row in withAlt.rows ==> RowHolds(row, x, SERIES_LAYOUT)
  {
    SeparateLayouts();
    var withBtc := WithColumn(merged, BTC_DOMINANCE, DominanceValues(merged, BITCOIN_SERIES, TOTAL_CAP));
    BitcoinDominanceRows(merged, withBtc, x, SERIES_LAYOUT);
    withAlt := WithColumn(withBtc, ALT_DOMINANCE, AltcoinValues(withBtc, BTC_DOMINANCE));
    AltcoinDominanceRows(withBtc, withAlt, x, SERIES_LAYOUT);
  }

  lemma BitcoinDominanceRows(merged: Frame, withBtc: Frame, x: Expected, n: Layout)
    requires Separate(n)
    requires Keyed(merged) && merged.valueColumns == [n.btc, n.eth, n.total]
    requires forall row :: row in merged.rows ==> ValuesAt(row, x, n)
    requires withBtc == WithColumn(merged, n.btcDominance, DominanceValues(merged, n.btc, n.total))
    ensures Keyed(withBtc) && withBtc.valueColumns == [n.btc, n.eth, n.total, n.btcDominance]
    ensures Timestamps(withBtc.rows) == Timestamps(merged.rows)
    ensures forall row :: row in withBtc.rows ==> ValuesAt(row, x, n) && BitcoinDominanceAt(row, n)
  {
    assert Keyed(withBtc) && withBtc.valueColumns == [n.btc, n.eth, n.total, n.btcDominance];
    SameTimestamps(merged.rows, withBtc.rows);
    forall row | row in withBtc.rows ensures ValuesAt(row, x, n) && BitcoinDominanceAt(row, n) {
      var i :| 0 <= i < |withBtc.rows| && withBtc.rows[i] == row;
      BitcoinDominanceRow(merged, withBtc, x, n, i);
    }
  }

  lemma BitcoinDominanceRow(merged: Frame, withBtc: Frame, x: Expected, n: Layout, i: int)
    requires Separate(n)
    requires Keyed(merged) && merged.valueColumns == [n.btc, n.eth, n.total]
    requires forall row :: row in merged.rows ==> ValuesAt(row, x, n)
    requires withBtc == WithColumn(merged, n.btcDominance, DominanceValues(merged, n.btc, n.total))
    requires 0 <= i < |withBtc.rows|
    ensures ValuesAt(withBtc.rows[i], x, n) && BitcoinDominanceAt(withBtc.rows[i], n)
  {
    assert merged.rows[i] in merged.rows;
  }

  lemma AltcoinDominanceRows(withBtc: Frame, withAlt: Frame, x: Expected, n: Layout)
    requires Separate(n)
    requires Keyed(withBtc) && withBtc.valueColumns == [n.btc, n.eth, n.total, n.btcDominance]
    requires forall row :: row in withBtc.rows ==> ValuesAt(row, x, n) && BitcoinDominanceAt(row, n)
    requires withAlt == WithColumn(withBtc, n.altDominance, AltcoinValues(withBtc, n.btcDominance))
    ensures Keyed(withAlt) && withAlt.valueColumns == LayoutColumns(n)
    ensures Timestamps(withAlt.rows) == Timestamps(withBtc.rows)
    ensures forall row :: row in withAlt.rows ==> RowHolds(row, x, n)
  {
    assert Keyed(withAlt) && withAlt.valueColumns == LayoutColumns(n);
    SameTimestamps(withBtc.rows, withAlt.rows);
    forall row | row in withAlt.rows ensures RowHolds(row, x, n) {
      var i :| 0 <= i < |withAlt.rows| && withAlt.rows[i] == row;
      AltcoinDominanceRow(withBtc, withAlt, x, n, i);
    }
  }

  lemma AltcoinDominanceRow(withBtc: Frame, withAlt: Frame, x: Expected, n: Layout, i: int)
    requires Separate(n)
    requires Keyed(withBtc) && withBtc.valueColumns == [n.btc, n.eth, n.total, n.btcDominance]
    requires forall row :: row in withBtc.rows ==> ValuesAt(row, x, n) && BitcoinDominanceAt(row, n)
    requires withAlt == WithColumn(withBtc, n.altDominance, AltcoinValues(withBtc, n.btcDominance))
    requires 0 <= i < |withAlt.rows|
    ensures RowHolds(withAlt.rows[i], x, n)
  {
    assert withBtc.rows[i] in withBtc.rows;
  }

  /** Lines 98-101: the rows sorted in place by Timestamp; the fresh
      positional index of `reset_index` is the position in the sequence. */
  method SortRows(f: Frame) returns (sorted: Frame)
    requires Keyed(f)
    ensures WellFormed(sorted) && sorted.valueColumns == f.valueColumns
    ensures Ascending(sorted.rows)
    ensures multiset(sorted.rows) == multiset(f.rows)
    ensures forall row :: row in sorted.rows <==> row in f.rows
    ensures Timestamps(sorted.rows) == Timestamps(f.rows)
  {
    var a := new Row[|f.rows|](i requires 0 <= i < |f.rows| => f.rows[i]);
    assert a[..] == f.rows;
    SortByTimestamp(a);
    sorted := Frame(f.valueColumns, a[..]);
    PermutedRows(f.rows, sorted.rows);
  }

  /** Lines 104-111: the two series columns renamed, then the persisted
      columns selected in order; values and row order are kept. */
  method FinalColumns(sorted: Frame, ghost x: Expected) returns (table: Frame)
    requires WellFormed(sorted) && Ascending(sorted.rows) && sorted.valueColumns == LayoutColumns(SERIES_LAYOUT)
    requires forall row :: row in sorted.rows ==> RowHolds(row, x, SERIES_LAYOUT)
    ensures WellFormed(table) && table.valueColumns == FINAL_COLUMNS && Ascending(table.rows)
    ensures Timestamps(table.rows) == Timestamps(sorted.rows)
    ensures forall row :: row in table.rows ==> RowHolds(row, x, PERSISTED_LAYOUT)
  {
    SeriesRenamed(sorted, x);
    var renamed := Rename(sorted, BITCOIN_SERIES, BITCOIN_CAP);
    renamed := Rename(renamed, ETHEREUM_SERIES, ETHEREUM_CAP);
    SeparateLayouts();
    table := Select(renamed, FINAL_COLUMNS);
    FinalSelected(sorted, renamed, table, x, PERSISTED_LAYOUT);
  }

  /** Lines 104-105: after both renames the table is laid out as persisted,
      row by row, with the sorted table's timestamps. */
  lemma SeriesRenamed(sorted: Frame, x: Expected)
    requires WellFormed(sorted) && sorted.valueColumns == LayoutColumns(SERIES_LAYOUT)
    requires forall row :: row in sorted.rows ==> RowHolds(row, x, SERIES_LAYOUT)
    ensures var b := Rename(sorted, BITCOIN_SERIES, BITCOIN_CAP);
      && WellFormed(b) && ETHEREUM_CAP !in b.valueColumns
      && var e := Rename(b, ETHEREUM_SERIES, ETHEREUM_CAP);
      && WellFormed(e) && |e.rows| == |sorted.rows| && e.valueColumns == LayoutColumns(PERSISTED_LAYOUT)
      && forall i :: 0 <= i < |sorted.rows| ==>
        e.rows[i].ts == sorted.rows[i].ts && RowHolds(e.rows[i], x, PERSISTED_LAYOUT)
  {
    SeparateLayouts();
    var halfway := SERIES_LAYOUT.(btc := BITCOIN_CAP);
    RowsByIndex(sorted, x, SERIES_LAYOUT);
    var b := Rename(sorted, BITCOIN_SERIES, BITCOIN_CAP);
    Renamed(sorted, sorted, b, x, SERIES_LAYOUT, halfway, BITCOIN_SERIES, BITCOIN_CAP);
    var e := Rename(b, ETHEREUM_SERIES, ETHEREUM_CAP);
    Renamed(sorted, b, e, x, halfway, PERSISTED_LAYOUT, ETHEREUM_SERIES, ETHEREUM_CAP);
  }

  lemma RowsByIndex(f: Frame, x: Expected, n: Layout)
    requires forall row :: row in f.rows ==> RowHolds(row, x, n)
    ensures forall i :: 0 <= i < |f.rows| ==> RowHolds(f.rows[i], x, n)
  {
    assert forall i :: 0 <= i < |f.rows| ==> f.rows[i] in f.rows;
  }

  /** `m` is layout `n` with the name `from` replaced by `to`. */
  predicate RenamedLayout(n: Layout, from: string, to: string, m: Layout) {
    && m.btc == (if n.btc == from then to else n.btc)
    && m.eth == (if n.eth == from then to else n.eth)
    && m.total == (if n.total == from then to else n.total)
    && m.btcDominance == (if n.btcDominance == from then to else n.btcDominance)
    && m.altDominance == (if n.altDominance == from then to else n.altDominance)
  }

  /** Renaming one column of a table laid out as `n` gives a table laid out
      as `m`, row by row, with the same timestamps. */
  lemma Renamed(sorted: Frame, before: Frame, renamed: Frame, x: Expected, n: Layout, m: Layout, from: string, to: string)
    requires Separate(n) && Separate(m) && RenamedLayout(n, from, to, m) && to !in LayoutColumns(n)
    requires WellFormed(before) && |before.rows| == |sorted.rows| && before.valueColumns == LayoutColumns(n)
    requires forall i :: 0 <= i < |sorted.rows| ==>
      before.rows[i].ts == sorted.rows[i].ts && RowHolds(before.rows[i], x, n)
    requires IsRenaming(before, from, to, renamed)
    ensures WellFormed(renamed) && |renamed.rows| == |sorted.rows|
    ensures renamed.valueColumns == LayoutColumns(m)
    ensures forall i :: 0 <= i < |sorted.rows| ==>
      renamed.rows[i].ts == sorted.rows[i].ts && RowHolds(renamed.rows[i], x, m)
  {
    LayoutRenamed(before.valueColumns, renamed.valueColumns, n, m, from, to);
    RenamedRows(sorted, before, renamed, x, n, m, from, to);
  }

  lemma RenamedRows(sorted: Frame, before: Frame, renamed: Frame, x: Expected, n: Layout, m: Layout, from: string, to: string)
    requires Separate(n) && Separate(m) && RenamedLayout(n, from, to, m) && to !in LayoutColumns(n)
    requires WellFormed(before) && |before.rows| == |sorted.rows| && before.valueColumns == LayoutColumns(n)
    requires forall i :: 0 <= i < |sorted.rows| ==>
      before.rows[i].ts == sorted.rows[i].ts && RowHolds(before.rows[i], x, n)
    requires IsRenaming(before, from, to, renamed)
    ensures forall i :: 0 <= i < |sorted.rows| ==>
      renamed.rows[i].ts == sorted.rows[i].ts && RowHolds(renamed.rows[i], x, m)
  {
    forall i | 0 <= i < |sorted.rows|
      ensures renamed.rows[i].ts == sorted.rows[i].ts && RowHolds(renamed.rows[i], x, m)
    {
      RenamedRow(sorted, before, renamed, x, n, m, from, to, i);
    }
  }

  lemma RenamedRow(sorted: Frame, before: Frame, renamed: Frame, x: Expected, n: Layout, m: Layout, from: string, to: string, i: int)
    requires Separate(n) && Separate(m) && RenamedLayout(n, from, to, m) && to !in LayoutColumns(n)
    requires WellFormed(before) && |before.rows| == |sorted.rows| && before.valueColumns == LayoutColumns(n)
    requires forall j :: 0 <= j < |sorted.rows| ==>
      before.rows[j].ts == sorted.rows[j].ts && RowHolds(before.rows[j], x, n)
    requires IsRenaming(before, from, to, renamed)
    requires 0 <= i < |sorted.rows|
    ensures renamed.rows[i].ts == sorted.rows[i].ts && RowHolds(renamed.rows[i], x, m)
  {
    assert before.rows[i] in before.rows;
    assert renamed.rows[i] in renamed.rows;
  }

  /** Renaming `from` in a layout's columns gives the renamed layout's
      columns. */
  lemma LayoutRenamed(cols: seq<string>, renamed: seq<string>, n: Layout, m: Layout, from: string, to: string)
    requires cols == LayoutColumns(n) && RenamedLayout(n, from, to, m)
    requires |renamed| == |cols|
    requires forall k :: 0 <= k < |cols| ==> renamed[k] == if cols[k] == from then to else cols[k]
    ensures renamed == LayoutColumns(m)
  {
  }

  lemma FinalSelected(sorted: Frame, renamed: Frame, table: Frame, x: Expected, n: Layout)
    requires Separate(n) && Ascending(sorted.rows)
    requires WellFormed(renamed) && |renamed.rows| == |sorted.rows| && renamed.valueColumns == LayoutColumns(n)
    requires forall i :: 0 <= i < |sorted.rows| ==>
      renamed.rows[i].ts == sorted.rows[i].ts && RowHolds(renamed.rows[i], x, n)
    requires table == Select(renamed, LayoutColumns(n))
    ensures WellFormed(table) && table.valueColumns == LayoutColumns(n) && Ascending(table.rows)
    ensures Timestamps(table.rows) == Timestamps(sorted.rows)
    ensures forall row :: row in table.rows ==> RowHolds(row, x, n)
  {
    assert forall i :: 0 <= i < |table.rows| ==> table.rows[i].ts == sorted.rows[i].ts;
    SameTimestamps(sorted.rows, table.rows);
    forall row | row in table.rows ensures RowHolds(row, x, n) {
      var i :| 0 <= i < |table.rows| && table.rows[i] == row;
      assert renamed.rows[i] in renamed.rows;
    }
  }

  /** The names of both layouts are pairwise different. */
  lemma SeparateLayouts()
    ensures Separate(SERIES_LAYOUT) && Separate(PERSISTED_LAYOUT)
    ensures Separate(SERIES_LAYOUT.(btc := BITCOIN_CAP))
    ensures SERIES_LAYOUT.(btc := BITCOIN_CAP).(eth := ETHEREUM_CAP) == PERSISTED_LAYOUT
    ensures RenamedLayout(SERIES_LAYOUT, BITCOIN_SERIES, BITCOIN_CAP, SERIES_LAYOUT.(btc := BITCOIN_CAP))
    ensures RenamedLayout(SERIES_LAYOUT.(btc := BITCOIN_CAP), ETHEREUM_SERIES, ETHEREUM_CAP, PERSISTED_LAYOUT)
    ensures LayoutColumns(PERSISTED_LAYOUT) == FINAL_COLUMNS
  {
  }

  /** Lines 84-111 once every series is fetched. */
  method DeriveFinalTable(primary: Frame, acc: Frame, ghost f: Fetched) returns (table: Frame)
    requires IsPrimary(primary, f.bitcoin, f.ethereum)
    requires Family(f.coins) && Aggregate(f.coins) == Some(acc)
    ensures TableSpec(table, f)
  {
    SeparateLayouts();
    ghost var x := ExpectedOf(f);
    var totals := TotalColumn(acc, f.coins);
    var merged := Merge(primary, totals);
    MergedValues(primary, totals, merged, x, SERIES_LAYOUT);
    var withAlt := AddDominance(merged, x);
    var sorted := SortRows(withAlt);
    table := FinalColumns(sorted, x);
  }
}
