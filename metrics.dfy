/** The derived columns of get_crypto_data.py: the total over the selected
    coins and the two dominance figures, with the specification of the
    persisted table that the run produces. */
module Metrics {
  import opened Frames
  import opened CryptoData
  import opened Schema

  /** Where a table keeps the five derived values: Bitcoin's and Ethereum's
      market caps, the total and the two dominance figures. */
  datatype Layout = Layout(btc: string, eth: string, total: string, btcDominance: string, altDominance: string)

  function LayoutColumns(n: Layout): seq<string> {
    [n.btc, n.eth, n.total, n.btcDominance, n.altDominance]
  }

  /** The five names are pairwise different and none is Timestamp. */
  predicate Separate(n: Layout) {
    && n.btc != n.eth && n.btc != n.total && n.btc != n.btcDominance && n.btc != n.altDominance
    && n.eth != n.total && n.eth != n.btcDominance && n.eth != n.altDominance
    && n.total != n.btcDominance && n.total != n.altDominance
    && n.btcDominance != n.altDominance
    && TIMESTAMP !in LayoutColumns(n)
  }

  /** The columns after the dominance assignments, under the series' names. */
  const SERIES_LAYOUT := Layout(BITCOIN_SERIES, ETHEREUM_SERIES, TOTAL_CAP, BTC_DOMINANCE, ALT_DOMINANCE)

  /** The persisted columns. */
  const PERSISTED_LAYOUT := Layout(BITCOIN_CAP, ETHEREUM_CAP, TOTAL_CAP, BTC_DOMINANCE, ALT_DOMINANCE)

  /** The row sums `f[market_cap_columns].sum(axis=1)` over every value column. */
  function RowTotals(f: Frame): (values: seq<Option<real>>)
    ensures |values| == |f.rows|
    ensures forall i :: 0 <= i < |f.rows| ==> values[i].Some?
    ensures forall i :: 0 <= i < |f.rows| ==> values[i] == Some(RowTotal(f.rows[i].cells, f.valueColumns))
  {
    seq(|f.rows|, i requires 0 <= i < |f.rows| => Some(RowTotal(f.rows[i].cells, f.valueColumns)))
  }

  /** `100 * btc / total`, missing when either is missing or the total is 0. */
  function BitcoinDominance(btc: Option<real>, total: Option<real>): (d: Option<real>)
    ensures d.Some? <==> btc.Some? && total.Some? && total.value != 0.0
    ensures d.Some? ==> d.value * total.value == 100.0 * btc.value
  {
    if btc.Some? && total.Some? && total.value != 0.0 then Some(btc.value / total.value * 100.0) else None
  }

  /** `100 - d`, missing when `d` is. */
  function AltcoinDominance(d: Option<real>): (a: Option<real>)
    ensures a.Some? <==> d.Some?
    ensures a.Some? ==> a.value + d.value == 100.0
  {
    match d
    case Some(x) => Some(100.0 - x)
    case None => None
  }

  /** The column `100 * f[btcCol] / f[totalCol]`. */
  function DominanceValues(f: Frame, btcCol: string, totalCol: string): (values: seq<Option<real>>)
    requires WellFormed(f) && btcCol in f.valueColumns && totalCol in f.valueColumns
    ensures |values| == |f.rows|
    ensures forall i :: 0 <= i < |f.rows| ==>
      values[i] == BitcoinDominance(f.rows[i].cells[btcCol], f.rows[i].cells[totalCol])
  {
    seq(|f.rows|, i requires 0 <= i < |f.rows| =>
      assert f.rows[i] in f.rows;
      BitcoinDominance(f.rows[i].cells[btcCol], f.rows[i].cells[totalCol]))
  }

  /** The column `100 - f[dominanceCol]`. */
  function AltcoinValues(f: Frame, dominanceCol: string): (values: seq<Option<real>>)
    requires WellFormed(f) && dominanceCol in f.valueColumns
    ensures |values| == |f.rows|
    ensures forall i :: 0 <= i < |f.rows| ==> values[i] == AltcoinDominance(f.rows[i].cells[dominanceCol])
  {
    seq(|f.rows|, i requires 0 <= i < |f.rows| =>
      assert f.rows[i] in f.rows;
      AltcoinDominance(f.rows[i].cells[dominanceCol]))
  }

  /** The total at `t`: the sum over the coins when some coin has `t`,
      missing otherwise. */
  function TotalAt(coins: seq<Frame>, t: int): Option<real> {
    if t in AllTimestamps(coins) then Some(SeriesSum(coins, t)) else None
  }

  /** What the derived columns should hold at each timestamp: Bitcoin's
      value, Ethereum's value and the total. */
  datatype Expected = Expected(btc: int -> Option<real>, eth: int -> Option<real>, total: int -> Option<real>)

  function ExpectedOf(f: Fetched): Expected {
    Expected(t => Get(f.bitcoin, t, BITCOIN_SERIES), t => Get(f.ethereum, t, ETHEREUM_SERIES), t => TotalAt(f.coins, t))
  }

  /** The three value cells of a row. */
  predicate ValuesAt(row: Row, x: Expected, n: Layout) {
    && n.btc in row.cells && n.eth in row.cells && n.total in row.cells
    && row.cells[n.btc] == x.btc(row.ts)
    && row.cells[n.eth] == x.eth(row.ts)
    && row.cells[n.total] == x.total(row.ts)
  }

  /** The Bitcoin dominance cell of a row. */
  predicate BitcoinDominanceAt(row: Row, n: Layout) {
    && n.btc in row.cells && n.total in row.cells && n.btcDominance in row.cells
    && row.cells[n.btcDominance] == BitcoinDominance(row.cells[n.btc], row.cells[n.total])
  }

  /** The altcoin dominance cell of a row. */
  predicate AltcoinDominanceAt(row: Row, n: Layout) {
    && n.btcDominance in row.cells && n.altDominance in row.cells
    && row.cells[n.altDominance] == AltcoinDominance(row.cells[n.btcDominance])
  }

  /** A fully derived row. */
  predicate RowHolds(row: Row, x: Expected, n: Layout) {
    ValuesAt(row, x, n) && BitcoinDominanceAt(row, n) && AltcoinDominanceAt(row, n)
  }

  /** The persisted table of a run that fetched `f`: the six columns in
      order, one row per timestamp any fetched series has, strictly
      ascending, each row holding Bitcoin's and Ethereum's values, the total
      over the selected coins and the two dominance figures. */
  predicate TableSpec(table: Frame, f: Fetched) {
    && WellFormed(table)
    && table.valueColumns == FINAL_COLUMNS
    && Ascending(table.rows)
    && Timestamps(table.rows) == Timestamps(f.bitcoin.rows) + Timestamps(f.ethereum.rows) + AllTimestamps(f.coins)
    && forall row :: row in table.rows ==> RowHolds(row, ExpectedOf(f), PERSISTED_LAYOUT)
  }

  /** The outer merge of the Bitcoin and Ethereum series, by its meaning. */
  ghost predicate IsPrimary(primary: Frame, btc: Frame, eth: Frame) {
    && Keyed(primary)
    && primary.valueColumns == [BITCOIN_SERIES, ETHEREUM_SERIES]
    && Timestamps(primary.rows) == Timestamps(btc.rows) + Timestamps(eth.rows)
    && (forall t :: Get(primary, t, BITCOIN_SERIES) == Get(btc, t, BITCOIN_SERIES))
    && (forall t :: Get(primary, t, ETHEREUM_SERIES) == Get(eth, t, ETHEREUM_SERIES))
  }

  /** The two dominance figures of a derived row: Bitcoin's is present
      exactly when Bitcoin's value and a non-zero total are, and then the two
      figures add up to 100. */
  lemma DominancesComplement(row: Row, n: Layout)
    requires BitcoinDominanceAt(row, n) && AltcoinDominanceAt(row, n)
    ensures row.cells[n.btcDominance].Some? <==>
      row.cells[n.btc].Some? && row.cells[n.total].Some? && row.cells[n.total].value != 0.0
    ensures row.cells[n.btcDominance].Some? ==>
      row.cells[n.btcDominance].value == row.cells[n.btc].value / row.cells[n.total].value * 100.0
    ensures row.cells[n.altDominance].Some? <==> row.cells[n.btcDominance].Some?
    ensures row.cells[n.btcDominance].Some? ==>
      row.cells[n.btcDominance].value + row.cells[n.altDominance].value == 100.0
  {
  }

  /** The persisted table has exactly one row per timestamp that any fetched
      series has. */
  lemma TableRowCount(table: Frame, f: Fetched)
    requires TableSpec(table, f)
    ensures |table.rows| == |Timestamps(f.bitcoin.rows) + Timestamps(f.ethereum.rows) + AllTimestamps(f.coins)|
  {
    AscendingIsUnique(table.rows);
    TimestampCount(table.rows);
  }

  /** Every value a series holds is non-negative. */
  ghost predicate NonNegative(ss: seq<Frame>) {
    forall k, t, c :: 0 <= k < |ss| && Get(ss[k], t, c).Some? ==> Get(ss[k], t, c).value >= 0.0
  }

  /** One of the selected coins' series is Bitcoin's series of line 63:
      it has the same value as `btc` at every timestamp. */
  ghost predicate CarriesBitcoin(coins: seq<Frame>, k: int, btc: Frame) {
    && 0 <= k < |coins|
    && coins[k].valueColumns == [BITCOIN_SERIES]
    && forall t :: Get(coins[k], t, BITCOIN_SERIES) == Get(btc, t, BITCOIN_SERIES)
  }

  /** When Bitcoin is one of the selected coins, its two fetches agree and no
      value is negative, both dominance figures of every persisted row lie
      between 0 and 100. */
  lemma DominanceBounded(table: Frame, f: Fetched, k: int)
    requires TableSpec(table, f)
    requires NonNegative(f.coins) && CarriesBitcoin(f.coins, k, f.bitcoin)
    ensures forall row :: row in table.rows ==>
      && BTC_DOMINANCE in row.cells && ALT_DOMINANCE in row.cells
      && (row.cells[BTC_DOMINANCE].Some? ==> 0.0 <= row.cells[BTC_DOMINANCE].value <= 100.0)
      && (row.cells[ALT_DOMINANCE].Some? ==> 0.0 <= row.cells[ALT_DOMINANCE].value <= 100.0)
  {
    forall row | row in table.rows
      ensures BTC_DOMINANCE in row.cells && ALT_DOMINANCE in row.cells
      ensures row.cells[BTC_DOMINANCE].Some? ==> 0.0 <= row.cells[BTC_DOMINANCE].value <= 100.0
      ensures row.cells[ALT_DOMINANCE].Some? ==> 0.0 <= row.cells[ALT_DOMINANCE].value <= 100.0
    {
      assert RowHolds(row, ExpectedOf(f), PERSISTED_LAYOUT);
      var t := row.ts;
      var btc := row.cells[BITCOIN_CAP];
      var total := row.cells[TOTAL_CAP];
      assert btc == Get(f.bitcoin, t, BITCOIN_SERIES) && total == TotalAt(f.coins, t);
      if btc.Some? && total.Some? && total.value != 0.0 {
        assert Get(f.coins[k], t, BITCOIN_SERIES) == btc;
        assert CellSum(f.coins[k], [BITCOIN_SERIES], t) == btc.value;
        SeriesSumAtLeast(f.coins, k, t);
        DominanceRange(btc.value, total.value);
      }
    }
  }

  /** `b / total * 100` lies in [0, 100] when 0 <= b <= total. */
  lemma DominanceRange(b: real, total: real)
    requires 0.0 <= b <= total && total != 0.0
    ensures 0.0 <= b / total * 100.0 <= 100.0
  {
    assert b / total * total == b;
    assert b / total <= 1.0;
  }

  /** A series' cells at `t` sum to a non-negative value. */
  lemma {:induction false} CellSumNonNegative(ss: seq<Frame>, k: int, cols: seq<string>, t: int)
    requires NonNegative(ss) && 0 <= k < |ss|
    ensures CellSum(ss[k], cols, t) >= 0.0
    decreases |cols|
  {
    if cols != [] {
      assert Get(ss[k], t, cols[0]).Some? ==> Get(ss[k], t, cols[0]).value >= 0.0;
      CellSumNonNegative(ss, k, cols[1..], t);
    }
  }

  /** With no negative value, the total at `t` is at least any one
      series' contribution. */
  lemma {:induction false} SeriesSumAtLeast(ss: seq<Frame>, k: int, t: int)
    requires NonNegative(ss) && 0 <= k < |ss|
    ensures SeriesSum(ss, t) >= CellSum(ss[k], ss[k].valueColumns, t)
    decreases |ss|
  {
    var pre := ss[..|ss| - 1];
    assert NonNegative(pre) by {
      forall j, u, c | 0 <= j < |pre| && Get(pre[j], u, c).Some? ensures Get(pre[j], u, c).value >= 0.0 {
        assert pre[j] == ss[j];
      }
    }
    if k == |ss| - 1 {
      SeriesSumNonNegative(pre, t);
    } else {
      assert pre[k] == ss[k];
      SeriesSumAtLeast(pre, k, t);
      CellSumNonNegative(ss, |ss| - 1, ss[|ss| - 1].valueColumns, t);
    }
  }

  /** With no negative value, every total is non-negative. */
  lemma {:induction false} SeriesSumNonNegative(ss: seq<Frame>, t: int)
    requires NonNegative(ss)
    ensures SeriesSum(ss, t) >= 0.0
    decreases |ss|
  {
    if ss != [] {
      var pre := ss[..|ss| - 1];
      assert NonNegative(pre) by {
        forall j, u, c | 0 <= j < |pre| && Get(pre[j], u, c).Some? ensures Get(pre[j], u, c).value >= 0.0 {
          assert pre[j] == ss[j];
        }
      }
      SeriesSumNonNegative(pre, t);
      CellSumNonNegative(ss, |ss| - 1, ss[|ss| - 1].valueColumns, t);
    }
  }

  /** A run whose Bitcoin request (line 63) reports 200 at time 0 while the
      selected Bitcoin series of the coin loop (line 75) reports 100, and
      no other coin is selected. */
  const DISAGREEING_FETCH := Fetched(
    Frame([BITCOIN_SERIES], [Row(0, map[BITCOIN_SERIES := Some(200.0)])]),
    Frame([ETHEREUM_SERIES], []),
    [Frame([BITCOIN_SERIES], [Row(0, map[BITCOIN_SERIES := Some(100.0)])])])

  /** Without the agreement `DominanceBounded` asks for, the persisted
      Bitcoin dominance can exceed 100. */
  lemma DisagreeingFetchExceeds100(table: Frame)
    requires TableSpec(table, DISAGREEING_FETCH)
    ensures exists row :: (row in table.rows && BTC_DOMINANCE in row.cells
      && row.cells[BTC_DOMINANCE] == Some(200.0))
  {
    DisagreeingValues();
    var row := RowAt(table, DISAGREEING_FETCH, 0);
    assert row.cells[BTC_DOMINANCE] == BitcoinDominance(Some(200.0), Some(100.0));
  }

  /** The persisted row at a timestamp Bitcoin's series has. */
  lemma RowAt(table: Frame, f: Fetched, t: int) returns (row: Row)
    requires TableSpec(table, f) && t in Timestamps(f.bitcoin.rows)
    ensures row in table.rows && row.ts == t
    ensures ValuesAt(row, ExpectedOf(f), PERSISTED_LAYOUT) && BitcoinDominanceAt(row, PERSISTED_LAYOUT)
  {
    assert t in Timestamps(table.rows);
    row :| row in table.rows && row.ts == t;
  }

  lemma DisagreeingValues()
    ensures 0 in Timestamps(DISAGREEING_FETCH.bitcoin.rows)
    ensures Get(DISAGREEING_FETCH.bitcoin, 0, BITCOIN_SERIES) == Some(200.0)
    ensures TotalAt(DISAGREEING_FETCH.coins, 0) == Some(100.0)
  {
    var f := DISAGREEING_FETCH;
    assert f.bitcoin.rows[0] in f.bitcoin.rows;
    var c := f.coins[0];
    assert f.coins[..0] == [];
    assert Get(c, 0, BITCOIN_SERIES) == Some(100.0);
    assert [BITCOIN_SERIES][1..] == [];
    assert CellSum(c, [BITCOIN_SERIES], 0) == 100.0;
    assert f.coins[|f.coins| - 1] == c && c.valueColumns == [BITCOIN_SERIES];
    assert SeriesSum(f.coins, 0) == SeriesSum([], 0) + CellSum(c, [BITCOIN_SERIES], 0);
    assert c.rows[0] in c.rows;
    assert AllTimestamps(f.coins) == AllTimestamps([]) + Timestamps(c.rows);
  }
}
