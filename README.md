# Crypto market-cap history and dominance dashboard, modelled in Dafny

The system has two parts.

`get_crypto_data.py` is a one-shot producer. It asks the CoinGecko ranking
endpoint for the top coins, drops the stablecoins and keeps the first ten. It
then fetches the daily market-cap history of Bitcoin, Ethereum and every
selected coin, retrying once after a rate-limit reply (HTTP 429). It merges
the series on their timestamps and computes a total market cap over the
selected coins, and from it the Bitcoin and altcoin dominance percentages.
Finally it sorts the table by time and writes six columns to a spreadsheet.

`dashboard.py` reads that spreadsheet back. It checks that the six columns
are present, derives "Market Cap Excl Bitcoin" when the sheet lacks it,
drops incomplete rows and falls back to an empty table on any error. It then
shows the rows inside a chosen date range.

The model represents a DataFrame as a `Frame`:

- its value columns, in order, with an implicit `Timestamp` column;
- a sequence of `Row`s, each with an integer timestamp in milliseconds and a
  map from column to `Option<real>`, where `None` is pandas' missing value.

The HTTP endpoints become an oracle. The model takes one ranking reply, or
none when the ranking request fails to connect. It then takes the
market-chart replies in the order the script issues its requests. Running
out of replies stands for a failed connection. The spreadsheet becomes the
`Frame` the producer persists and the dashboard is handed.

Modules:

- `Seqs`: distinctness, the subsequence relation and an order-preserving
  filter.
- `Frames`: frames, keyed lookup, the outer merge, `fillna(0)`, column
  assignment, renaming, column selection and an in-place sort of an array of
  rows.
- `Schema`: the persisted column names.
- `CryptoData`: coin selection, the fetch with its single retry, parsing a
  reply, the fetch order of a run and the accumulating fold over the
  selected coins.
- `Metrics`: row totals, the dominance figures and `TableSpec`, the
  specification of the persisted table.
- `Pipeline`: the imperative derivation of the persisted table, lines 84-111.
- `Run`: the whole script. Its loop over the coins is proved against
  `Aggregate`, and the run as a whole against `TableSpec`.
- `Dashboard`: `load_market_cap_data` and the date-range filter.

## Model

| member | source | states |
|---|---|---|
| CryptoData.NonExcluded | get_crypto_data.py:13-29 | the kept ids are a subsequence of the ranking, none is a stablecoin, and every non-stablecoin occurs as often as in the ranking (repeats included) |
| CryptoData.SelectCoins | get_crypto_data.py:29-30 | at most n ids; they are a prefix of the non-excluded ids in ranking order; exactly n when enough exist, otherwise all of them; none is a stablecoin |
| CryptoData.SelectedDistinct | get_crypto_data.py:29-30 | a ranking without repeated ids gives distinct selected coins |
| CryptoData.FetchTopCoins | get_crypto_data.py:25-30 | fails exactly when the request got no reply (a connection error) or a 4xx/5xx status (with that status), and is never retried; otherwise it returns the selection |
| CryptoData.SeriesColumn | get_crypto_data.py:50 | a coin's column name is never `Timestamp` |
| CryptoData.SeriesColumnInjective | get_crypto_data.py:50 | different coins get different column names |
| CryptoData.ParseMarketCaps | get_crypto_data.py:48-51 | one row per entry; row i has the timestamp and value of entry i under the column `"{id} Market Cap"`; the result is keyed when the epochs are distinct |
| CryptoData.ParseLookup | get_crypto_data.py:48-51 | the series covers exactly the reply's epochs; the lookup at an epoch gives its value, and at any other timestamp gives a missing value |
| CryptoData.Respond | get_crypto_data.py:46-51 | `raise_for_status` on the final reply: an error exactly for a 4xx/5xx status, carrying that status, and otherwise the parse of the reply's body |
| CryptoData.FetchHistory | get_crypto_data.py:40-47 | one or two requests; two exactly when the first reply is 429; success exactly when the final reply is not 4xx/5xx, and then the parse of that reply; otherwise the final status is the error, or a connection error when no reply is left |
| CryptoData.RetryIsTransparent | get_crypto_data.py:41-45 | a 429 followed by a good reply yields the same series as the good reply alone |
| CryptoData.RateLimitedTwiceFails | get_crypto_data.py:41-46 | two 429s in a row make two requests and end in an HTTP 429 error |
| CryptoData.FetchSeries | get_crypto_data.py:73-75 | one series per coin, with the coin's column, each keyed when the replies are well formed |
| CryptoData.FetchSeriesSucceeds | get_crypto_data.py:73-75 | when every coin's reply is accepted, the fetches succeed with one request per coin, and series k is the parse of reply k |
| CryptoData.FetchSeriesFails | get_crypto_data.py:73-75 | when coin k's fetch fails after k accepted fetches, the sequence of fetches aborts with coin k's error |
| CryptoData.FetchPhase | get_crypto_data.py:57-75 | a ranking request without a reply aborts the run with a connection error, and a 4xx/5xx ranking reply with its status; a successful run has Bitcoin's and Ethereum's series and one series per selected coin, each under its own column |
| CryptoData.FetchPhaseAborts | get_crypto_data.py:63-75 | with an accepted ranking, a failed Bitcoin fetch, a failed Ethereum fetch after Bitcoin's succeeded, or a failed selected-coin fetch after both aborts the run with that fetch's error |
| CryptoData.FetchPhaseSucceeds | get_crypto_data.py:57-75 | with accepted replies, the requests go in order: Bitcoin, Ethereum, then the selected coins in rank order, each series parsed from its own reply |
| CryptoData.BitcoinRateLimitedTwiceAborts | get_crypto_data.py:63 | a Bitcoin request rate-limited twice aborts the run with HTTP 429 |
| CryptoData.CoinRateLimitedTwiceAborts | get_crypto_data.py:73-75 | a selected coin's request rate-limited twice, after accepted earlier requests, aborts the run with HTTP 429 |
| CryptoData.AggregateStep | get_crypto_data.py:76-79 | an accumulator that is `empty` (none yet, or no rows) is replaced by the coin's series; otherwise the series is outer-merged in, after the accumulator's columns, keeping both sides' values; either way, the timestamps are the union |
| CryptoData.Aggregate | get_crypto_data.py:73-79 | the fold is absent exactly when there is no coin; otherwise it is keyed, covers exactly the union of the coins' timestamps, and has only coin columns |
| CryptoData.AggregateSeed | get_crypto_data.py:76-77 | the first coin's series becomes the accumulator as it is |
| CryptoData.AggregateColumns | get_crypto_data.py:73-79 | when the first series has rows, the accumulator has every coin's column, in coin order |
| CryptoData.AggregateSum | get_crypto_data.py:73-88 | at every timestamp, the accumulator's cells sum to the sum over all coins, counting missing cells as 0, even when the `empty` test replaced row-less frames |
| Frames.Merge | get_crypto_data.py:67 | the outer merge is keyed, has left then right columns, covers the union of timestamps, and holds each side's value or a missing value |
| Frames.MergeGet | get_crypto_data.py:67 | a lookup in the merge equals the lookup in the side that owns the column |
| Frames.MergeSize | get_crypto_data.py:67 | the merge has one row per timestamp of the union; a+b rows when the timestamp sets are disjoint |
| Frames.TimestampCount | get_crypto_data.py:67 | rows with unique timestamps number as many as their timestamps |
| Frames.FillZero | get_crypto_data.py:84 | the same rows and cells; no cell is missing; present values are kept; missing ones become 0 |
| Frames.RowTotal | get_crypto_data.py:88 | a row sum whose cells are all missing is 0, and one over non-negative values is non-negative |
| Frames.RowTotalFilled | get_crypto_data.py:84-88 | the row sum after zero-filling is the sum of the row's values with missing cells counting 0 |
| Frames.WithColumn | get_crypto_data.py:88 | column assignment: appends the column when it is new, sets each row's value, and leaves every other cell unchanged |
| Frames.Rename | get_crypto_data.py:104-107 | the renamed table has the same rows and timestamps; the renamed column holds the old column's values; every other column is unchanged |
| Frames.Select | get_crypto_data.py:108-111 | exactly the chosen columns, in the chosen order, with the same rows and values |
| Frames.SortByTimestamp | get_crypto_data.py:98 | the array is sorted strictly by timestamp and is a permutation of its old contents |
| Frames.SinkLast | get_crypto_data.py:98 | one insertion step: the first i + 1 rows become ascending, the rows are permuted, and the rows after i are unchanged |
| Metrics.RowTotals | get_crypto_data.py:87-88 | every row gets a present total: the sum over all the table's value columns |
| Metrics.BitcoinDominance | get_crypto_data.py:94 | present exactly when Bitcoin's value and a non-zero total are, and then dominance × total = 100 × Bitcoin's value |
| Metrics.AltcoinDominance | get_crypto_data.py:95 | present exactly when Bitcoin dominance is, and then the two add up to 100 |
| Metrics.DominanceBounded | get_crypto_data.py:63-95 | when no coin value is negative and one selected coin's series agrees with the Bitcoin series of line 63, every present Bitcoin and altcoin dominance of the persisted table lies in [0, 100] |
| Metrics.DisagreeingFetchExceeds100 | get_crypto_data.py:63-95 | a run whose line-63 Bitcoin reply says 200 while the coin loop's Bitcoin series says 100 persists a Bitcoin dominance of 200 |
| Metrics.DominancesComplement | get_crypto_data.py:94-95 | Bitcoin dominance is present exactly when Bitcoin's value and a non-zero total are, and equals 100*btc/total; altcoin dominance is present exactly then, and the two add up to 100 |
| Metrics.TableRowCount | get_crypto_data.py:67-101 | the persisted table has exactly one row per timestamp that any fetched series has |
| Pipeline.FilledTotals | get_crypto_data.py:84-88 | each row sum of the zero-filled accumulator is the sum over every selected coin at that timestamp |
| Pipeline.TotalColumn | get_crypto_data.py:84-91 | a keyed one-column total table covering the union of the coins' timestamps, whose value at t is the sum over the coins |
| Pipeline.MergedValues | get_crypto_data.py:91 | every row of the merge with the totals holds Bitcoin's, Ethereum's and the total value at its timestamp |
| Pipeline.AddDominance | get_crypto_data.py:94-95 | two dominance columns are appended, with the same rows; every row holds its dominance figures as functions of its own cells |
| Pipeline.SortRows | get_crypto_data.py:98-101 | the same rows and columns, strictly ascending by timestamp; the row position is the new index |
| Pipeline.SeriesRenamed | get_crypto_data.py:104-107 | after both renames the table has the persisted layout, row by row, with the sorted table's timestamps and every value under its new name |
| Pipeline.Renamed | get_crypto_data.py:104-107 | renaming one column of a table laid out as one layout gives the table laid out as the layout with that name replaced, row by row |
| Pipeline.FinalColumns | get_crypto_data.py:104-111 | the six persisted columns in order, rows still ascending, every value carried over under its new name |
| Pipeline.DeriveFinalTable | get_crypto_data.py:84-111 | the derived table meets `TableSpec` |
| Run.PrimaryOf | get_crypto_data.py:63-67 | the Bitcoin/Ethereum merge is keyed, covers the union of both series, and holds each coin's value |
| Run.AccumulateCoins | get_crypto_data.py:73-81 | the loop returns the first fetch error, or exactly the fold `Aggregate` of the fetched series |
| Run.RunPipeline | get_crypto_data.py:57-111 | a failed request aborts with its error; with no selected coin the run fails at line 91; otherwise the persisted table meets `TableSpec` for the fetched series |
| Dashboard.MissingColumns | dashboard.py:20-28 | exactly the required columns the table lacks, in the order of the required list; empty exactly when all are present |
| Dashboard.Difference | dashboard.py:34-36 | present exactly when both operands are, and then adding Bitcoin's cap back gives the total |
| Dashboard.WithExcl | dashboard.py:32-36 | an existing "Market Cap Excl Bitcoin" column is kept untouched; otherwise the column is appended holding total minus Bitcoin per row, and no other cell changes |
| Dashboard.DropNa | dashboard.py:39 | keeps exactly the rows with no missing cell, each as often as it occurs, in their order, with the same columns |
| Dashboard.LoadMarketCapData | dashboard.py:14-45 | an unreadable sheet or a missing required column yields the empty table; otherwise the result is the complete rows of the table with the derived column |
| Dashboard.LoadedRows | dashboard.py:33-39 | every loaded row is complete, and where the column was derived, Excl + Bitcoin = Total |
| Dashboard.PersistedTableLoads | dashboard.py:20-33 | the producer's table passes the column check and lacks the derived column |
| Dashboard.MaxTimestamp | dashboard.py:69 | the latest timestamp: one of the table's, and no row is later |
| Dashboard.MinTimestamp | dashboard.py:77 | the earliest timestamp: one of the table's, and no row is earlier |
| Dashboard.WindowStart | dashboard.py:69-77 | the start is 7, 30 or 90 days before the latest timestamp for the three labels, and the earliest timestamp otherwise |
| Dashboard.InRange | dashboard.py:80-82 | an ordered subsequence holding exactly the rows with start <= ts <= end, each as often as it occurs |
| Dashboard.SelectRange | dashboard.py:69-82 | the shown rows are an ordered subsequence, exactly those between the window start and the latest timestamp, each as often as it occurs; the latest row is always shown |
| Dashboard.AllShowsEverything | dashboard.py:76-82 | "All" shows the whole table unchanged |
| Dashboard.RangesNested | dashboard.py:70-82 | 7D ⊆ 1 Month ⊆ 3 Month ⊆ All |

## Left out

- HTTP requests are not modelled: the replies are an input, the ranking as
  a status plus the ids, a chart reply as a status plus the
  `(epoch ms, value)` pairs. A body that is not the expected JSON is not
  modelled. Neither are the request parameters, such as `per_page = 2n`.
- `time.sleep` (lines 44 and 81) and every `print` are left out: they do not
  affect the data.
- Spreadsheet I/O (line 114 and dashboard.py line 17) is not modelled. The
  persisted `Frame` is the sheet, and a `read_excel` that raises is `None`.
- The Streamlit and Plotly interface is left out. The empty-table warning and
  `st.stop` (dashboard.py lines 51-54) appear only as the requirement that
  `SelectRange` gets a non-empty table.
- IEEE floating point is replaced by exact reals. NaN, and the infinity that
  a zero total gives in line 94, are both a missing value. As a result the
  two programs differ on that row. pandas' `dropna()` (dashboard.py line 39)
  drops only NaN and keeps an infinite value. So the dashboard keeps a row
  with a zero total and a non-zero Bitcoin value, whose dominance is ±inf,
  while `Dashboard.DropNa` drops it.
- `pd.to_datetime` is left out: timestamps stay integer milliseconds, and a
  `pd.Timedelta` of d days is `d * DAY_MS`.
- Frames.Merge: pandas' row order after an outer merge is not modelled. The
  model lists the left rows, then the right-only ones. Only the order after
  the sort at line 98 is specified.
- Run.RunPipeline: needs the ranking to list each id once. Repeated ids would
  make pandas suffix the duplicate columns (`_x`, `_y`), which is not
  modelled.
- Metrics.TableSpec: does not bound the dominance figures to 0-100,
  because the script does not guarantee it. Bitcoin's value comes from the
  request at line 63, but the total comes from the coin loop (lines 73-88).
  The loop fetches Bitcoin again with its own request, and Bitcoin need not
  be among the selected coins at all. Two Bitcoin replies that disagree
  (200 and then 100) give a dominance of 200; see
  `Metrics.DisagreeingFetchExceeds100`. A negative value gives a figure
  below 0. `Metrics.DominanceBounded` states when 0-100 holds.
- CryptoData.ValidReplies: assumes that no reply lists the same epoch twice.
  A repeated key would make pandas produce a many-to-many merge.
- A sheet without a `Timestamp` column, or with unparseable timestamps, is
  not modelled, because every `Frame` has that column. So the `Timestamp`
  entry of the required list is always satisfied.
- The text of the error messages (dashboard.py line 30 and line 44) is not
  modelled.
- `reset_index` (line 101) is the position of a row in the sequence. It is
  not a stored column.
- Producer and dashboard disagree about rows with a missing Bitcoin,
  Ethereum or total value: the producer persists them, and the dashboard
  drops them on load. The model follows the code on both sides.
