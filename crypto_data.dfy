/** The ingestion and aggregation pipeline of get_crypto_data.py: choose the
    coins, fetch each coin's daily market-cap history (retrying once after a
    rate limit), outer-merge the series on Timestamp, derive the total and
    the dominance columns, sort, rename and select the persisted columns.

    The two HTTP endpoints are an oracle: the ranking endpoint gives one
    `RankingReply` or none (a connection error), and the market-chart endpoint answers the run's
    successive requests with the successive elements of a `ChartReply`
    sequence (a request with no reply left fails as a connection error). */
module CryptoData {
  import opened Seqs
  import opened Frames

  /** Stablecoins that are never selected. */
  const EXCLUDED_STABLECOINS: set<string> :=
    {"tether", "usd-coin", "paxos-standard", "binance-usd", "gemini-dollar"}

  /** How many coins the script asks for. */
  const NUM_COINS: nat := 10

  /** HTTP 429 Too Many Requests. */
  const RATE_LIMITED: int := 429

  /** The statuses on which `raise_for_status` raises (4xx and 5xx). */
  predicate IsErrorStatus(status: int) {
    400 <= status < 600
  }

  datatype PipelineError =
    | HttpError(status: int)    // raise_for_status on the final reply
    | ConnectionError           // a request that got no reply
    | MissingTimestampColumn    // the KeyError of the final merge when no coin was selected

  /** The ranking endpoint's status and the `id` of every coin it lists, in
      descending market-cap order. */
  datatype RankingReply = RankingReply(status: int, ids: seq<string>)

  /** The ranking request got a reply, and its status is not 4xx/5xx. */
  predicate RankingAccepted(ranking: Option<RankingReply>) {
    ranking.Some? && !IsErrorStatus(ranking.value.status)
  }

  /** The market-chart endpoint's status and its `market_caps` pairs
      `[epoch_ms, value]`. */
  datatype ChartReply = ChartReply(status: int, marketCaps: seq<(int, real)>)

  // ---------------------------------------------------------------- selection

  /** The ranked ids without the stablecoins, in rank order. */
  function NonExcluded(ids: seq<string>): (r: seq<string>)
    ensures Subseq(r, ids)
    ensures forall i :: 0 <= i < |r| ==> r[i] !in EXCLUDED_STABLECOINS
    ensures forall i :: 0 <= i < |ids| && ids[i] !in EXCLUDED_STABLECOINS ==> ids[i] in r
    ensures forall x :: multiset(r)[x] == if x !in EXCLUDED_STABLECOINS then multiset(ids)[x] else 0
  {
    var r := Filter(ids, (id: string) => id !in EXCLUDED_STABLECOINS);
    FilterMembers(ids, (id: string) => id !in EXCLUDED_STABLECOINS);
    assert forall i :: 0 <= i < |r| ==> r[i] in r;
    r
  }

  /** `fetch_top_coins` after the request: the first `n` non-excluded ids. */
  function SelectCoins(ids: seq<string>, n: nat): (r: seq<string>)
    ensures |r| <= n
    ensures r <= NonExcluded(ids)
    ensures |NonExcluded(ids)| >= n ==> |r| == n
    ensures |NonExcluded(ids)| < n ==> r == NonExcluded(ids)
    ensures forall i :: 0 <= i < |r| ==> r[i] !in EXCLUDED_STABLECOINS && r[i] in ids
  {
    var coins := NonExcluded(ids);
    SubseqMembers(coins, ids);
    if |coins| <= n then coins else coins[..n]
  }

  /** A ranking that lists each coin once yields distinct selected coins. */
  lemma SelectedDistinct(ids: seq<string>, n: nat)
    requires Distinct(ids)
    ensures Distinct(SelectCoins(ids, n))
  {
    SubseqDistinct(NonExcluded(ids), ids);
  }

  /** `fetch_top_coins(n)`: a ranking request without a reply, or with a
      4xx/5xx reply, is fatal (no retry). */
  function FetchTopCoins(reply: Option<RankingReply>, n: nat): (r: Result<seq<string>, PipelineError>)
    ensures r.Failure? <==> !RankingAccepted(reply)
    ensures reply.None? ==> r == Failure(ConnectionError)
    ensures reply.Some? && IsErrorStatus(reply.value.status) ==> r == Failure(HttpError(reply.value.status))
    ensures r.Success? ==> r.value == SelectCoins(reply.value.ids, n)
  {
    match reply
    case None => Failure(ConnectionError)
    case Some(ranking) =>
      if IsErrorStatus(ranking.status) then Failure(HttpError(ranking.status))
      else Success(SelectCoins(ranking.ids, n))
  }

  // ------------------------------------------------------------------ parsing

  /** The value column of a coin's series. */
  function SeriesColumn(coinId: string): (c: string)
    ensures c != TIMESTAMP
  {
    assert |coinId + " Market Cap"| > |TIMESTAMP|;
    coinId + " Market Cap"
  }

  lemma SeriesColumnInjective(a: string, b: string)
    requires a != b
    ensures SeriesColumn(a) != SeriesColumn(b)
  {
    if |a| == |b| {
      assert SeriesColumn(a)[..|a|] == a && SeriesColumn(b)[..|b|] == b;
    } else {
      assert |SeriesColumn(a)| != |SeriesColumn(b)|;
    }
  }

  /** The value columns of the Bitcoin and Ethereum series. */
  const BITCOIN_SERIES := "bitcoin Market Cap"
  const ETHEREUM_SERIES := "ethereum Market Cap"

  predicate DistinctEpochs(entries: seq<(int, real)>) {
    forall i, j :: 0 <= i < j < |entries| ==> entries[i].0 != entries[j].0
  }

  function Epochs(entries: seq<(int, real)>): set<int> {
    set e | e in entries :: e.0
  }

  /** The DataFrame built from a `market_caps` list: one row per pair,
      Timestamp from the first element, the coin's column from the second. */
  function ParseMarketCaps(coinId: string, entries: seq<(int, real)>): (f: Frame)
    ensures WellFormed(f) && f.valueColumns == [SeriesColumn(coinId)]
    ensures |f.rows| == |entries|
    ensures forall i :: 0 <= i < |entries| ==>
      f.rows[i].ts == entries[i].0 && f.rows[i].cells[SeriesColumn(coinId)] == Some(entries[i].1)
    ensures DistinctEpochs(entries) ==> Keyed(f)
  {
    var col := SeriesColumn(coinId);
    var f := Frame([col], seq(|entries|, i requires 0 <= i < |entries| =>
      Row(entries[i].0, map[col := Some(entries[i].1)])));
    assert ColumnSet([col]) == {col};
    assert forall r :: r in f.rows ==> r.cells.Keys == {col};
    f
  }

  /** Looking an epoch up in the parsed series gives its value, and an epoch
      the reply does not list gives a missing value. */
  lemma ParseLookup(coinId: string, entries: seq<(int, real)>)
    requires DistinctEpochs(entries)
    ensures Timestamps(ParseMarketCaps(coinId, entries).rows) == Epochs(entries)
    ensures forall i :: 0 <= i < |entries| ==>
      Get(ParseMarketCaps(coinId, entries), entries[i].0, SeriesColumn(coinId)) == Some(entries[i].1)
    ensures forall t :: t !in Epochs(entries) ==> Get(ParseMarketCaps(coinId, entries), t, SeriesColumn(coinId)) == None
  {
    var f := ParseMarketCaps(coinId, entries);
    forall t | t in Epochs(entries) ensures t in Timestamps(f.rows) {
      var e :| e in entries && e.0 == t;
      var i :| 0 <= i < |entries| && entries[i] == e;
      assert f.rows[i] in f.rows;
    }
    forall t | t in Timestamps(f.rows) ensures t in Epochs(entries) {
      var x :| x in f.rows && x.ts == t;
      var i :| 0 <= i < |f.rows| && f.rows[i] == x;
      assert entries[i] in entries;
    }
    forall i | 0 <= i < |entries|
      ensures Get(f, entries[i].0, SeriesColumn(coinId)) == Some(entries[i].1)
    {
      FindUnique(f.rows, i);
    }
  }

  // ----------------------------------------------------------------- fetching

  /** A fetch: how many requests it issued and what it returned. */
  datatype Fetch = Fetch(requests: nat, result: Result<Frame, PipelineError>)

  /** `raise_for_status` and the parse of the reply a fetch ends with. */
  function Respond(coinId: string, requests: nat, reply: ChartReply): (f: Fetch)
    ensures f.requests == requests
    ensures f.result.Failure? <==> IsErrorStatus(reply.status)
    ensures f.result.Failure? ==> f.result.error == HttpError(reply.status)
    ensures f.result.Success? ==> f.result.value == ParseMarketCaps(coinId, reply.marketCaps)
  {
    if IsErrorStatus(reply.status) then Fetch(requests, Failure(HttpError(reply.status)))
    else Fetch(requests, Success(ParseMarketCaps(coinId, reply.marketCaps)))
  }

  /** `fetch_historical_market_cap(coinId)` against the replies still to
      come: on 429 it waits once and repeats the request once, then any
      4xx/5xx status of the final reply is fatal. */
  function FetchHistory(coinId: string, replies: seq<ChartReply>): (f: Fetch)
    ensures 1 <= f.requests <= 2
    ensures f.requests == 2 <==> |replies| > 0 && replies[0].status == RATE_LIMITED
    ensures f.result.Success? <==> f.requests <= |replies| && !IsErrorStatus(replies[f.requests - 1].status)
    ensures f.result.Success? ==> f.result.value == ParseMarketCaps(coinId, replies[f.requests - 1].marketCaps)
    ensures f.requests <= |replies| && f.result.Failure? ==>
      f.result.error == HttpError(replies[f.requests - 1].status)
    ensures f.requests > |replies| ==> f.result == Failure(ConnectionError)
  {
    if |replies| == 0 then Fetch(1, Failure(ConnectionError))
    else if replies[0].status == RATE_LIMITED then
      if |replies| == 1 then Fetch(2, Failure(ConnectionError))
      else Respond(coinId, 2, replies[1])
    else Respond(coinId, 1, replies[0])
  }

  /** A fetch that is rate limited once and then succeeds returns the series
      a fetch that succeeds at once would. */
  lemma RetryIsTransparent(coinId: string, limited: ChartReply, ok: ChartReply, rest: seq<ChartReply>)
    requires limited.status == RATE_LIMITED
    requires ok.status != RATE_LIMITED && !IsErrorStatus(ok.status)
    ensures FetchHistory(coinId, [limited, ok] + rest).result == FetchHistory(coinId, [ok] + rest).result
    ensures FetchHistory(coinId, [limited, ok] + rest).result.Success?
  {
  }

  /** A second consecutive rate limit is fatal. */
  lemma RateLimitedTwiceFails(coinId: string, replies: seq<ChartReply>)
    requires |replies| >= 2 && replies[0].status == RATE_LIMITED && replies[1].status == RATE_LIMITED
    ensures FetchHistory(coinId, replies) == Fetch(2, Failure(HttpError(RATE_LIMITED)))
  {
  }

  /** Every reply lists each epoch once (the API's guarantee that a series
      has no duplicate timestamps). */
  predicate ValidReplies(replies: seq<ChartReply>) {
    forall i :: 0 <= i < |replies| ==> DistinctEpochs(replies[i].marketCaps)
  }

  /** A suffix of well-formed replies is well formed. */
  lemma ValidSuffix(replies: seq<ChartReply>, n: nat)
    requires ValidReplies(replies) && n <= |replies|
    ensures ValidReplies(replies[n..])
  {
    assert forall i :: 0 <= i < |replies| - n ==> replies[n..][i] == replies[n + i];
  }

  function PrependAll(pre: seq<Frame>, rest: Result<seq<Frame>, PipelineError>): Result<seq<Frame>, PipelineError> {
    match rest
    case Success(ss) => Success(pre + ss)
    case Failure(e) => Failure(e)
  }

  /** Fetching the given coins one after another; the first failure aborts. */
  function FetchSeries(ids: seq<string>, replies: seq<ChartReply>): (r: Result<seq<Frame>, PipelineError>)
    ensures r.Success? ==> |r.value| == |ids|
    ensures r.Success? ==> forall k :: 0 <= k < |ids| ==> r.value[k].valueColumns == [SeriesColumn(ids[k])]
    ensures r.Success? && ValidReplies(replies) ==> forall k :: 0 <= k < |ids| ==> Keyed(r.value[k])
    decreases |ids|
  {
    if ids == [] then Success([])
    else
      var f := FetchHistory(ids[0], replies);
      match f.result
      case Failure(e) => Failure(e)
      case Success(s) =>
        var rest := FetchSeries(ids[1..], replies[f.requests..]);
        assert ValidReplies(replies) ==> ValidReplies(replies[f.requests..]) by {
          if ValidReplies(replies) {
            ValidSuffix(replies, f.requests);
          }
        }
        assert rest.Success? ==> forall k :: 0 < k < |ids| ==> ([s] + rest.value)[k] == rest.value[k - 1];
        PrependAll([s], rest)
  }

  /** A reply that is neither rate limited nor an error. */
  predicate Accepted(reply: ChartReply) {
    reply.status != RATE_LIMITED && !IsErrorStatus(reply.status)
  }

  /** The series parsed from one reply per coin, reply k for coin k. */
  function ParsedSeries(ids: seq<string>, replies: seq<ChartReply>): (ss: seq<Frame>)
    requires |replies| >= |ids|
    ensures |ss| == |ids|
    ensures forall k :: 0 <= k < |ids| ==> ss[k] == ParseMarketCaps(ids[k], replies[k].marketCaps)
  {
    seq(|ids|, k requires 0 <= k < |ids| => ParseMarketCaps(ids[k], replies[k].marketCaps))
  }

  /** The parsed series of a non-empty list of coins: the first coin's,
      then the rest's against the remaining replies. */
  lemma ParsedSeriesCons(ids: seq<string>, replies: seq<ChartReply>)
    requires |replies| >= |ids| > 0
    ensures ParsedSeries(ids, replies) ==
      [ParseMarketCaps(ids[0], replies[0].marketCaps)] + ParsedSeries(ids[1..], replies[1..])
  {
    var tail := ParsedSeries(ids[1..], replies[1..]);
    forall k | 1 <= k < |ids| ensures ParsedSeries(ids, replies)[k] == tail[k - 1] {
      assert ids[1..][k - 1] == ids[k] && replies[1..][k - 1] == replies[k];
    }
  }

  /** A coin whose first reply is accepted costs one request. */
  lemma FetchSeriesCons(ids: seq<string>, replies: seq<ChartReply>)
    requires |replies| >= |ids| > 0 && Accepted(replies[0])
    ensures FetchSeries(ids, replies) ==
      PrependAll([ParseMarketCaps(ids[0], replies[0].marketCaps)], FetchSeries(ids[1..], replies[1..]))
  {
    assert FetchHistory(ids[0], replies) == Fetch(1, Success(ParseMarketCaps(ids[0], replies[0].marketCaps)));
  }

  /** When every coin's first reply is accepted, each coin costs one request
      and series k is the parse of reply k. */
  lemma {:induction false} FetchSeriesSucceeds(ids: seq<string>, replies: seq<ChartReply>)
    requires |replies| >= |ids|
    requires forall i :: 0 <= i < |ids| ==> Accepted(replies[i])
    ensures FetchSeries(ids, replies) == Success(ParsedSeries(ids, replies))
    decreases |ids|
  {
    if ids != [] {
      assert forall i :: 0 <= i < |ids| - 1 ==> replies[1..][i] == replies[i + 1];
      FetchSeriesSucceeds(ids[1..], replies[1..]);
      FetchSeriesCons(ids, replies);
      ParsedSeriesCons(ids, replies);
    }
  }

  /** When the coins before `k` are fetched with one accepted reply each and
      coin `k`'s fetch fails, the whole sequence of fetches fails with that
      error. */
  lemma {:induction false} FetchSeriesFails(ids: seq<string>, replies: seq<ChartReply>, k: nat)
    requires k < |ids| && k <= |replies|
    requires forall i :: 0 <= i < k ==> Accepted(replies[i])
    requires FetchHistory(ids[k], replies[k..]).result.Failure?
    ensures FetchSeries(ids, replies) == Failure(FetchHistory(ids[k], replies[k..]).result.error)
    decreases k
  {
    if k == 0 {
      assert replies[0..] == replies;
    } else {
      var rest := replies[1..];
      assert forall i :: 0 <= i < k - 1 ==> rest[i] == replies[i + 1];
      assert ids[1..][k - 1] == ids[k];
      assert rest[k - 1..] == replies[k..];
      FetchSeriesFails(ids[1..], rest, k - 1);
    }
  }

  /** The fetched series of a run. */
  datatype Fetched = Fetched(bitcoin: Frame, ethereum: Frame, coins: seq<Frame>)

  /** What a run obtains from the endpoints, in request order: the ranking,
      then Bitcoin, Ethereum and every selected coin. */
  function FetchPhase(ranking: Option<RankingReply>, replies: seq<ChartReply>): (r: Result<Fetched, PipelineError>)
    ensures ranking.None? ==> r == Failure(ConnectionError)
    ensures ranking.Some? && IsErrorStatus(ranking.value.status) ==> r == Failure(HttpError(ranking.value.status))
    ensures r.Success? ==>
      && RankingAccepted(ranking)
      && r.value.bitcoin.valueColumns == [SeriesColumn("bitcoin")]
      && r.value.ethereum.valueColumns == [SeriesColumn("ethereum")]
      && |r.value.coins| == |SelectCoins(ranking.value.ids, NUM_COINS)|
      && forall k :: 0 <= k < |r.value.coins| ==>
        r.value.coins[k].valueColumns == [SeriesColumn(SelectCoins(ranking.value.ids, NUM_COINS)[k])]
  {
    match FetchTopCoins(ranking, NUM_COINS)
    case Failure(e) => Failure(e)
    case Success(top) =>
      var b := FetchHistory("bitcoin", replies);
      if b.result.Failure? then Failure(b.result.error)
      else
        var e := FetchHistory("ethereum", replies[b.requests..]);
        if e.result.Failure? then Failure(e.result.error)
        else
          match FetchSeries(top, replies[b.requests..][e.requests..])
          case Failure(err) => Failure(err)
          case Success(cs) => Success(Fetched(b.result.value, e.result.value, cs))
  }

  /** A run whose Bitcoin request is rate limited twice ends in an error, so
      nothing is persisted. */
  lemma BitcoinRateLimitedTwiceAborts(ranking: Option<RankingReply>, replies: seq<ChartReply>)
    requires RankingAccepted(ranking)
    requires |replies| >= 2 && replies[0].status == RATE_LIMITED && replies[1].status == RATE_LIMITED
    ensures FetchPhase(ranking, replies) == Failure(HttpError(RATE_LIMITED))
  {
    RateLimitedTwiceFails("bitcoin", replies);
  }

  /** Any failed fetch aborts the run with its error: Bitcoin's (line 63),
      Ethereum's after Bitcoin's succeeded (line 64), and the first failure
      among the selected coins after both succeeded (line 75); see
      `FetchSeriesFails` for which coin's error that is. */
  lemma FetchPhaseAborts(ranking: Option<RankingReply>, replies: seq<ChartReply>)
    requires RankingAccepted(ranking)
    ensures var b := FetchHistory("bitcoin", replies);
      b.result.Failure? ==> FetchPhase(ranking, replies) == Failure(b.result.error)
    ensures var b := FetchHistory("bitcoin", replies);
      b.result.Success? ==>
        var e := FetchHistory("ethereum", replies[b.requests..]);
        e.result.Failure? ==> FetchPhase(ranking, replies) == Failure(e.result.error)
    ensures var b := FetchHistory("bitcoin", replies);
      b.result.Success? ==>
        var e := FetchHistory("ethereum", replies[b.requests..]);
        e.result.Success? ==>
          var cs := FetchSeries(SelectCoins(ranking.value.ids, NUM_COINS), replies[b.requests..][e.requests..]);
          cs.Failure? ==> FetchPhase(ranking, replies) == Failure(cs.error)
  {
  }

  /** With an accepted ranking and an accepted first reply to every request,
      the run makes one request per series: Bitcoin's, Ethereum's, then the
      selected coins' in rank order. */
  lemma FetchPhaseSucceeds(ranking: Option<RankingReply>, replies: seq<ChartReply>)
    requires RankingAccepted(ranking)
    requires |replies| >= 2 + |SelectCoins(ranking.value.ids, NUM_COINS)|
    requires forall i :: 0 <= i < 2 + |SelectCoins(ranking.value.ids, NUM_COINS)| ==> Accepted(replies[i])
    ensures var top := SelectCoins(ranking.value.ids, NUM_COINS);
      FetchPhase(ranking, replies) == Success(Fetched(
        ParseMarketCaps("bitcoin", replies[0].marketCaps),
        ParseMarketCaps("ethereum", replies[1].marketCaps),
        ParsedSeries(top, replies[2..])))
  {
    var top := SelectCoins(ranking.value.ids, NUM_COINS);
    assert Accepted(replies[0]) && Accepted(replies[1]);
    var b := FetchHistory("bitcoin", replies);
    assert b == Fetch(1, Success(ParseMarketCaps("bitcoin", replies[0].marketCaps)));
    var e := FetchHistory("ethereum", replies[1..]);
    assert replies[1..][0] == replies[1];
    assert e == Fetch(1, Success(ParseMarketCaps("ethereum", replies[1].marketCaps)));
    var rest := replies[1..][1..];
    assert rest == replies[2..];
    assert forall i :: 0 <= i < |top| ==> rest[i] == replies[i + 2];
    FetchSeriesSucceeds(top, rest);
  }

  /** A selected coin whose request is rate limited twice, after every
      earlier request was accepted, ends the run with HTTP 429. */
  lemma CoinRateLimitedTwiceAborts(ranking: Option<RankingReply>, replies: seq<ChartReply>, k: nat)
    requires RankingAccepted(ranking)
    requires k < |SelectCoins(ranking.value.ids, NUM_COINS)|
    requires |replies| >= k + 4
    requires forall i :: 0 <= i < k + 2 ==> Accepted(replies[i])
    requires replies[k + 2].status == RATE_LIMITED && replies[k + 3].status == RATE_LIMITED
    ensures FetchPhase(ranking, replies) == Failure(HttpError(RATE_LIMITED))
  {
    var top := SelectCoins(ranking.value.ids, NUM_COINS);
    assert Accepted(replies[0]) && Accepted(replies[1]);
    var rest := replies[1..][1..];
    assert rest == replies[2..];
    assert forall i :: 0 <= i < k ==> rest[i] == replies[i + 2];
    assert rest[k..][0] == replies[k + 2] && rest[k..][1] == replies[k + 3];
    RateLimitedTwiceFails(top[k], rest[k..]);
    FetchSeriesFails(top, rest, k);
  }

  // -------------------------------------------------------------- aggregation

  /** Keyed series with pairwise disjoint value columns. */
  predicate Family(ss: seq<Frame>) {
    && (forall k :: 0 <= k < |ss| ==> Keyed(ss[k]))
    && (forall i, j :: 0 <= i < j < |ss| ==> ColumnSet(ss[i].valueColumns) !! ColumnSet(ss[j].valueColumns))
  }

  function AllTimestamps(ss: seq<Frame>): set<int>
    decreases |ss|
  {
    if ss == [] then {} else AllTimestamps(ss[..|ss| - 1]) + Timestamps(ss[|ss| - 1].rows)
  }

  function AllColumns(ss: seq<Frame>): set<string>
    decreases |ss|
  {
    if ss == [] then {} else AllColumns(ss[..|ss| - 1]) + ColumnSet(ss[|ss| - 1].valueColumns)
  }

  function ConcatColumns(ss: seq<Frame>): seq<string>
    decreases |ss|
  {
    if ss == [] then [] else ConcatColumns(ss[..|ss| - 1]) + ss[|ss| - 1].valueColumns
  }

  /** The sum over every series of its values at `t`, a missing value
      counting 0. */
  function SeriesSum(ss: seq<Frame>, t: int): real
    decreases |ss|
  {
    if ss == [] then 0.0
    else SeriesSum(ss[..|ss| - 1], t) + CellSum(ss[|ss| - 1], ss[|ss| - 1].valueColumns, t)
  }

  lemma {:induction false} AllColumnsFrom(ss: seq<Frame>, c: string)
    requires c in AllColumns(ss)
    ensures exists k :: 0 <= k < |ss| && c in ColumnSet(ss[k].valueColumns)
    decreases |ss|
  {
    var pre := ss[..|ss| - 1];
    if c !in ColumnSet(ss[|ss| - 1].valueColumns) {
      AllColumnsFrom(pre, c);
      var k :| 0 <= k < |pre| && c in ColumnSet(pre[k].valueColumns);
      assert ss[k] == pre[k];
    }
  }

  lemma FamilySplit(ss: seq<Frame>)
    requires Family(ss) && ss != []
    ensures Family(ss[..|ss| - 1]) && Keyed(ss[|ss| - 1])
    ensures AllColumns(ss[..|ss| - 1]) !! ColumnSet(ss[|ss| - 1].valueColumns)
  {
    var pre := ss[..|ss| - 1];
    forall c | c in AllColumns(pre) ensures c !in ColumnSet(ss[|ss| - 1].valueColumns) {
      AllColumnsFrom(pre, c);
      var k :| 0 <= k < |pre| && c in ColumnSet(pre[k].valueColumns);
      assert ss[k] == pre[k];
    }
  }

  /** One pass of the loop body: the coin's frame replaces an accumulator
      that is still `empty` (the initial column-less `pd.DataFrame()`, here
      `None`, or a frame without rows), and is outer-merged into it
      otherwise. */
  function AggregateStep(acc: Option<Frame>, s: Frame): (r: Option<Frame>)
    requires Keyed(s)
    requires acc.Some? ==> Keyed(acc.value) && ColumnSet(acc.value.valueColumns) !! ColumnSet(s.valueColumns)
    ensures r.Some? && Keyed(r.value)
    ensures acc.None? || |acc.value.rows| == 0 ==> r == Some(s)
    ensures Timestamps(r.value.rows) == (if acc.Some? then Timestamps(acc.value.rows) else {}) + Timestamps(s.rows)
    ensures forall t, c :: c in s.valueColumns ==> Get(r.value, t, c) == Get(s, t, c)
    ensures acc.Some? && |acc.value.rows| > 0 ==>
      && r.value.valueColumns == acc.value.valueColumns + s.valueColumns
      && forall t, c :: c in acc.value.valueColumns ==> Get(r.value, t, c) == Get(acc.value, t, c)
  {
    if acc.None? || |acc.value.rows| == 0 then
      assert acc.Some? ==> Timestamps(acc.value.rows) == {};
      Some(s)
    else
      MergeGet(acc.value, s);
      Some(Merge(acc.value, s))
  }

  /** The accumulator `total_market_cap_df` after the loop has seen `ss`. */
  function Aggregate(ss: seq<Frame>): (acc: Option<Frame>)
    requires Family(ss)
    ensures acc.None? <==> ss == []
    ensures acc.Some? ==> Keyed(acc.value)
    ensures acc.Some? ==> Timestamps(acc.value.rows) == AllTimestamps(ss)
    ensures acc.Some? ==> ColumnSet(acc.value.valueColumns) <= AllColumns(ss)
    decreases |ss|
  {
    if ss == [] then None
    else
      FamilySplit(ss);
      AggregateStep(Aggregate(ss[..|ss| - 1]), ss[|ss| - 1])
  }

  /** The first coin's series is the accumulator's seed. */
  lemma AggregateSeed(s: Frame)
    requires Keyed(s)
    ensures Family([s]) && Aggregate([s]) == Some(s)
  {
    assert [s][..0] == [];
  }

  /** When the first series has rows, nothing is replaced: the aggregate
      has every series' column, in order. */
  lemma {:induction false} AggregateColumns(ss: seq<Frame>)
    requires Family(ss) && |ss| > 0 && |ss[0].rows| > 0
    ensures Aggregate(ss).value.valueColumns == ConcatColumns(ss)
    decreases |ss|
  {
    var pre := ss[..|ss| - 1];
    FamilySplit(ss);
    if pre != [] {
      assert pre[0] == ss[0];
      AggregateColumns(pre);
      var acc := Aggregate(pre).value;
      assert ss[0].rows[0] in ss[0].rows;
      assert Timestamps(ss[0].rows) <= AllTimestamps(pre) by {
        AllTimestampsFirst(pre);
      }
      assert ss[0].rows[0].ts in Timestamps(acc.rows);
    } else {
      assert ConcatColumns(ss) == ConcatColumns([]) + ss[0].valueColumns;
    }
  }

  lemma {:induction false} AllTimestampsFirst(ss: seq<Frame>)
    requires |ss| > 0
    ensures Timestamps(ss[0].rows) <= AllTimestamps(ss)
    decreases |ss|
  {
    if |ss| > 1 {
      var pre := ss[..|ss| - 1];
      assert pre[0] == ss[0];
      AllTimestampsFirst(pre);
    }
  }

  /** The aggregate's values at `t` sum to the sum over all series, whatever
      frames the `empty` test replaced. */
  lemma {:induction false} AggregateSum(ss: seq<Frame>, t: int)
    requires Family(ss) && |ss| > 0
    ensures CellSum(Aggregate(ss).value, Aggregate(ss).value.valueColumns, t) == SeriesSum(ss, t)
    decreases |ss|
  {
    var pre := ss[..|ss| - 1];
    var s := ss[|ss| - 1];
    FamilySplit(ss);
    if pre == [] {
      assert SeriesSum(ss, t) == SeriesSum(pre, t) + CellSum(s, s.valueColumns, t);
    } else {
      AggregateSum(pre, t);
      var acc := Aggregate(pre).value;
      if |acc.rows| == 0 {
        CellSumAbsent(acc, acc.valueColumns, t);
      } else {
        var m := Merge(acc, s);
        MergeGet(acc, s);
        CellSumConcat(m, acc.valueColumns, s.valueColumns, t);
        CellSumAgree(m, acc, acc.valueColumns, t);
        CellSumAgree(m, s, s.valueColumns, t);
      }
    }
  }
}
