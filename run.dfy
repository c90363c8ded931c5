/** The module-level script of get_crypto_data.py as a whole (lines 57-111):
    the requests in the order the script issues them, the accumulating loop
    over the selected coins and the derivation of the persisted table.  The
    two endpoints are the ranking reply and the sequence of market-chart
    replies, consumed in request order. */
module Run {
  import opened Seqs
  import opened Frames
  import opened CryptoData
  import opened Metrics
  import opened Pipeline

  /** A successful fetch against well-formed replies yields a keyed series. */
  lemma FetchedKeyed(coinId: string, replies: seq<ChartReply>)
    requires ValidReplies(replies) && FetchHistory(coinId, replies).result.Success?
    ensures Keyed(FetchHistory(coinId, replies).result.value)
    ensures FetchHistory(coinId, replies).result.value.valueColumns == [SeriesColumn(coinId)]
  {
    var f := FetchHistory(coinId, replies);
    assert DistinctEpochs(replies[f.requests - 1].marketCaps);
  }

  /** Fetching the coins from position `k` on is fetching coin `k` and then
      the rest. */
  lemma SeriesStep(top: seq<string>, k: nat, rest: seq<ChartReply>)
    requires k < |top|
    ensures FetchHistory(top[k], rest).result.Failure? ==>
      FetchSeries(top[k..], rest) == Failure(FetchHistory(top[k], rest).result.error)
    ensures FetchHistory(top[k], rest).result.Success? ==>
      FetchSeries(top[k..], rest) ==
      PrependAll([FetchHistory(top[k], rest).result.value], FetchSeries(top[k + 1..], rest[FetchHistory(top[k], rest).requests..]))
  {
    assert top[k..][0] == top[k];
    assert top[k..][1..] == top[k + 1..];
  }

  lemma PrependTwice(a: seq<Frame>, b: seq<Frame>, r: Result<seq<Frame>, PipelineError>)
    ensures PrependAll(a, PrependAll(b, r)) == PrependAll(a + b, r)
  {
    match r
    case Success(ss) =>
      assert a + (b + ss) == a + b + ss;
    case Failure(_) =>
  }

  lemma PrependNothing(r: Result<seq<Frame>, PipelineError>)
    ensures PrependAll([], r) == r
  {
    match r
    case Success(ss) =>
      assert [] + ss == ss;
    case Failure(_) =>
  }

  /** A keyed series whose columns are disjoint from every member's extends
      a family. */
  lemma FamilyExtend(ss: seq<Frame>, s: Frame)
    requires Family(ss) && Keyed(s)
    requires forall j :: 0 <= j < |ss| ==> ColumnSet(ss[j].valueColumns) !! ColumnSet(s.valueColumns)
    ensures Family(ss + [s])
  {
    var ext := ss + [s];
    assert forall j :: 0 <= j < |ss| ==> ext[j] == ss[j];
    assert ext[|ss|] == s;
  }

  /** The aggregate after one more pass of the loop body. */
  lemma AggregateSnoc(ss: seq<Frame>, s: Frame)
    requires Family(ss + [s])
    ensures Family(ss) && Keyed(s)
    ensures Aggregate(ss).Some? ==> ColumnSet(Aggregate(ss).value.valueColumns) !! ColumnSet(s.valueColumns)
    ensures Aggregate(ss + [s]) == AggregateStep(Aggregate(ss), s)
  {
    var ext := ss + [s];
    assert ext[..|ss|] == ss;
    assert ext[|ss|] == s;
    FamilySplit(ext);
  }

  /** The outer merge of line 67 is the primary table. */
  lemma PrimaryOf(btc: Frame, eth: Frame)
    requires Keyed(btc) && btc.valueColumns == [BITCOIN_SERIES]
    requires Keyed(eth) && eth.valueColumns == [ETHEREUM_SERIES]
    ensures ColumnSet(btc.valueColumns) !! ColumnSet(eth.valueColumns)
    ensures IsPrimary(Merge(btc, eth), btc, eth)
  {
    assert BITCOIN_SERIES != ETHEREUM_SERIES;
    MergeGet(btc, eth);
  }

  /** What a run persists, given what it obtains from the endpoints. */
  predicate RunOutcome(ranking: Option<RankingReply>, replies: seq<ChartReply>, out: Result<Frame, PipelineError>) {
    match FetchPhase(ranking, replies)
    case Failure(e) => out == Failure(e)
    case Success(f) =>
      if f.coins == [] then out == Failure(MissingTimestampColumn)
      else out.Success? && TableSpec(out.value, f)
  }

  /** The fetches still to come after one more successful coin fetch. */
  lemma AccumulateFetch(top: seq<string>, replies: seq<ChartReply>, k: nat, rest: seq<ChartReply>, fetched: seq<Frame>, f: Fetch)
    requires k < |top| && ValidReplies(rest)
    requires FetchSeries(top, replies) == PrependAll(fetched, FetchSeries(top[k..], rest))
    requires f == FetchHistory(top[k], rest) && f.result.Success?
    ensures f.requests <= |rest| && ValidReplies(rest[f.requests..])
    ensures FetchSeries(top, replies) == PrependAll(fetched + [f.result.value], FetchSeries(top[k + 1..], rest[f.requests..]))
  {
    ValidSuffix(rest, f.requests);
    SeriesStep(top, k, rest);
    PrependTwice(fetched, [f.result.value], FetchSeries(top[k + 1..], rest[f.requests..]));
  }

  /** The fetched series stay a family after one more coin's series. */
  lemma AccumulateFold(top: seq<string>, k: nat, rest: seq<ChartReply>, fetched: seq<Frame>, f: Fetch)
    requires Distinct(top) && k < |top| && ValidReplies(rest) && |fetched| == k
    requires forall j :: 0 <= j < k ==> fetched[j].valueColumns == [SeriesColumn(top[j])]
    requires Family(fetched)
    requires f == FetchHistory(top[k], rest) && f.result.Success?
    ensures Family(fetched + [f.result.value])
    ensures forall j :: 0 <= j < k + 1 ==> (fetched + [f.result.value])[j].valueColumns == [SeriesColumn(top[j])]
  {
    var s := f.result.value;
    FetchedKeyed(top[k], rest);
    forall j | 0 <= j < k ensures ColumnSet(fetched[j].valueColumns) !! ColumnSet(s.valueColumns) {
      SeriesColumnInjective(top[j], top[k]);
    }
    FamilyExtend(fetched, s);
  }

  /** Lines 73-81: each selected coin is fetched in turn and folded into the
      accumulator; the first failed request aborts the run. */
  method AccumulateCoins(top: seq<string>, replies: seq<ChartReply>) returns (out: Result<Option<Frame>, PipelineError>)
    requires Distinct(top) && ValidReplies(replies)
    ensures FetchSeries(top, replies).Failure? ==> out == Failure(FetchSeries(top, replies).error)
    ensures FetchSeries(top, replies).Success? ==>
      Family(FetchSeries(top, replies).value) && out == Success(Aggregate(FetchSeries(top, replies).value))
  {
    var acc: Option<Frame> := None;
    ghost var fetched: seq<Frame> := [];
    var rest := replies;
    var k := 0;
    assert top[0..] == top;
    PrependNothing(FetchSeries(top, replies));
    while k < |top|
      invariant 0 <= k <= |top|
      invariant ValidReplies(rest)
      invariant |fetched| == k
      invariant forall j :: 0 <= j < k ==> fetched[j].valueColumns == [SeriesColumn(top[j])]
      invariant Family(fetched)
      invariant acc == Aggregate(fetched)
      invariant FetchSeries(top, replies) == PrependAll(fetched, FetchSeries(top[k..], rest))
    {
      var f := FetchHistory(top[k], rest);
      SeriesStep(top, k, rest);
      if f.result.Failure? {
        return Failure(f.result.error);
      }
      var s := f.result.value;
      AccumulateFetch(top, replies, k, rest, fetched, f);
      AccumulateFold(top, k, rest, fetched, f);
      AggregateSnoc(fetched, s);
      if acc.None? || |acc.value.rows| == 0 {
        acc := Some(s);
      } else {
        acc := Some(Merge(acc.value, s));
      }
      fetched := fetched + [s];
      rest := rest[f.requests..];
      k := k + 1;
    }
    assert fetched + [] == fetched;
    return Success(acc);
  }

  /** The script, lines 57-111.  A failed request aborts the run with its
      error; with no coin selected the projection of line 91 fails for want
      of a Timestamp column; otherwise the persisted table meets its
      specification. */
  method RunPipeline(ranking: Option<RankingReply>, replies: seq<ChartReply>) returns (out: Result<Frame, PipelineError>)
    requires ranking.Some? ==> Distinct(ranking.value.ids)
    requires ValidReplies(replies)
    ensures RunOutcome(ranking, replies, out)
  {
    var topCoins := FetchTopCoins(ranking, NUM_COINS);
    if topCoins.Failure? {
      return Failure(topCoins.error);
    }
    var top := topCoins.value;
    SelectedDistinct(ranking.value.ids, NUM_COINS);
    var b := FetchHistory("bitcoin", replies);
    if b.result.Failure? {
      return Failure(b.result.error);
    }
    FetchedKeyed("bitcoin", replies);
    var rest := replies[b.requests..];
    ValidSuffix(replies, b.requests);
    var e := FetchHistory("ethereum", rest);
    if e.result.Failure? {
      return Failure(e.result.error);
    }
    FetchedKeyed("ethereum", rest);
    ValidSuffix(rest, e.requests);
    rest := rest[e.requests..];
    SeriesNames();
    var btc := b.result.value;
    var eth := e.result.value;
    PrimaryOf(btc, eth);
    var primary := Merge(btc, eth);
    var acc := AccumulateCoins(top, rest);
    if acc.Failure? {
      return Failure(acc.error);
    }
    if acc.value.None? {
      return Failure(MissingTimestampColumn);
    }
    var table := DeriveFinalTable(primary, acc.value.value, Fetched(btc, eth, FetchSeries(top, rest).value));
    return Success(table);
  }
}
