/** The persisted artifact's schema: the column names the producer writes
    and the dashboard reads, after the implicit Timestamp column. */
module Schema {
  const BITCOIN_CAP := "Bitcoin Market Cap"
  const ETHEREUM_CAP := "Ethereum Market Cap"
  const TOTAL_CAP := "Total Market Cap"
  const BTC_DOMINANCE := "Bitcoin Dominance (%)"
  const ALT_DOMINANCE := "Altcoin Dominance (%)"

  /** The persisted columns after Timestamp, in order. */
  const FINAL_COLUMNS: seq<string> := [BITCOIN_CAP, ETHEREUM_CAP, TOTAL_CAP, BTC_DOMINANCE, ALT_DOMINANCE]
}
