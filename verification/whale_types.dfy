/** The records that flow through the whale-pool indexer and into its snapshot file. */
module WhaleTypes {
  import opened Wrappers

  /**
   * One trade as listed by the upstream trades endpoint. `volumeInUsd` is
   * `parseFloat(volume_in_usd)`: None stands for NaN (absent or unparseable
   * text). A missing `tx_from_address` is the empty string (both are falsy).
   */
  datatype Trade = Trade(volumeInUsd: Option<real>, blockTimestamp: string, kind: string, txFromAddress: string)

  /** Aggregated statistics of one address within one pool. */
  datatype WhaleTrader = WhaleTrader(address: string, totalVolume: real, tradeCount: nat, lastTradeTimestamp: string)

  /** The `attributes` of a pool record that the indexer reads. */
  datatype PoolInfo = PoolInfo(name: string, address: string)

  /** One entry of the whale-pool snapshot. */
  datatype WhalePool = WhalePool(network: string, name: string, address: string, whaleTraders: seq<WhaleTrader>)

  predicate DistinctAddresses(ts: seq<WhaleTrader>) {
    forall i, j :: 0 <= i < j < |ts| ==> ts[i].address != ts[j].address
  }

  /** Non-increasing total volume, the order `sort((a, b) => b.totalVolume - a.totalVolume)` produces. */
  predicate VolumeDescending(ts: seq<WhaleTrader>) {
    forall i, j :: 0 <= i < j < |ts| ==> ts[i].totalVolume >= ts[j].totalVolume
  }
}
