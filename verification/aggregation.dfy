/**
 * The per-pool step of the whale-pool indexer: fold a pool's trades into a
 * table keyed by trader address (a JavaScript Map, iterated in insertion
 * order), then, when the table is not empty, emit the pool with its traders
 * sorted by total volume.
 */
module WhaleAggregation {
  import opened Wrappers
  import opened Sequences
  import opened WhaleTypes
  import opened TraderOrder

  const MIN_WHALE_VOLUME: real := 10000.0

  /** `volume > MIN_WHALE_VOLUME && address`: NaN and the empty address never qualify. */
  predicate IsWhaleTrade(t: Trade) {
    t.volumeInUsd.Some? && t.volumeInUsd.value > MIN_WHALE_VOLUME && t.txFromAddress != ""
  }

  /** The whale trades made by `address`, in input order. */
  function WhaleTradesFrom(trades: seq<Trade>, address: string): seq<Trade> {
    if trades == [] then []
    else
      var rest := WhaleTradesFrom(trades[..|trades| - 1], address);
      var t := trades[|trades| - 1];
      if IsWhaleTrade(t) && t.txFromAddress == address then rest + [t] else rest
  }

  /** The sender of every whale trade, in input order, repetitions included. */
  function WhaleAddresses(trades: seq<Trade>): seq<string> {
    if trades == [] then []
    else
      var rest := WhaleAddresses(trades[..|trades| - 1]);
      var t := trades[|trades| - 1];
      if IsWhaleTrade(t) then rest + [t.txFromAddress] else rest
  }

  /** The sum of the parsed volumes of `ts`, added left to right. */
  function VolumeSum(ts: seq<Trade>): real {
    if ts == [] then 0.0 else VolumeSum(ts[..|ts| - 1]) + ts[|ts| - 1].volumeInUsd.GetOr(0.0)
  }

  /**
   * The statistics of `address` over `trades`: the sum and number of its
   * whale trades and the timestamp of the last of them in input order
   * (a trade count of 0 means the address has no entry).
   */
  function Summary(trades: seq<Trade>, address: string): WhaleTrader {
    var w := WhaleTradesFrom(trades, address);
    WhaleTrader(address, VolumeSum(w), |w|, if w == [] then "" else w[|w| - 1].blockTimestamp)
  }

  /** The addresses in the order they entered the table: that of their first whale trade. */
  function FirstSeenAddresses(trades: seq<Trade>): seq<string> {
    Dedup(WhaleAddresses(trades))
  }

  /** `Array.from(whaleTraders.values())`: one record per address, in insertion order. */
  function TradersInFirstSeenOrder(trades: seq<Trade>): seq<WhaleTrader> {
    var order := FirstSeenAddresses(trades);
    seq(|order|, k requires 0 <= k < |order| => Summary(trades, order[k]))
  }

  /** The snapshot entry one pool yields, or None when it has no whale trader. */
  function WhalePoolFor(networkId: string, pool: PoolInfo, trades: seq<Trade>): Option<WhalePool> {
    var traders := TradersInFirstSeenOrder(trades);
    if |traders| > 0 then Some(WhalePool(networkId, pool.name, pool.address, SortByVolume(traders)))
    else None
  }

  /**
   * One more trade: a whale trade adds its volume to its sender's total,
   * counts once more and overwrites the sender's last timestamp; any other
   * trade changes nothing.
   */
  lemma SummaryStep(trades: seq<Trade>, t: Trade, a: string)
    ensures WhaleAddresses(trades + [t]) ==
      if IsWhaleTrade(t) then WhaleAddresses(trades) + [t.txFromAddress] else WhaleAddresses(trades)
    ensures Summary(trades + [t], a) ==
      if IsWhaleTrade(t) && t.txFromAddress == a then
        var before := Summary(trades, a);
        WhaleTrader(a, before.totalVolume + t.volumeInUsd.value, before.tradeCount + 1, t.blockTimestamp)
      else Summary(trades, a)
  {
    assert (trades + [t])[..|trades|] == trades;
    var w := WhaleTradesFrom(trades, a);
    assert (w + [t])[..|w|] == w;
  }

  /** An address has no whale trade exactly when it is not among the whale senders. */
  lemma {:induction false} NoWhaleTradesIff(trades: seq<Trade>, a: string)
    ensures WhaleTradesFrom(trades, a) == [] <==> a !in WhaleAddresses(trades)
  {
    if trades != [] {
      NoWhaleTradesIff(trades[..|trades| - 1], a);
    }
  }

  /** The whale senders are exactly the senders of the trades that qualify. */
  lemma {:induction false} WhaleAddressesMembers(trades: seq<Trade>, a: string)
    ensures a in WhaleAddresses(trades) <==>
      exists i :: 0 <= i < |trades| && IsWhaleTrade(trades[i]) && trades[i].txFromAddress == a
  {
    if trades != [] {
      var p := trades[..|trades| - 1];
      WhaleAddressesMembers(p, a);
      if exists i :: 0 <= i < |trades| && IsWhaleTrade(trades[i]) && trades[i].txFromAddress == a {
        var i :| 0 <= i < |trades| && IsWhaleTrade(trades[i]) && trades[i].txFromAddress == a;
        if i < |p| {
          assert p[i] == trades[i];
        }
      }
    }
  }

  /** The loop invariant: `table` and its key order are the fold of `trades`. */
  ghost predicate TableHolds(table: map<string, WhaleTrader>, order: seq<string>, trades: seq<Trade>) {
    && order == FirstSeenAddresses(trades)
    && (forall a :: a in table <==> a in order)
    && (forall a :: a in table ==> table[a] == Summary(trades, a))
  }

  lemma SkipStep(table: map<string, WhaleTrader>, order: seq<string>, trades: seq<Trade>, t: Trade)
    requires TableHolds(table, order, trades) && !IsWhaleTrade(t)
    ensures TableHolds(table, order, trades + [t])
  {
    SummaryStep(trades, t, t.txFromAddress);
    forall a | a in table ensures table[a] == Summary(trades + [t], a) {
      SummaryStep(trades, t, a);
    }
  }

  /** The in-place update of an existing record by one more whale trade of `volume`. */
  function AddTrade(trader: WhaleTrader, volume: real, timestamp: string): (r: WhaleTrader)
    ensures r.address == trader.address && r.tradeCount == trader.tradeCount + 1
  {
    trader.(totalVolume := trader.totalVolume + volume,
            tradeCount := trader.tradeCount + 1,
            lastTradeTimestamp := timestamp)
  }

  /**
   * The in-place update of lines 119-121 is the reference step: applied to
   * an address's statistics, it gives that address's statistics after one
   * more of its whale trades (volume added, count raised, timestamp overwritten).
   */
  lemma AddTradeIsSummaryStep(trades: seq<Trade>, t: Trade)
    requires IsWhaleTrade(t) && Summary(trades, t.txFromAddress).tradeCount >= 1
    ensures AddTrade(Summary(trades, t.txFromAddress), t.volumeInUsd.value, t.blockTimestamp) ==
      Summary(trades + [t], t.txFromAddress)
  {
    SummaryStep(trades, t, t.txFromAddress);
  }

  lemma UpdateStep(table: map<string, WhaleTrader>, order: seq<string>, trades: seq<Trade>, t: Trade)
    requires TableHolds(table, order, trades) && IsWhaleTrade(t) && t.txFromAddress in table
    ensures TableHolds(table[t.txFromAddress := AddTrade(table[t.txFromAddress], t.volumeInUsd.value, t.blockTimestamp)],
                       order, trades + [t])
  {
    var address := t.txFromAddress;
    var updated := table[address := AddTrade(table[address], t.volumeInUsd.value, t.blockTimestamp)];
    SummaryStep(trades, t, address);
    DedupSnoc(WhaleAddresses(trades), address);
    assert order == FirstSeenAddresses(trades + [t]);
    forall a | a in updated ensures updated[a] == Summary(trades + [t], a) {
      SummaryStep(trades, t, a);
    }
  }

  lemma InsertStep(table: map<string, WhaleTrader>, order: seq<string>, trades: seq<Trade>, t: Trade)
    requires TableHolds(table, order, trades) && IsWhaleTrade(t) && t.txFromAddress !in table
    ensures TableHolds(table[t.txFromAddress := WhaleTrader(t.txFromAddress, t.volumeInUsd.value, 1, t.blockTimestamp)],
                       order + [t.txFromAddress], trades + [t])
  {
    var address := t.txFromAddress;
    var updated := table[address := WhaleTrader(address, t.volumeInUsd.value, 1, t.blockTimestamp)];
    SummaryStep(trades, t, address);
    DedupSnoc(WhaleAddresses(trades), address);
    DedupMember(WhaleAddresses(trades), address);
    NoWhaleTradesIff(trades, address);
    assert order + [address] == FirstSeenAddresses(trades + [t]);
    assert Summary(trades, address) == WhaleTrader(address, 0.0, 0, "");
    forall a | a in updated ensures updated[a] == Summary(trades + [t], a) {
      SummaryStep(trades, t, a);
    }
  }

  /** `Array.from(table.values())`: the records of the table, in key order. */
  function ValuesInOrder(table: map<string, WhaleTrader>, order: seq<string>): (r: seq<WhaleTrader>)
    requires forall a :: a in order ==> a in table
    ensures |r| == |order| && forall k :: 0 <= k < |order| ==> r[k] == table[order[k]]
  {
    seq(|order|, k requires 0 <= k < |order| => table[order[k]])
  }

  /** Once the fold is done, `Array.from(values())` is the per-address statistics in first-seen order. */
  lemma ValuesInOrderIsTraders(table: map<string, WhaleTrader>, order: seq<string>, trades: seq<Trade>)
    requires TableHolds(table, order, trades)
    ensures ValuesInOrder(table, order) == TradersInFirstSeenOrder(trades)
  {
  }

  /** The Map and the order in which its keys were inserted. */
  datatype Table = Table(records: map<string, WhaleTrader>, order: seq<string>)

  /** The table after the `forEach` callback has run on every trade of `trades`, in order. */
  ghost function Fold(trades: seq<Trade>): Table {
    if trades == [] then Table(map[], [])
    else
      var tab := Fold(trades[..|trades| - 1]);
      var t := trades[|trades| - 1];
      var address := t.txFromAddress;
      if !IsWhaleTrade(t) then tab
      else if address in tab.records then
        Table(tab.records[address := AddTrade(tab.records[address], t.volumeInUsd.value, t.blockTimestamp)], tab.order)
      else
        Table(tab.records[address := WhaleTrader(address, t.volumeInUsd.value, 1, t.blockTimestamp)], tab.order + [address])
  }

  /** The folded table holds the statistics of every whale sender, keyed in first-seen order. */
  lemma {:induction false} FoldHolds(trades: seq<Trade>)
    ensures TableHolds(Fold(trades).records, Fold(trades).order, trades)
  {
    if trades != [] {
      var p, t := trades[..|trades| - 1], trades[|trades| - 1];
      assert trades == p + [t];
      FoldHolds(p);
      var tab := Fold(p);
      if !IsWhaleTrade(t) {
        SkipStep(tab.records, tab.order, p, t);
      } else if t.txFromAddress in tab.records {
        UpdateStep(tab.records, tab.order, p, t);
      } else {
        InsertStep(tab.records, tab.order, p, t);
      }
    }
  }

  /**
   * The table after every trade: the `forEach` over the trades with the Map
   * updated in place, then its values in insertion order.
   */
  method CollectWhaleTraders(trades: seq<Trade>) returns (traders: seq<WhaleTrader>)
    ensures traders == TradersInFirstSeenOrder(trades)
  {
    var table: map<string, WhaleTrader> := map[];
    var order: seq<string> := [];
    var i := 0;
    while i < |trades|
      invariant i <= |trades|
      invariant Fold(trades[..i]) == Table(table, order)
    {
      var t := trades[i];
      assert trades[..i + 1][..i] == trades[..i];
      if t.volumeInUsd.Some? && t.volumeInUsd.value > MIN_WHALE_VOLUME && t.txFromAddress != "" {
        var address, volume := t.txFromAddress, t.volumeInUsd.value;
        if address in table {
          table := table[address := AddTrade(table[address], volume, t.blockTimestamp)];
        } else {
          table := table[address := WhaleTrader(address, volume, 1, t.blockTimestamp)];
          order := order + [address];
        }
      }
      i := i + 1;
    }
    assert trades[..i] == trades;
    FoldHolds(trades);
    traders := ValuesInOrder(table, order);
    ValuesInOrderIsTraders(table, order, trades);
  }

  /** The per-pool branch: collect the traders, and emit an entry only when there is one. */
  method AggregatePool(networkId: string, pool: PoolInfo, trades: seq<Trade>) returns (entry: Option<WhalePool>)
    ensures entry == WhalePoolFor(networkId, pool, trades)
  {
    var traders := CollectWhaleTraders(trades);
    if |traders| > 0 {
      entry := Some(WhalePool(networkId, pool.name, pool.address, SortByVolume(traders)));
    } else {
      entry := None;
    }
  }

  /**
   * The table before sorting: one record per address that made a whale
   * trade and none for any other, each with at least one trade and with the
   * statistics of its own whale trades, listed in order of first whale trade.
   */
  lemma TradersInFirstSeenOrderFacts(trades: seq<Trade>)
    ensures var r := TradersInFirstSeenOrder(trades);
      && DistinctAddresses(r)
      && (forall k :: 0 <= k < |r| ==> r[k] == Summary(trades, r[k].address) && r[k].tradeCount >= 1)
      && (forall a :: a in FirstSeenAddresses(trades) <==>
            exists i :: 0 <= i < |trades| && IsWhaleTrade(trades[i]) && trades[i].txFromAddress == a)
      && (forall k :: 0 <= k < |r| ==> r[k].address == FirstSeenAddresses(trades)[k])
      && (forall j, k :: 0 <= j < k < |r| ==>
            && r[j].address in WhaleAddresses(trades) && r[k].address in WhaleAddresses(trades)
            && FirstIndex(WhaleAddresses(trades), r[j].address) < FirstIndex(WhaleAddresses(trades), r[k].address))
  {
    var order := FirstSeenAddresses(trades);
    DedupNoDuplicates(WhaleAddresses(trades));
    DedupSameElements(WhaleAddresses(trades));
    DedupFirstSeenOrder(WhaleAddresses(trades));
    forall a ensures a in order <==>
      exists i :: 0 <= i < |trades| && IsWhaleTrade(trades[i]) && trades[i].txFromAddress == a
    {
      WhaleAddressesMembers(trades, a);
    }
    forall k | 0 <= k < |order| ensures Summary(trades, order[k]).tradeCount >= 1 {
      NoWhaleTradesIff(trades, order[k]);
    }
  }

  /**
   * `lastTradeTimestamp` is the timestamp of the address's last whale trade
   * in input order, whatever the timestamps' own order.
   */
  lemma {:induction false} LastTimestampInInputOrder(trades: seq<Trade>, a: string, i: nat)
    requires i < |trades| && IsWhaleTrade(trades[i]) && trades[i].txFromAddress == a
    requires forall j :: i < j < |trades| ==> !(IsWhaleTrade(trades[j]) && trades[j].txFromAddress == a)
    ensures Summary(trades, a).tradeCount >= 1
    ensures Summary(trades, a).lastTradeTimestamp == trades[i].blockTimestamp
  {
    var p, t := trades[..|trades| - 1], trades[|trades| - 1];
    assert trades == p + [t];
    SummaryStep(p, t, a);
    if i < |trades| - 1 {
      LastTimestampInInputOrder(p, a, i);
    }
  }

  /**
   * The pool entry: present exactly when some trade qualifies; it carries
   * the network id, pool name and pool address; its traders are the table's
   * records, reordered into non-increasing volume with ties in table order.
   */
  lemma WhalePoolForFacts(networkId: string, pool: PoolInfo, trades: seq<Trade>)
    ensures WhalePoolFor(networkId, pool, trades).Some? <==>
      exists i :: 0 <= i < |trades| && IsWhaleTrade(trades[i])
    ensures WhalePoolFor(networkId, pool, trades).Some? ==>
      var e := WhalePoolFor(networkId, pool, trades).value;
      var unsorted := TradersInFirstSeenOrder(trades);
      && e.network == networkId && e.name == pool.name && e.address == pool.address
      && |e.whaleTraders| >= 1
      && VolumeDescending(e.whaleTraders)
      && DistinctAddresses(e.whaleTraders)
      && multiset(e.whaleTraders) == multiset(unsorted)
      && (forall v :: WithVolume(e.whaleTraders, v) == WithVolume(unsorted, v))
      && (forall w :: w in e.whaleTraders ==> w == Summary(trades, w.address) && w.tradeCount >= 1)
  {
    var unsorted := TradersInFirstSeenOrder(trades);
    TradersInFirstSeenOrderFacts(trades);
    if exists i :: 0 <= i < |trades| && IsWhaleTrade(trades[i]) {
      var i :| 0 <= i < |trades| && IsWhaleTrade(trades[i]);
      assert trades[i].txFromAddress in FirstSeenAddresses(trades);
    }
    if |unsorted| > 0 {
      assert unsorted[0].address in FirstSeenAddresses(trades);
      var sorted := SortByVolume(unsorted);
      SortPermutes(unsorted);
      SortIsDescending(unsorted);
      SortKeepsDistinctAddresses(unsorted);
      forall v ensures WithVolume(sorted, v) == WithVolume(unsorted, v) {
        SortIsStable(unsorted, v);
      }
      forall w | w in sorted ensures w == Summary(trades, w.address) && w.tradeCount >= 1 {
        assert w in multiset(unsorted);
      }
      assert sorted != [] by {
        assert unsorted[0] in multiset(sorted);
      }
    }
  }

  /** Trades at or below the threshold yield no entry, e.g. one 5,000 USD trade. */
  lemma SmallTradeYieldsNoEntry(networkId: string, pool: PoolInfo, ts: string, kind: string, a: string)
    ensures WhalePoolFor(networkId, pool, [Trade(Some(5000.0), ts, kind, a)]) == None
  {
    WhalePoolForFacts(networkId, pool, [Trade(Some(5000.0), ts, kind, a)]);
  }

  /** When a single address made whale trades, the entry holds its record alone. */
  lemma OneTraderEntry(networkId: string, pool: PoolInfo, trades: seq<Trade>, a: string)
    requires FirstSeenAddresses(trades) == [a]
    ensures WhalePoolFor(networkId, pool, trades) ==
      Some(WhalePool(networkId, pool.name, pool.address, [Summary(trades, a)]))
  {
    var w := Summary(trades, a);
    var traders := TradersInFirstSeenOrder(trades);
    assert |traders| == 1 && traders[0] == w;
    assert traders == [w];
    assert [w][1..] == [];
    assert SortByVolume([w]) == InsertByVolume(w, []);
  }

  /**
   * Two whale trades of 15,000 and 20,000 USD from one address, the second
   * listed with the earlier timestamp: one record with volume 35,000, two
   * trades, and the second trade's timestamp (the last in input order, not
   * the latest in time).
   */
  lemma TwoTradesOfOneAddress(networkId: string, pool: PoolInfo, a: string, t1: Trade, t2: Trade)
    requires a != ""
    requires t1 == Trade(Some(15000.0), "2024-01-02T00:00:00Z", "buy", a)
    requires t2 == Trade(Some(20000.0), "2024-01-01T00:00:00Z", "sell", a)
    ensures WhalePoolFor(networkId, pool, [t1, t2]) ==
      Some(WhalePool(networkId, pool.name, pool.address, [WhaleTrader(a, 35000.0, 2, t2.blockTimestamp)]))
  {
    SummaryStep([], t1, a);
    assert [] + [t1] == [t1];
    assert WhaleAddresses([t1]) == [a];
    assert Summary([t1], a) == WhaleTrader(a, 15000.0, 1, t1.blockTimestamp);
    SummaryStep([t1], t2, a);
    assert [t1] + [t2] == [t1, t2];
    assert WhaleAddresses([t1, t2]) == [a, a];
    assert Summary([t1, t2], a) == WhaleTrader(a, 35000.0, 2, t2.blockTimestamp);
    DedupSnoc([], a);
    assert [] + [a] == [a];
    DedupSnoc([a], a);
    assert [a] + [a] == [a, a];
    OneTraderEntry(networkId, pool, [t1, t2], a);
  }

  /** A single qualifying trade yields an entry with one record: its sender, its volume, one trade, its timestamp. */
  lemma SingleWhaleTrade(networkId: string, pool: PoolInfo, t: Trade)
    requires IsWhaleTrade(t)
    ensures WhalePoolFor(networkId, pool, [t]) ==
      Some(WhalePool(networkId, pool.name, pool.address,
                     [WhaleTrader(t.txFromAddress, t.volumeInUsd.value, 1, t.blockTimestamp)]))
  {
    var a := t.txFromAddress;
    SummaryStep([], t, a);
    assert [] + [t] == [t];
    assert WhaleAddresses([t]) == [a];
    assert Summary([t], a) == WhaleTrader(a, t.volumeInUsd.value, 1, t.blockTimestamp);
    DedupSnoc([], a);
    assert [] + [a] == [a];
    OneTraderEntry(networkId, pool, [t], a);
  }
}
