# Whale-trade indexer, modelled in Dafny

This project models the two batch indexers of a whale-tracking dashboard.

- **The whale-pool indexer** (`indexWhalePools`) does the following:
  - It walks the networks an upstream market-data API lists.
  - It takes the first 30 pools of each network and fetches each pool's trades.
  - It folds the trades into one record per trader address, counting only trades above 10,000 USD.
  - It sorts the records by total volume.
  - It appends every pool that has a whale trader to a snapshot, which is written after every network and once at the end.
- **The wallet-holdings indexer** (`indexWalletHoldings`) does the following:
  - It reads that snapshot and groups the whale traders' addresses by network, each address once, in first-seen order.
  - For every wallet, it does one of two things:
    - it skips the wallet when the stored data is less than 24 hours old;
    - otherwise it fetches the wallet's holdings, totals their USD value, writes the wallet's file and pauses 2 seconds.
  - A failing wallet is logged and skipped.
- Both indexers wrap each upstream call in `fetchWithRetry`. It retries a connection reset, a connection timeout or an HTTP 429. It makes at most 3 retries and waits 5, 10 and then 20 seconds before them.

Everything outside the program is modelled as an oracle:

- An upstream call is `Operation<T> = nat -> Attempt<T>`, which gives the outcome of the call's k-th attempt.
- The wallet indexer's file reads, writes and clock readings are functions of (network, wallet address).
- Waits are not performed. They are returned as the sequence of requested durations.
- The files the pool indexer writes are returned as the sequence of written snapshots (`checkpoints`).

The modules follow the program's structure:

| file | module | models |
|---|---|---|
| `wrappers.dfy` | `Wrappers` | `Option`, `Result` |
| `sequences.dfy` | `Sequences` | order-preserving de-duplication. It is the insertion order of the trader Map and the `includes`/`push` of the wallet lists. |
| `retry.dfy` | `Retry` | `fetchWithRetry`. Both scripts carry identical copies of it. |
| `whale_types.dfy` | `WhaleTypes` | trades, whale traders, pools, snapshot entries |
| `trader_order.dfy` | `TraderOrder` | the stable descending sort by total volume |
| `aggregation.dfy` | `WhaleAggregation` | one pool's trades folded into a Map, then the pool's snapshot entry |
| `pool_walker.dfy` | `PoolWalker` | the network and pool loops, failure isolation, checkpoints |
| `wallet_holdings.dfy` | `WalletHoldings` | grouping by network, freshness, the total, the wallet loop |

How each part is modelled:

- **Imperative code becomes methods.** Each is proved against a specification function:
  - the retry loop, `FetchWithRetry`, against `RetryFrom`;
  - the trade fold, `CollectWhaleTraders`, against `Fold` and `TradersInFirstSeenOrder`;
  - the walker, `ProcessNetwork`, `WalkNetworks` and `IndexWhalePools`, against `PoolsWith`, `NetworkProgress` and `RunOver`;
  - the grouping, `GroupWalletsByNetwork` and `AppendNewAddresses`, against `Dedup`, `NetworksOf` and `AddressesOn`;
  - the wallet loop, `ProcessWallet`, `ProcessNetworkWallets` and `VisitNetworks`, against `VisitWallet` and `NetworkVisits`.
- **The sort becomes a pure function.** The comparator `(a, b) => b.totalVolume - a.totalVolume` is written as an insertion sort, `SortByVolume`. It is proved to be a permutation, to be non-increasing and to be stable.
- **The value reduce and the freshness test stay pure.** `TotalValue` and `IsFresh` are expressions in the source as well.

Four behaviours of the code that a reader might not expect are kept as written:

- The 2-second rate-limit pause comes after every pool, failed pools included (`index-whale-pools.ts:155-156`). There is no separate pause per network.
- The snapshot is appended to without any check for duplicates. If the upstream lists one pool twice, the snapshot gets two entries for it.
- A pool record without `attributes` throws at `index-whale-pools.ts:98`, outside the per-pool `try`. The network-level handler catches it, so it ends that network's pool loop. The entries already appended are kept, and the checkpoint is still written.
- A null or undefined network entry throws at `index-whale-pools.ts:85`, before the per-network `try` that starts at line 88. The outer handler (lines 173-175) exits the process: later networks are not visited, and there is no final write. The checkpoints of the earlier networks stay written.

Each run of the pool indexer starts from an empty snapshot and overwrites `whalePools.json`. Nothing is merged from an earlier run.

## Model

| member | source | states |
|---|---|---|
| Retry.IsRetryable | src/scripts/index-whale-pools.ts:49-53 | Definition: a connection reset, a connection timeout or an HTTP 429 is retried, and no other error is. `RetryStep` and `NonRetryableFailsImmediately` state what follows from it. |
| Retry.Backoff | src/scripts/index-whale-pools.ts:54 | Definition: the wait before retry k+1 is 5000 · 2^k ms. `BackoffAtLeastRetryDelay` states its bound and doubling. |
| Retry.RetryFrom | src/scripts/index-whale-pools.ts:41-62 | Definition: the recursive `fetchWithRetry` from a given retry counter. `RetryWaitsCharacterized`, `RetryResultCharacterized` and `WaitsFollowSchedule` state what it returns. |
| Retry.Fetch | src/scripts/index-whale-pools.ts:41-44 | Definition: a top-level call, with the default `retryCount = 0`. `WaitsFollowSchedule` and `RetryResultCharacterized` state what it returns. |
| Retry.FetchWithRetry | src/scripts/index-whale-pools.ts:41-62 | The loop returns exactly the result and the waits of the recursive definition. There are at most MAX_RETRIES = 3 waits, and wait i is 5000·2^i ms. |
| Retry.RetryStep | src/scripts/index-whale-pools.ts:49-58 | A connection reset, a timeout or a 429 with retries left gives the next call's result, after one wait of 5000·2^retryCount. |
| Retry.RetryStops | src/scripts/index-whale-pools.ts:46-60 | A success, or a failure that is not retryable or comes after the last retry, ends the fetch with that outcome and adds no wait. |
| Retry.RetryContinues | src/scripts/index-whale-pools.ts:54-58 | A retried call appends its back-off to the waits and hands over to the next call. This is the loop's invariant step. |
| Retry.RetryWaitsCharacterized | src/scripts/index-wallet-holdings.ts:55-64 | Wait i is Backoff(k+i). The call before it failed with a retryable error. There are no more than MAX_RETRIES − k waits. |
| Retry.RetryWaitAt | src/scripts/index-whale-pools.ts:54-58 | Helper for `RetryWaitsCharacterized`: the same facts for a single wait. |
| Retry.RetryResultCharacterized | src/scripts/index-wallet-holdings.ts:51-67 | The result is that of the last call: a success iff that call succeeded, with its value, or else its error. A failure is thrown only when it is not retryable or the retries are used up. |
| Retry.WaitsFollowSchedule | src/scripts/index-whale-pools.ts:49-58 | The waits of a fetch are a prefix of [5000, 10000, 20000], so at most four calls are made. |
| Retry.BackoffAtLeastRetryDelay | src/scripts/index-whale-pools.ts:54 | Every back-off is at least 5000 ms and doubles from one retry to the next. |
| Retry.NonRetryableFailsImmediately | src/scripts/index-whale-pools.ts:60 | A non-retryable first failure is thrown at once, with no wait. |
| Retry.FirstCallSucceeds | src/scripts/index-whale-pools.ts:46-47 | A first call that succeeds is returned at once, with no wait. |
| Retry.TwoTimeoutsThenSuccess | src/scripts/index-whale-pools.ts:49-58 | Two timeouts, then a success: the value is returned after waits of exactly 5 s and 10 s. |
| Retry.RateLimitedFourTimes | src/scripts/index-whale-pools.ts:49-60 | Four 429 answers: the fourth is thrown after waits of 5, 10 and 20 s. |
| Sequences.Dedup | src/scripts/index-wallet-holdings.ts:217-221 | Definition: the list with each element kept at its first occurrence. This is the result of the `includes`/`push` loop, and the key order of the trader Map (index-whale-pools.ts:123). `DedupSnoc`, `DedupSameElements`, `DedupNoDuplicates` and `DedupFirstSeenOrder` state its properties. |
| Sequences.FirstIndex | src/scripts/index-wallet-holdings.ts:217-221 | Helper for stating first-seen order. The source has no index here: `includes` only tests membership. The result is a position that holds the element, and no earlier position holds it. |
| Sequences.DedupSnoc | src/scripts/index-wallet-holdings.ts:218-219 | Appending an element grows the de-duplicated list iff the element is new. This is `includes` then `push`. |
| Sequences.DedupSameElements | src/scripts/index-wallet-holdings.ts:217-221 | The de-duplicated list has exactly the elements of its input. |
| Sequences.DedupMember | src/scripts/index-wallet-holdings.ts:217-221 | The same fact for one element. |
| Sequences.DedupNoDuplicates | src/scripts/index-wallet-holdings.ts:218 | The de-duplicated list has no repetitions. |
| Sequences.FirstIndexPrefix | src/scripts/index-wallet-holdings.ts:217-221 | Helper for the ordering proofs: extending a list does not move an element's first occurrence. |
| Sequences.DedupPairOrder | src/scripts/index-wallet-holdings.ts:217-221 | Of two listed elements, the earlier one first occurs earlier in the input. |
| Sequences.DedupFirstSeenOrder | src/scripts/index-whale-pools.ts:123 | The de-duplicated list keeps first-seen order. This is the insertion order of the trader Map. |
| TraderOrder.InsertByVolume | src/scripts/index-whale-pools.ts:137-138 | Definition: one insertion step of the sort by `b.totalVolume - a.totalVolume`. The `Insert…` lemmas below state its properties. |
| TraderOrder.SortByVolume | src/scripts/index-whale-pools.ts:137-138 | Definition: the sort of the Map's values, as an insertion sort. The `Sort…` lemmas below state that it is a stable, non-increasing permutation. |
| TraderOrder.InsertPermutes | src/scripts/index-whale-pools.ts:137-138 | Inserting one trader adds exactly that trader to the multiset. |
| TraderOrder.InsertElements | src/scripts/index-whale-pools.ts:137-138 | Inserting adds the trader and nothing else. |
| TraderOrder.InsertKeepsDescending | src/scripts/index-whale-pools.ts:138 | Inserting into a non-increasing list keeps it non-increasing. |
| TraderOrder.InsertFiltersByVolume | src/scripts/index-whale-pools.ts:138 | The inserted trader goes in front of every trader of equal volume. |
| TraderOrder.SortPermutes | src/scripts/index-whale-pools.ts:137-138 | The sorted traders are a permutation of the Map's values. |
| TraderOrder.SortIsDescending | src/scripts/index-whale-pools.ts:138 | The sorted traders are non-increasing in total volume. |
| TraderOrder.SortIsStable | src/scripts/index-whale-pools.ts:137-138 | For every volume, the traders sharing it keep their Map order. |
| TraderOrder.SortKeepsDistinctAddresses | src/scripts/index-whale-pools.ts:137-138 | Sorting keeps one record per address. |
| TraderOrder.DistinctAddressesOccurOnce | src/scripts/index-whale-pools.ts:117-128 | Helper for the sort proofs: in a list with distinct addresses, a record occurs once and is the only one with its address. |
| TraderOrder.TwoPositionsCountTwice | src/scripts/index-whale-pools.ts:137-138 | Helper for the permutation proofs: a record at two positions occurs at least twice in the multiset. |
| WhaleAggregation.IsWhaleTrade | src/scripts/index-whale-pools.ts:113-116 | Definition: a trade counts iff its parsed volume exists (not NaN), exceeds 10,000 USD and its sender is non-empty. `WhaleAddressesMembers` and `SmallTradeYieldsNoEntry` state its consequences. |
| WhaleAggregation.Summary | src/scripts/index-whale-pools.ts:117-128 | Definition: an address's statistics over the whale trades it sent: the summed volume, their number and the last one's timestamp. `SummaryStep` and `LastTimestampInInputOrder` state how it grows. |
| WhaleAggregation.SummaryStep | src/scripts/index-whale-pools.ts:113-128 | One more trade: a qualifying one adds its volume and one trade to its sender and overwrites the sender's last timestamp. Any other trade changes nothing. |
| WhaleAggregation.NoWhaleTradesIff | src/scripts/index-whale-pools.ts:116-117 | An address has no whale trade iff it is not among the whale senders. |
| WhaleAggregation.WhaleAddressesMembers | src/scripts/index-whale-pools.ts:113-116 | The whale senders are exactly the senders of trades whose parsed volume exists and exceeds 10,000 and whose address is non-empty. |
| WhaleAggregation.SkipStep | src/scripts/index-whale-pools.ts:116 | A trade that does not qualify keeps the table invariant with the table unchanged. |
| WhaleAggregation.AddTrade | src/scripts/index-whale-pools.ts:118-121 | Definition: the in-place update of an existing record. `AddTradeIsSummaryStep` and `UpdateStep` state what it preserves. |
| WhaleAggregation.AddTradeIsSummaryStep | src/scripts/index-whale-pools.ts:117-121 | For a whale trade whose sender already has a record, the in-place update (`totalVolume += volume`, `tradeCount += 1`, `lastTradeTimestamp = timestamp`) turns the sender's statistics over the earlier trades into its statistics over the trades including this one. |
| WhaleAggregation.UpdateStep | src/scripts/index-whale-pools.ts:117-121 | Updating an existing record keeps the table invariant: the statistics per address and the key order. |
| WhaleAggregation.InsertStep | src/scripts/index-whale-pools.ts:122-128 | `set` of a new record (volume, count 1, timestamp) keeps the invariant and appends the address to the key order. |
| WhaleAggregation.TradersInFirstSeenOrder | src/scripts/index-whale-pools.ts:109-137 | Definition: the reference list of the fold, with the Summary of each whale sender in first-seen order. `TradersInFirstSeenOrderFacts` and `LastTimestampInInputOrder` state its contents. |
| WhaleAggregation.ValuesInOrder | src/scripts/index-whale-pools.ts:137 | Definition: `Array.from(whaleTraders.values())`, the record of each key in key order. `ValuesInOrderIsTraders` states what it holds after the fold. |
| WhaleAggregation.ValuesInOrderIsTraders | src/scripts/index-whale-pools.ts:137 | Once the Map holds the fold of all the trades, `Array.from(values())` is exactly one record per whale sender, in first-seen order: the list `TradersInFirstSeenOrder` describes. |
| WhaleAggregation.Fold | src/scripts/index-whale-pools.ts:109-131 | Definition (ghost): the Map and its key order after the `forEach` over a prefix of the trades. `FoldHolds` states what it holds. |
| WhaleAggregation.FoldHolds | src/scripts/index-whale-pools.ts:109-131 | After the `forEach`, the Map holds Summary(trades, a) for exactly the whale senders, keyed in first-seen order. |
| WhaleAggregation.CollectWhaleTraders | src/scripts/index-whale-pools.ts:109-137 | The loop over the trades, with the Map updated in place, yields one record per whale sender in first-seen order, each that sender's Summary. |
| WhaleAggregation.WhalePoolFor | src/scripts/index-whale-pools.ts:133-149 | Definition: a pool's snapshot entry, present iff some trader qualifies. `WhalePoolForFacts` states its contents. |
| WhaleAggregation.AggregatePool | src/scripts/index-whale-pools.ts:133-149 | The pool yields the entry defined by `WhalePoolFor`: none without whale traders, otherwise the sorted traders. |
| WhaleAggregation.TradersInFirstSeenOrderFacts | src/scripts/index-whale-pools.ts:117-129 | There is one record per address, every record has tradeCount ≥ 1, and each holds the sum and count of its sender's qualifying trades. Exactly the senders of qualifying trades are listed, in order of first whale trade. |
| WhaleAggregation.LastTimestampInInputOrder | src/scripts/index-whale-pools.ts:121-127 | lastTradeTimestamp is the timestamp of the sender's last qualifying trade in input order, whatever the timestamps say. |
| WhaleAggregation.WhalePoolForFacts | src/scripts/index-whale-pools.ts:133-145 | An entry exists iff some trade qualifies. It carries the network id, the pool name and the pool address. Its traders are at least one, non-increasing, stable, one per address, and a permutation of the Map's values. |
| WhaleAggregation.SmallTradeYieldsNoEntry | src/scripts/index-whale-pools.ts:116 | A single 5,000 USD trade yields no entry. |
| WhaleAggregation.OneTraderEntry | src/scripts/index-whale-pools.ts:133-145 | With one whale sender, the entry holds that sender's record alone. |
| WhaleAggregation.TwoTradesOfOneAddress | src/scripts/index-whale-pools.ts:117-121 | Trades of 15,000 and 20,000 USD from one address give 35,000 USD, 2 trades, and the second trade's (earlier) timestamp. |
| WhaleAggregation.SingleWhaleTrade | src/scripts/index-whale-pools.ts:122-128 | One qualifying trade gives one record: its sender, its volume, one trade, its timestamp. |
| PoolWalker.TopPools | src/scripts/index-whale-pools.ts:94 | `pools.slice(0, 30)`: a prefix of the listed pools, the whole list when it has at most 30 records, and exactly its first 30 otherwise. |
| PoolWalker.PoolContribution | src/scripts/index-whale-pools.ts:101-153 | Definition: what one pool appends. `PoolContributionFacts` and `ProcessPool` state it. |
| PoolWalker.PoolsWith | src/scripts/index-whale-pools.ts:97-157 | Definition: the pool loop, up to the end of the list or the first record without attributes. `PoolsWithAt`, `PoolsWithStep` and `PoolsFromFacts` state it. |
| PoolWalker.NetworkProgress | src/scripts/index-whale-pools.ts:88-161 | Definition: what one network's `try` appends and how many pauses it takes. `NetworkFacts` and `ProcessNetwork` state it. |
| PoolWalker.ListedNetworks | src/scripts/index-whale-pools.ts:84-85 | The networks the loop reaches: the entries up to the first null one. Each is the entry at its position, and when the list is cut short, the entry after the last one is null. |
| PoolWalker.RunOver | src/scripts/index-whale-pools.ts:84-167 | Definition: the network loop over the reached networks. `SnapshotOnlyGrows`, `CheckpointsArePrefixes` and `SnapshotEntriesFacts` state its properties. |
| PoolWalker.PoolsWithAt | src/scripts/index-whale-pools.ts:97-99 | The pool loop ends at the end of the list or at a record without attributes, adding nothing. |
| PoolWalker.PoolsWithStep | src/scripts/index-whale-pools.ts:97-157 | One turn of the pool loop appends the pool's contribution and one pause. This is the invariant step. |
| PoolWalker.ProcessPool | src/scripts/index-whale-pools.ts:101-153 | The per-pool `try` yields the pool's contribution: nothing when its trades cannot be fetched. |
| PoolWalker.ProcessNetwork | src/scripts/index-whale-pools.ts:88-161 | The network's `try` appends exactly the network's entries to the snapshot and takes exactly its pauses. A failed pool list appends nothing. |
| PoolWalker.WalkNetworks | src/scripts/index-whale-pools.ts:84-167 | The network loop builds the snapshot of the networks it reaches. Checkpoint k is the snapshot of networks 0..k, written after network k even when that network failed. A null network entry throws at `network.id` (line 85), outside the per-network `try`, and stops the loop with no checkpoint for it. |
| PoolWalker.IndexWhalePools | src/scripts/index-whale-pools.ts:64-177 | A failed network-list fetch is fatal and writes nothing. Otherwise there is one checkpoint per network reached. When every entry is a network, the run completes with the final write, which equals the snapshot. When one is null, the run is fatal at that index, and there is no final write. |
| PoolWalker.WalkSnoc | src/scripts/index-whale-pools.ts:84-167 | Helper for the loop invariants: walking n+1 networks is walking n, then network n. |
| PoolWalker.RunOverSnoc | src/scripts/index-whale-pools.ts:84-167 | Helper for the loop invariants: the same, for the indexer's own walk. |
| PoolWalker.WalkOnlyGrows | src/scripts/index-whale-pools.ts:140-145 | A walk over fewer networks gives a prefix of a walk over more. |
| PoolWalker.SnapshotOnlyGrows | src/scripts/index-whale-pools.ts:140-145 | The snapshot only grows by appending: an earlier state is a prefix of a later one. |
| PoolWalker.CheckpointsArePrefixes | src/scripts/index-whale-pools.ts:163-171 | Every checkpoint is a prefix of the final snapshot. |
| PoolWalker.PoolContributionFacts | src/scripts/index-whale-pools.ts:133-153 | A pool appends at most one entry. It appends one iff its trades were fetched and one qualifies, and the entry carries the network id, the pool name and the pool address. |
| PoolWalker.PoolsFromFacts | src/scripts/index-whale-pools.ts:97-157 | The pool loop appends only entries of its own pools. It pauses at most once per pool, and exactly once per pool when every record has its attributes. |
| PoolWalker.NetworkFacts | src/scripts/index-whale-pools.ts:88-96 | A network examines exactly the first min(n, 30) pools listed: one pause each when none lacks its attributes, and never more. It appends only when its pool list was fetched, and only entries of those pools. |
| PoolWalker.SnapshotEntriesFacts | src/scripts/index-whale-pools.ts:84-167 | Every snapshot entry comes from a listed network and from one of that network's first 30 pools. It is sorted and has one record per address. |
| PoolWalker.WalkTwo | src/scripts/index-whale-pools.ts:84 | A walk over one and over two networks. |
| PoolWalker.OnePoolNetwork | src/scripts/index-whale-pools.ts:90-157 | A network that lists one pool adds that pool's contribution and one pause. |
| PoolWalker.FetchedPoolContribution | src/scripts/index-whale-pools.ts:103-149 | A pool whose trades are fetched at once contributes its aggregated entry, if there is one. |
| PoolWalker.TwoNetworkScenario | src/scripts/index-whale-pools.ts:84-171 | A network with a 50,000 USD trade and one with a 9,000 USD trade: the snapshot is the first pool alone. It is already in the first checkpoint, and two pauses are taken. |
| WalletHoldings.NetworksOf | src/scripts/index-wallet-holdings.ts:210-211 | The network of every snapshot pool, in order. |
| WalletHoldings.TraderAddresses | src/scripts/index-wallet-holdings.ts:217-218 | The address of every whale trader of a pool, in order. |
| WalletHoldings.WalletsOf | src/scripts/index-wallet-holdings.ts:208-222 | Definition: `walletsByNetwork[network]`, the de-duplicated whale-trader addresses of the network's pools. `WalletGroupingFacts` and `AddressesOnMember` state its contents. |
| WalletHoldings.IsFresh | src/scripts/index-wallet-holdings.ts:259 | Definition: stored data whose `last_updated` lies within the last 24 hours. `FreshnessWindow` states the window. |
| WalletHoldings.TotalValue | src/scripts/index-wallet-holdings.ts:272 | Definition: the `reduce` from 0, as a left fold. `TotalValueIsSum` and `TotalValueNonNegative` state it. |
| WalletHoldings.VisitWallet | src/scripts/index-wallet-holdings.ts:246-292 | Definition: one wallet's turn. `VisitFacts`, `PauseOnlyAfterSave` and `FreshSkipIgnoresFetchAndWrite` state its cases. |
| WalletHoldings.TotalValueAppend | src/scripts/index-wallet-holdings.ts:272 | Helper for `TotalValueIsSum`: the value total of two lists of holdings is the sum of their totals. |
| WalletHoldings.TotalValueIsSum | src/scripts/index-wallet-holdings.ts:272 | total_value_usd is the sum of value_usd over the holdings, and 0 for no holdings. |
| WalletHoldings.TotalValueNonNegative | src/scripts/index-wallet-holdings.ts:272 | No negative-valued holding means a non-negative total. |
| WalletHoldings.FreshnessWindow | src/scripts/index-wallet-holdings.ts:259 | Data saved at t is fresh exactly while now < t + 24 h. A missing file or an unparseable date is never fresh. |
| WalletHoldings.VisitFacts | src/scripts/index-wallet-holdings.ts:246-292 | A wallet is skipped, with no wait, iff its data is fresh. Otherwise a failed fetch, a failed write or a save follows. A written record has the wallet, the network, the fetched holdings, their sum and the visit's time. |
| WalletHoldings.FreshSkipIgnoresFetchAndWrite | src/scripts/index-wallet-holdings.ts:257-262 | A fresh wallet's turn does not depend on the holdings API or on the write: nothing is fetched or written. |
| WalletHoldings.PauseOnlyAfterSave | src/scripts/index-wallet-holdings.ts:284-288 | A turn ends with the 2000 ms pause iff the wallet was saved, and no other wait of any turn is 2000 ms. A turn that was not skipped waits for its holdings fetch's retry back-offs, then for the pause only after a save. Every other wait is a back-off Backoff(i), and a turn has at most four waits. |
| WalletHoldings.AddressesOnSnoc | src/scripts/index-wallet-holdings.ts:210-221 | One more pool adds its traders to its own network's list and to no other. |
| WalletHoldings.AddressesOnAbsent | src/scripts/index-wallet-holdings.ts:213-215 | A network no pool names has no wallets. |
| WalletHoldings.AddressesOnMember | src/scripts/index-wallet-holdings.ts:208-222 | An address is listed under a network iff some pool of that network has it as a whale trader. |
| WalletHoldings.NetworkGroupingFacts | src/scripts/index-wallet-holdings.ts:210-215 | The keys: each network once, exactly those a pool names, in first-seen order. |
| WalletHoldings.WalletGroupingFacts | src/scripts/index-wallet-holdings.ts:217-221 | A network's list: each address once, exactly the whale traders of its pools, in first-seen order. |
| WalletHoldings.NetworkVisitsEach | src/scripts/index-wallet-holdings.ts:289-292 | Failure isolation: one turn per wallet, each the turn that wallet would have alone, whatever became of the earlier ones. |
| WalletHoldings.ProcessWallet | src/scripts/index-wallet-holdings.ts:246-292 | The loop body (read, clock, skip, fetch with retry, total, write, pause) produces `VisitWallet`. |
| WalletHoldings.NetworkVisits | src/scripts/index-wallet-holdings.ts:233-293 | Definition: the wallet loop of one network, turn by turn. `NetworkVisitsEach` states that each turn is the one that wallet would have alone. |
| WalletHoldings.ProcessNetworkWallets | src/scripts/index-wallet-holdings.ts:233-293 | The wallet loop produces `NetworkVisits`: every wallet gets its turn, in order. |
| WalletHoldings.AppendNewAddresses | src/scripts/index-wallet-holdings.ts:217-221 | The inner `forEach` extends a de-duplicated list with the pool's new addresses, keeping first-seen order. |
| WalletHoldings.GroupWalletsByNetwork | src/scripts/index-wallet-holdings.ts:208-222 | The keys are created in first-seen network order. Each key's list is the de-duplicated, first-seen-ordered list of that network's trader addresses. |
| WalletHoldings.VisitNetworks | src/scripts/index-wallet-holdings.ts:225-296 | The network loop gives each network, in key order, the turns of all its wallets. |
| WalletHoldings.IndexWalletHoldings | src/scripts/index-wallet-holdings.ts:190-303 | With no readable snapshot the run stops with nothing done. Otherwise every network is visited once, in first-seen order, with the turns of all its wallets. |

## Left out

- File-system I/O and JSON:
  - `ensureDirectoryExists` and a failing `mkdir`, which is fatal in both scripts.
  - The pool indexer's `writeFile`: a failed checkpoint write would be fatal.
  - Reading and parsing a wallet's file. It becomes the `stored` oracle, where None means missing or unreadable.
  - A failing `readFile` or `JSON.parse` of the snapshot, or a snapshot that is not an array. These are the single None case of `IndexWalletHoldings`.
- Console logging and `process.exit`. A fatal error becomes the `Fatal` or `MalformedNetwork` outcome, or `completed == false`.
- Real time:
  - `delay` only records the requested duration.
  - `new Date()` is the `clock` oracle, read once per wallet.
  - `last_updated` is kept as milliseconds, not as an ISO string.
- The HTTP layer (`fetchNetworks`, `fetchPoolsByNetwork`, `fetchTrades`). These are oracles keyed by network and pool address, so a pool listed twice gets the same answer twice. A failure is an abstract `FetchError`. A trade record without `attributes` throws inside the `forEach`, which the pool's handler catches like a failed fetch, so it is folded into the trades oracle's failure.
- The mock `fetchWalletHoldings` (`index-wallet-holdings.ts:72-188`). Its output is pseudo-random floating point with a comparator-based shuffle, so it becomes the `holdings` oracle.
- IEEE floating point. Volumes and values are `real`:
  - rounding in the sums is not modelled;
  - `parseFloat` is an `Option<real>`, with None for NaN;
  - a sort comparator returning NaN, or infinite volumes, cannot arise.
- JavaScript object-key quirks in `walletsByNetwork`:
  - integer-like network ids would be enumerated before the others by `Object.entries`;
  - ids such as `__proto__` or `constructor` would clash with `Object.prototype`.
  - The model uses a map with key-creation order.
- The pool indexer's entries are added to the snapshot after each network's pool loop rather than at each `push`. Nothing observes the snapshot in between: the write comes after the loop, and a fatal error ends the process.
- `PoolWalker.IndexWhalePools` and `PoolWalker.WalkNetworks` do not return the retry waits inside the pool indexer. They count only its rate-limit pauses. The retry waits are specified once, in `Retry.FetchWithRetry`.
- The wallet file name's `solana` branch (`index-wallet-holdings.ts:238-244`). Both branches build the same path.
