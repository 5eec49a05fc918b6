/**
 * `indexWhalePools`: fetch the network list (a failure there is fatal),
 * then for each network fetch its pools, keep the first POOL_LIMIT, fetch
 * each pool's trades and append the pool's entry when it has whale traders.
 * A failing pool or network is skipped; the whole snapshot is written after
 * every network and once more at the end. Each upstream call goes through
 * `fetchWithRetry`.
 */
module PoolWalker {
  import opened Wrappers
  import opened Retry
  import opened WhaleTypes
  import opened WhaleAggregation

  const POOL_LIMIT: nat := 30
  const RATE_LIMIT_DELAY: nat := 2000  // milliseconds, taken after every pool

  datatype Network = Network(id: string)

  /**
   * An entry of the network list as returned: None for a null or undefined
   * entry, whose `network.id` throws before the per-network `try`.
   */
  type NetworkRecord = Option<Network>

  /** A pool record as listed: None when it has no `attributes` object, so that reading its name throws. */
  type PoolRecord = Option<PoolInfo>

  /**
   * The upstream API as oracles: the network list, the pool list of a
   * network, and the trades of a (network, pool address).
   */
  datatype Upstream = Upstream(
    networks: Operation<seq<NetworkRecord>>,
    pools: string -> Operation<seq<PoolRecord>>,
    trades: (string, string) -> Operation<seq<Trade>>)

  /**
   * How a run ends: normally, with the network list unobtainable, or with
   * the TypeError thrown by the network entry at `index` (both are fatal:
   * the outer handler exits the process).
   */
  datatype RunOutcome = Completed | Fatal(error: FetchError) | MalformedNetwork(index: nat)

  /** What a stretch of the walk appended to the snapshot, and how many rate-limit pauses it took. */
  datatype Progress = Progress(entries: seq<WhalePool>, pauses: nat)

  /** `pools.slice(0, POOL_LIMIT)` */
  function TopPools(pools: seq<PoolRecord>): (r: seq<PoolRecord>)
    ensures r <= pools
    ensures |r| <= POOL_LIMIT
    ensures |pools| <= POOL_LIMIT ==> r == pools
    ensures |pools| > POOL_LIMIT ==> |r| == POOL_LIMIT
  {
    if |pools| <= POOL_LIMIT then pools else pools[..POOL_LIMIT]
  }

  /** What one pool appends: nothing when its trades cannot be fetched or hold no whale trade. */
  function PoolContribution(up: Upstream, networkId: string, pool: PoolInfo): seq<WhalePool> {
    match Fetch(up.trades(networkId, pool.address)).result
    case Failure(_) => []
    case Success(trades) =>
      match WhalePoolFor(networkId, pool, trades)
      case None => []
      case Some(entry) => [entry]
  }

  /**
   * The pool loop from `pools[0]` on, where pool p appends `contribute(p)`.
   * Every pool is followed by a pause; a record without attributes throws
   * before its `try`, which ends the network (the network-level handler
   * catches it) and keeps what was appended before.
   */
  function PoolsWith(contribute: PoolInfo -> seq<WhalePool>, pools: seq<PoolRecord>): Progress {
    if pools == [] then Progress([], 0)
    else
      match pools[0]
      case None => Progress([], 0)
      case Some(pool) =>
        var rest := PoolsWith(contribute, pools[1..]);
        Progress(contribute(pool) + rest.entries, rest.pauses + 1)
  }

  function Contributions(up: Upstream, networkId: string): PoolInfo -> seq<WhalePool> {
    (pool: PoolInfo) => PoolContribution(up, networkId, pool)
  }

  /** The pool loop of network `networkId`. */
  function PoolsFrom(up: Upstream, networkId: string, pools: seq<PoolRecord>): Progress {
    PoolsWith(Contributions(up, networkId), pools)
  }

  /** One network: nothing when its pool list cannot be fetched. */
  function NetworkProgress(up: Upstream, networkId: string): Progress {
    match Fetch(up.pools(networkId)).result
    case Failure(_) => Progress([], 0)
    case Success(pools) => PoolsFrom(up, networkId, TopPools(pools))
  }

  /** A walk over `networks`, in order, where each network adds `step` of it. */
  function Walk(step: Network -> Progress, networks: seq<Network>): Progress {
    if networks == [] then Progress([], 0)
    else
      var before := Walk(step, networks[..|networks| - 1]);
      var last := step(networks[|networks| - 1]);
      Progress(before.entries + last.entries, before.pauses + last.pauses)
  }

  function NetworkSteps(up: Upstream): Network -> Progress {
    (n: Network) => NetworkProgress(up, n.id)
  }

  /**
   * The networks the loop reaches: the entries of the list up to the first
   * one that is null or undefined.
   */
  function ListedNetworks(records: seq<NetworkRecord>): (r: seq<Network>)
    ensures |r| <= |records|
    ensures forall k :: 0 <= k < |r| ==> records[k] == Some(r[k])
    ensures |r| < |records| ==> records[|r|].None?
  {
    if records == [] || records[0].None? then [] else [records[0].value] + ListedNetworks(records[1..])
  }

  /** The walk over `networks`, in order. */
  function RunOver(up: Upstream, networks: seq<Network>): Progress {
    Walk(NetworkSteps(up), networks)
  }

  /** The pool loop stops at the end of the list or at a record without attributes. */
  lemma PoolsWithAt(contribute: PoolInfo -> seq<WhalePool>, pools: seq<PoolRecord>, i: nat)
    requires i <= |pools| && (i == |pools| || pools[i].None?)
    ensures PoolsWith(contribute, pools[i..]) == Progress([], 0)
  {
    if i < |pools| {
      assert pools[i..][0] == pools[i];
    }
  }

  /** The loop invariant of the pool loop is kept by a turn that processes pool `i`. */
  lemma PoolsWithStep(contribute: PoolInfo -> seq<WhalePool>, pools: seq<PoolRecord>, i: nat,
                      added: seq<WhalePool>, pauses: nat)
    requires i < |pools| && pools[i].Some?
    requires PoolsWith(contribute, pools).entries == added + PoolsWith(contribute, pools[i..]).entries
    requires PoolsWith(contribute, pools).pauses == pauses + PoolsWith(contribute, pools[i..]).pauses
    ensures PoolsWith(contribute, pools).entries ==
      (added + contribute(pools[i].value)) + PoolsWith(contribute, pools[i + 1..]).entries
    ensures PoolsWith(contribute, pools).pauses == pauses + 1 + PoolsWith(contribute, pools[i + 1..]).pauses
  {
    assert pools[i..][0] == pools[i];
    assert pools[i..][1..] == pools[i + 1..];
    var rest := PoolsWith(contribute, pools[i + 1..]);
    var c := contribute(pools[i].value);
    assert added + (c + rest.entries) == (added + c) + rest.entries;
  }

  /** The per-pool `try`: fetch the pool's trades and aggregate them; a failed fetch yields nothing. */
  method ProcessPool(up: Upstream, networkId: string, pool: PoolInfo) returns (entry: Option<WhalePool>)
    ensures PoolContribution(up, networkId, pool) == if entry.Some? then [entry.value] else []
  {
    var trades, _ := FetchWithRetry(up.trades(networkId, pool.address));
    if trades.Success? {
      entry := AggregatePool(networkId, pool, trades.value);
    } else {
      entry := None;  // logged; the pool is skipped
    }
  }

  /**
   * The body of the per-network `try`: the pool loop. The entries it finds
   * are appended to `snapshot` (nothing reads the snapshot before the
   * network's checkpoint, so appending them as found or at the end is alike).
   */
  method ProcessNetwork(up: Upstream, networkId: string, snapshot: seq<WhalePool>)
    returns (grown: seq<WhalePool>, pauses: nat)
    ensures grown == snapshot + NetworkProgress(up, networkId).entries
    ensures pauses == NetworkProgress(up, networkId).pauses
  {
    pauses := 0;
    var listed, _ := FetchWithRetry(up.pools(networkId));
    if listed.Failure? {
      grown := snapshot;
      assert grown == snapshot + [];
      return;  // logged; the network is skipped
    }
    var top := TopPools(listed.value);
    ghost var contribute := Contributions(up, networkId);
    assert NetworkProgress(up, networkId) == PoolsWith(contribute, top);
    assert top[0..] == top;
    var found: seq<WhalePool> := [];
    var i := 0;
    // A pool record without attributes throws at `pool.attributes.name`, ending the network.
    while i < |top| && top[i].Some?
      invariant i <= |top|
      invariant PoolsWith(contribute, top).entries == found + PoolsWith(contribute, top[i..]).entries
      invariant PoolsWith(contribute, top).pauses == pauses + PoolsWith(contribute, top[i..]).pauses
    {
      var entry := ProcessPool(up, networkId, top[i].value);
      var contribution := if entry.Some? then [entry.value] else [];
      PoolsWithStep(contribute, top, i, found, pauses);
      found := found + contribution;
      pauses := pauses + 1;  // delay(RATE_LIMIT_DELAY), also after a failed pool
      i := i + 1;
    }
    PoolsWithAt(contribute, top, i);
    assert found + [] == found;
    grown := snapshot + found;
  }

  /**
   * The network loop. `checkpoints` holds the snapshot written after each
   * network (the write sits after the network's `try`, so it happens for a
   * failed network too): the entries of the networks so far. A null entry
   * throws at `network.id`, outside that `try`, and ends the loop with
   * `crashed` set and no checkpoint for it.
   */
  method WalkNetworks(up: Upstream, records: seq<NetworkRecord>)
    returns (snapshot: seq<WhalePool>, checkpoints: seq<seq<WhalePool>>, pauses: nat, crashed: bool)
    ensures var networks := ListedNetworks(records);
      && snapshot == RunOver(up, networks).entries
      && pauses == RunOver(up, networks).pauses
      && |checkpoints| == |networks|
      && (forall k :: 0 <= k < |networks| ==> checkpoints[k] == RunOver(up, networks[..k + 1]).entries)
      && (crashed <==> |networks| < |records|)
  {
    ghost var networks := ListedNetworks(records);
    snapshot, checkpoints, pauses := [], [], 0;
    var n := 0;
    while n < |records| && records[n].Some?
      invariant n <= |networks|
      invariant snapshot == RunOver(up, networks[..n]).entries
      invariant pauses == RunOver(up, networks[..n]).pauses
      invariant |checkpoints| == n
      invariant forall k :: 0 <= k < n ==> checkpoints[k] == RunOver(up, networks[..k + 1]).entries
    {
      var networkId := records[n].value.id;
      RunOverSnoc(up, networks, n);
      var taken;
      snapshot, taken := ProcessNetwork(up, networkId, snapshot);
      pauses := pauses + taken;
      checkpoints := checkpoints + [snapshot];  // progress saved after each network
      n := n + 1;
    }
    assert n == |networks|;
    assert networks[..n] == networks;
    crashed := n < |records|;
  }

  /**
   * The whole run. A failed network-list fetch is fatal and writes nothing.
   * Otherwise `checkpoints` holds every snapshot written: one after each
   * network reached, holding the entries of the networks so far, and the
   * final one, which a null network entry prevents (the run then ends fatally).
   */
  method IndexWhalePools(up: Upstream)
    returns (outcome: RunOutcome, snapshot: seq<WhalePool>, checkpoints: seq<seq<WhalePool>>, pauses: nat)
    ensures Fetch(up.networks).result.Failure? ==>
      outcome == Fatal(Fetch(up.networks).result.error) && snapshot == [] && checkpoints == [] && pauses == 0
    ensures Fetch(up.networks).result.Success? ==>
      var records := Fetch(up.networks).result.value;
      var networks := ListedNetworks(records);
      && snapshot == RunOver(up, networks).entries
      && pauses == RunOver(up, networks).pauses
      && |checkpoints| >= |networks|
      && (forall k :: 0 <= k < |networks| ==> checkpoints[k] == RunOver(up, networks[..k + 1]).entries)
      && (if |networks| == |records| then
            outcome == Completed && |checkpoints| == |networks| + 1 && checkpoints[|networks|] == snapshot
          else
            outcome == MalformedNetwork(|networks|) && |checkpoints| == |networks|)
  {
    var fetched, _ := FetchWithRetry(up.networks);
    if fetched.Failure? {
      outcome, snapshot, checkpoints, pauses := Fatal(fetched.error), [], [], 0;  // process.exit(1)
      return;
    }
    var crashed;
    snapshot, checkpoints, pauses, crashed := WalkNetworks(up, fetched.value);
    if crashed {
      outcome := MalformedNetwork(|checkpoints|);  // process.exit(1), no final save
      return;
    }
    checkpoints := checkpoints + [snapshot];  // final save
    outcome := Completed;
  }

  /** The walk over the first n + 1 networks is the walk over the first n followed by network n. */
  lemma WalkSnoc(step: Network -> Progress, networks: seq<Network>, n: nat)
    requires n < |networks|
    ensures Walk(step, networks[..n + 1]) ==
      var before, last := Walk(step, networks[..n]), step(networks[n]);
      Progress(before.entries + last.entries, before.pauses + last.pauses)
  {
    assert networks[..n + 1][..n] == networks[..n];
    assert networks[..n + 1][n] == networks[n];
  }

  lemma RunOverSnoc(up: Upstream, networks: seq<Network>, n: nat)
    requires n < |networks|
    ensures RunOver(up, networks[..n + 1]) ==
      var before, last := RunOver(up, networks[..n]), NetworkProgress(up, networks[n].id);
      Progress(before.entries + last.entries, before.pauses + last.pauses)
  {
    WalkSnoc(NetworkSteps(up), networks, n);
  }

  lemma {:induction false} WalkOnlyGrows(step: Network -> Progress, networks: seq<Network>, j: nat, k: nat)
    requires j <= k <= |networks|
    ensures Walk(step, networks[..j]).entries <= Walk(step, networks[..k]).entries
  {
    if j < k {
      WalkOnlyGrows(step, networks, j, k - 1);
      WalkSnoc(step, networks, k - 1);
      var a, b := Walk(step, networks[..j]).entries, Walk(step, networks[..k - 1]).entries;
      var c := Walk(step, networks[..k]).entries;
      assert b == c[..|b|];
      assert a == b[..|a|] == c[..|a|];
    }
  }

  /** The snapshot only grows: what is written after a network is a prefix of every later write. */
  lemma SnapshotOnlyGrows(up: Upstream, networks: seq<Network>, j: nat, k: nat)
    requires j <= k <= |networks|
    ensures RunOver(up, networks[..j]).entries <= RunOver(up, networks[..k]).entries
  {
    WalkOnlyGrows(NetworkSteps(up), networks, j, k);
  }

  /** Every written checkpoint is a prefix of the final snapshot. */
  lemma CheckpointsArePrefixes(up: Upstream, networks: seq<Network>)
    ensures forall k :: 1 <= k <= |networks| ==>
      RunOver(up, networks[..k]).entries <= RunOver(up, networks).entries
  {
    assert networks[..|networks|] == networks;
    forall k | 1 <= k <= |networks|
      ensures RunOver(up, networks[..k]).entries <= RunOver(up, networks).entries
    {
      SnapshotOnlyGrows(up, networks, k, |networks|);
    }
  }

  /** The facts every appended entry carries. */
  ghost predicate EntryOf(up: Upstream, networkId: string, pools: seq<PoolRecord>, e: WhalePool) {
    && e.network == networkId
    && Some(PoolInfo(e.name, e.address)) in pools
    && Fetch(up.trades(networkId, e.address)).result.Success?
    && |e.whaleTraders| >= 1
    && VolumeDescending(e.whaleTraders)
    && DistinctAddresses(e.whaleTraders)
  }

  /**
   * A pool is appended exactly when its trades were fetched and hold a whale
   * trade, and then once, with the current network id, its name and its address.
   */
  lemma PoolContributionFacts(up: Upstream, networkId: string, pool: PoolInfo)
    ensures |PoolContribution(up, networkId, pool)| <= 1
    ensures PoolContribution(up, networkId, pool) != [] <==>
      var fetched := Fetch(up.trades(networkId, pool.address)).result;
      fetched.Success? && exists i :: 0 <= i < |fetched.value| && IsWhaleTrade(fetched.value[i])
    ensures forall e :: e in PoolContribution(up, networkId, pool) ==>
      EntryOf(up, networkId, [Some(pool)], e) && e.name == pool.name && e.address == pool.address
  {
    var fetched := Fetch(up.trades(networkId, pool.address)).result;
    if fetched.Success? {
      WhalePoolForFacts(networkId, pool, fetched.value);
    }
  }

  /** The pool loop appends only entries of the pools it was given, and pauses at most once per pool. */
  lemma {:induction false} PoolsFromFacts(up: Upstream, networkId: string, pools: seq<PoolRecord>)
    ensures PoolsFrom(up, networkId, pools).pauses <= |pools|
    ensures (forall k :: 0 <= k < |pools| ==> pools[k].Some?) ==> PoolsFrom(up, networkId, pools).pauses == |pools|
    ensures forall e :: e in PoolsFrom(up, networkId, pools).entries ==> EntryOf(up, networkId, pools, e)
  {
    if pools != [] && pools[0].Some? {
      PoolsFromFacts(up, networkId, pools[1..]);
      PoolContributionFacts(up, networkId, pools[0].value);
      assert pools == [pools[0]] + pools[1..];
    }
  }

  /**
   * One network appends only entries of its first POOL_LIMIT pools, tagged
   * with its id, and only when its pool list was fetched; it examines (and
   * pauses after) at most POOL_LIMIT pools, and every one of the first
   * POOL_LIMIT when none of them lacks its attributes.
   */
  lemma NetworkFacts(up: Upstream, networkId: string)
    ensures NetworkProgress(up, networkId).pauses <= POOL_LIMIT
    ensures NetworkProgress(up, networkId).entries != [] ==> Fetch(up.pools(networkId)).result.Success?
    ensures Fetch(up.pools(networkId)).result.Success? ==>
      var top := TopPools(Fetch(up.pools(networkId)).result.value);
      && |top| == (if |Fetch(up.pools(networkId)).result.value| <= POOL_LIMIT
                   then |Fetch(up.pools(networkId)).result.value| else POOL_LIMIT)
      && top == Fetch(up.pools(networkId)).result.value[..|top|]
      && ((forall k :: 0 <= k < |top| ==> top[k].Some?) ==> NetworkProgress(up, networkId).pauses == |top|)
      && forall e :: e in NetworkProgress(up, networkId).entries ==> EntryOf(up, networkId, top, e)
  {
    var listed := Fetch(up.pools(networkId)).result;
    if listed.Success? {
      PoolsFromFacts(up, networkId, TopPools(listed.value));
    }
  }

  /** Every snapshot entry belongs to a listed network and satisfies the entry facts there. */
  lemma {:induction false} SnapshotEntriesFacts(up: Upstream, networks: seq<Network>)
    ensures forall e :: e in RunOver(up, networks).entries ==>
      (exists k :: 0 <= k < |networks| && networks[k].id == e.network) &&
      Fetch(up.pools(e.network)).result.Success? &&
      EntryOf(up, e.network, TopPools(Fetch(up.pools(e.network)).result.value), e)
  {
    if networks != [] {
      var p, last := networks[..|networks| - 1], networks[|networks| - 1];
      SnapshotEntriesFacts(up, p);
      NetworkFacts(up, last.id);
      forall e | e in RunOver(up, networks).entries
        ensures (exists k :: 0 <= k < |networks| && networks[k].id == e.network) &&
          Fetch(up.pools(e.network)).result.Success? &&
          EntryOf(up, e.network, TopPools(Fetch(up.pools(e.network)).result.value), e)
      {
        if e in RunOver(up, p).entries {
          var k :| 0 <= k < |p| && p[k].id == e.network;
          assert networks[k] == p[k];
        } else {
          assert networks[|networks| - 1].id == e.network;
        }
      }
    }
  }

  /** A walk over one and over two networks. */
  lemma WalkTwo(step: Network -> Progress, a: Network, b: Network)
    ensures Walk(step, [a]) == step(a)
    ensures Walk(step, [a, b]) == Progress(step(a).entries + step(b).entries, step(a).pauses + step(b).pauses)
  {
    assert [a][..0] == [];
    assert [a, b][..1] == [a];
  }

  /** A network whose pool list is fetched at once and holds a single pool. */
  lemma OnePoolNetwork(up: Upstream, networkId: string, pool: PoolInfo)
    requires up.pools(networkId)(0) == Succeeded([Some(pool)])
    ensures NetworkProgress(up, networkId) == Progress(PoolContribution(up, networkId, pool), 1)
  {
    FirstCallSucceeds(up.pools(networkId), [Some(pool)]);
    assert TopPools([Some(pool)]) == [Some(pool)];
    assert [Some(pool)][1..] == [];
    assert PoolsWith(Contributions(up, networkId), []) == Progress([], 0);
    assert PoolContribution(up, networkId, pool) + [] == PoolContribution(up, networkId, pool);
  }

  /** A pool whose trades are fetched at once contributes its aggregated entry, if any. */
  lemma FetchedPoolContribution(up: Upstream, networkId: string, pool: PoolInfo, trades: seq<Trade>)
    requires up.trades(networkId, pool.address)(0) == Succeeded(trades)
    ensures PoolContribution(up, networkId, pool) ==
      if WhalePoolFor(networkId, pool, trades).Some? then [WhalePoolFor(networkId, pool, trades).value] else []
  {
    FirstCallSucceeds(up.trades(networkId, pool.address), trades);
  }

  /**
   * Two networks: A lists one pool holding a single 50,000 USD trade from
   * 0xAAA, B one pool with no trade above the threshold. The final snapshot
   * is A's pool alone, with 0xAAA's single trade; and it is already in the
   * checkpoint written after A.
   */
  lemma TwoNetworkScenario(up: Upstream, a: Network, b: Network, poolA: PoolInfo, poolB: PoolInfo,
                           tradeA: Trade, tradeB: Trade)
    requires up.pools(a.id)(0) == Succeeded([Some(poolA)]) && up.pools(b.id)(0) == Succeeded([Some(poolB)])
    requires up.trades(a.id, poolA.address)(0) == Succeeded([tradeA])
    requires up.trades(b.id, poolB.address)(0) == Succeeded([tradeB])
    requires tradeA == Trade(Some(50000.0), "2024-01-01T00:00:00Z", "buy", "0xAAA")
    requires tradeB.volumeInUsd == Some(9000.0)
    ensures var expected := [WhalePool(a.id, poolA.name, poolA.address,
                                       [WhaleTrader("0xAAA", 50000.0, 1, "2024-01-01T00:00:00Z")])];
      && RunOver(up, [a, b]).entries == expected
      && RunOver(up, [a]).entries == expected
      && RunOver(up, [a, b]).pauses == 2
  {
    var entryA := WhalePool(a.id, poolA.name, poolA.address,
                            [WhaleTrader("0xAAA", 50000.0, 1, "2024-01-01T00:00:00Z")]);
    SingleWhaleTrade(a.id, poolA, tradeA);
    FetchedPoolContribution(up, a.id, poolA, [tradeA]);
    OnePoolNetwork(up, a.id, poolA);
    assert NetworkProgress(up, a.id) == Progress([entryA], 1);

    WhalePoolForFacts(b.id, poolB, [tradeB]);
    FetchedPoolContribution(up, b.id, poolB, [tradeB]);
    OnePoolNetwork(up, b.id, poolB);
    assert NetworkProgress(up, b.id) == Progress([], 1);

    WalkTwo(NetworkSteps(up), a, b);
  }
}
