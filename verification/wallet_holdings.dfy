/**
 * `indexWalletHoldings`: read the whale-pool snapshot (a failure there is
 * fatal), group the whale traders' addresses by network, and for each
 * network and wallet skip fresh data, otherwise fetch the wallet's holdings
 * through `fetchWithRetry`, sum their value, write the wallet's file and
 * pause. A failing wallet is logged and skipped.
 */
module WalletHoldings {
  import opened Wrappers
  import opened Sequences
  import opened Retry
  import opened WhaleTypes

  const RATE_LIMIT_DELAY: nat := 2000  // milliseconds, taken after every saved wallet
  const DAY_MS: int := 24 * 60 * 60 * 1000

  datatype TokenHolding = TokenHolding(token: string, symbol: string, quantity: real, valueUsd: real)

  /** The file written for one wallet; `lastUpdated` is the ISO time of the visit, in milliseconds. */
  datatype WalletRecord = WalletRecord(
    address: string, network: string, holdings: seq<TokenHolding>, totalValueUsd: real, lastUpdated: int)

  /**
   * What a wallet's existing file yields once read and parsed: the time of
   * its `last_updated` field, or None when that field is not a valid date
   * (`getTime()` is then NaN, and every comparison with it is false).
   */
  datatype StoredWallet = StoredWallet(lastUpdatedMs: Option<int>)

  /**
   * The world of one run, keyed by (network, wallet address): the existing
   * file (None when it is missing or does not parse), the holdings API as
   * an oracle, whether writing the wallet's file succeeds, and the clock
   * reading taken for the wallet.
   */
  datatype WalletEnv = WalletEnv(
    stored: (string, string) -> Option<StoredWallet>,
    holdings: (string, string) -> Operation<seq<TokenHolding>>,
    writeSucceeds: (string, string) -> bool,
    clock: (string, string) -> int)

  /** How one wallet's turn of the loop ended. */
  datatype WalletOutcome =
    | Skipped                            // data less than 24 hours old
    | FetchFailed(error: FetchError)     // thrown by fetchWithRetry, logged
    | WriteFailed(record: WalletRecord)  // thrown by writeFile, logged
    | Saved(record: WalletRecord)

  /** One wallet's turn: its outcome and every wait it requested, in order. */
  datatype Visit = Visit(outcome: WalletOutcome, waits: seq<nat>)

  /** `existingData && new Date(existingData.last_updated).getTime() > now.getTime() - 24h` */
  predicate IsFresh(existing: Option<StoredWallet>, nowMs: int) {
    existing.Some? && existing.value.lastUpdatedMs.Some? && existing.value.lastUpdatedMs.value > nowMs - DAY_MS
  }

  /** `holdings.reduce((total, holding) => total + holding.value_usd, 0)`: a left fold from 0. */
  function TotalValue(hs: seq<TokenHolding>): real {
    if hs == [] then 0.0 else TotalValue(hs[..|hs| - 1]) + hs[|hs| - 1].valueUsd
  }

  /** The sum of the values, first holding first: the reference the fold is compared with. */
  function ValueSum(hs: seq<TokenHolding>): real {
    if hs == [] then 0.0 else hs[0].valueUsd + ValueSum(hs[1..])
  }

  /** The turn of wallet `address` of network `network`. */
  function VisitWallet(env: WalletEnv, network: string, address: string): Visit {
    var now := env.clock(network, address);
    if IsFresh(env.stored(network, address), now) then Visit(Skipped, [])
    else
      var fetched := Fetch(env.holdings(network, address));
      match fetched.result
      case Failure(e) => Visit(FetchFailed(e), fetched.waits)
      case Success(hs) =>
        var record := WalletRecord(address, network, hs, TotalValue(hs), now);
        if env.writeSucceeds(network, address) then Visit(Saved(record), fetched.waits + [RATE_LIMIT_DELAY])
        else Visit(WriteFailed(record), fetched.waits)
  }

  /** The network of every pool of the snapshot, in order, repetitions included. */
  function NetworksOf(pools: seq<WhalePool>): (r: seq<string>)
    ensures |r| == |pools| && forall k :: 0 <= k < |pools| ==> r[k] == pools[k].network
  {
    if pools == [] then [] else NetworksOf(pools[..|pools| - 1]) + [pools[|pools| - 1].network]
  }

  /** The addresses of a pool's whale traders, in the pool's order. */
  function TraderAddresses(traders: seq<WhaleTrader>): (r: seq<string>)
    ensures |r| == |traders| && forall k :: 0 <= k < |traders| ==> r[k] == traders[k].address
  {
    if traders == [] then [] else TraderAddresses(traders[..|traders| - 1]) + [traders[|traders| - 1].address]
  }

  /** The trader addresses of the pools of `network`, in snapshot order, repetitions included. */
  function AddressesOn(pools: seq<WhalePool>, network: string): seq<string> {
    if pools == [] then []
    else
      var last := pools[|pools| - 1];
      AddressesOn(pools[..|pools| - 1], network) + (if last.network == network then TraderAddresses(last.whaleTraders) else [])
  }

  /** The wallets of `network`, each once, in the order the snapshot first names them. */
  function WalletsOf(pools: seq<WhalePool>, network: string): seq<string> {
    Dedup(AddressesOn(pools, network))
  }

  lemma {:induction false} TotalValueAppend(a: seq<TokenHolding>, b: seq<TokenHolding>)
    ensures TotalValue(a + b) == TotalValue(a) + TotalValue(b)
    decreases |b|
  {
    if b == [] {
      assert a + b == a;
    } else {
      var b', x := b[..|b| - 1], b[|b| - 1];
      assert a + b == (a + b') + [x];
      assert (a + b)[..|a + b| - 1] == a + b';
      assert b[..|b| - 1] == b';
      TotalValueAppend(a, b');
    }
  }

  /** The total is the sum of the holdings' values, and 0 for no holdings. */
  lemma {:induction false} TotalValueIsSum(hs: seq<TokenHolding>)
    ensures TotalValue(hs) == ValueSum(hs)
    ensures hs == [] ==> TotalValue(hs) == 0.0
  {
    if hs != [] {
      TotalValueIsSum(hs[1..]);
      assert hs == [hs[0]] + hs[1..];
      TotalValueAppend([hs[0]], hs[1..]);
      assert [hs[0]][..0] == [];
    }
  }

  /** No holding of negative value makes a negative total. */
  lemma {:induction false} TotalValueNonNegative(hs: seq<TokenHolding>)
    requires forall i :: 0 <= i < |hs| ==> hs[i].valueUsd >= 0.0
    ensures TotalValue(hs) >= 0.0
  {
    if hs != [] {
      TotalValueNonNegative(hs[..|hs| - 1]);
    }
  }

  /** A record saved at time t is fresh exactly while the clock reads less than t + 24 hours. */
  lemma FreshnessWindow(t: int, nowMs: int)
    ensures IsFresh(Some(StoredWallet(Some(t))), nowMs) <==> nowMs < t + DAY_MS
    ensures !IsFresh(Some(StoredWallet(None)), nowMs) && !IsFresh(None, nowMs)
  {
  }

  /**
   * The outcome of a wallet: skipped, with no fetch, no write and no wait,
   * exactly when its data is fresh; otherwise a failed fetch, a failed
   * write or a save. A written record carries the wallet, its holdings,
   * their total and the visit's clock reading.
   */
  lemma VisitFacts(env: WalletEnv, network: string, address: string)
    ensures var v := VisitWallet(env, network, address);
      && (v.outcome.Skipped? <==> IsFresh(env.stored(network, address), env.clock(network, address)))
      && (v.outcome.Skipped? ==> v.waits == [])
      && (v.outcome.FetchFailed? <==>
            !IsFresh(env.stored(network, address), env.clock(network, address))
            && Fetch(env.holdings(network, address)).result.Failure?)
      && ((v.outcome.Saved? || v.outcome.WriteFailed?) ==>
            && (v.outcome.Saved? <==> env.writeSucceeds(network, address))
            && Fetch(env.holdings(network, address)).result == Success(v.outcome.record.holdings)
            && v.outcome.record.address == address && v.outcome.record.network == network
            && v.outcome.record.totalValueUsd == ValueSum(v.outcome.record.holdings)
            && v.outcome.record.lastUpdated == env.clock(network, address))
  {
    var fetched := Fetch(env.holdings(network, address));
    if fetched.result.Success? {
      TotalValueIsSum(fetched.result.value);
    }
  }

  /**
   * The rate-limit pause follows a successful write and nothing else: a
   * visit's waits end with RATE_LIMIT_DELAY exactly when the wallet was
   * saved, no other position holds it, and every other wait is a retry
   * back-off of 5, 10 or 20 seconds. A visit that was not skipped waits for
   * its holdings fetch's retries, then for the pause only if it saved.
   */
  lemma PauseOnlyAfterSave(env: WalletEnv, network: string, address: string)
    ensures var v := VisitWallet(env, network, address);
      && (v.outcome.Saved? <==> |v.waits| > 0 && v.waits[|v.waits| - 1] == RATE_LIMIT_DELAY)
      && |v.waits| <= MAX_RETRIES + 1
      && (forall i :: 0 <= i < |v.waits| && v.waits[i] != RATE_LIMIT_DELAY ==> v.waits[i] == Backoff(i))
      && (forall i :: 0 <= i < |v.waits| ==>
            (v.waits[i] == RATE_LIMIT_DELAY <==> v.outcome.Saved? && i == |v.waits| - 1))
      && (!v.outcome.Skipped? ==>
            v.waits == Fetch(env.holdings(network, address)).waits + (if v.outcome.Saved? then [RATE_LIMIT_DELAY] else []))
  {
    var fetched := Fetch(env.holdings(network, address));
    RetryWaitsCharacterized(env.holdings(network, address), 0);
    var w := fetched.waits;
    forall i | 0 <= i < |w| ensures w[i] == Backoff(i) && w[i] >= RETRY_DELAY {
      BackoffAtLeastRetryDelay(i);
    }
  }

  /**
   * A fresh wallet is skipped whatever the holdings API and the file system
   * would do: its turn neither calls the one nor writes to the other.
   */
  lemma FreshSkipIgnoresFetchAndWrite(env: WalletEnv, other: WalletEnv, network: string, address: string)
    requires IsFresh(env.stored(network, address), env.clock(network, address))
    requires other.stored(network, address) == env.stored(network, address)
    requires other.clock(network, address) == env.clock(network, address)
    ensures VisitWallet(env, network, address) == VisitWallet(other, network, address) == Visit(Skipped, [])
  {
  }

  /** Appending one pool adds its traders to its own network's list and to no other. */
  lemma AddressesOnSnoc(pools: seq<WhalePool>, i: nat, network: string)
    requires i < |pools|
    ensures AddressesOn(pools[..i + 1], network) ==
      AddressesOn(pools[..i], network) + (if pools[i].network == network then TraderAddresses(pools[i].whaleTraders) else [])
  {
    assert pools[..i + 1][..i] == pools[..i];
  }

  /** A network no pool names has no wallets. */
  lemma {:induction false} AddressesOnAbsent(pools: seq<WhalePool>, network: string)
    requires network !in NetworksOf(pools)
    ensures AddressesOn(pools, network) == []
  {
    if pools != [] {
      var p := pools[..|pools| - 1];
      assert NetworksOf(pools) == NetworksOf(p) + [pools[|pools| - 1].network];
      AddressesOnAbsent(p, network);
    }
  }

  /**
   * A wallet is listed under a network exactly when some pool of that
   * network has a whale trader with that address.
   */
  lemma {:induction false} AddressesOnMember(pools: seq<WhalePool>, network: string, address: string)
    ensures address in AddressesOn(pools, network) <==>
      exists k, t :: 0 <= k < |pools| && pools[k].network == network &&
        0 <= t < |pools[k].whaleTraders| && pools[k].whaleTraders[t].address == address
  {
    if pools != [] {
      var p, last := pools[..|pools| - 1], pools[|pools| - 1];
      AddressesOnMember(p, network, address);
      var here := if last.network == network then TraderAddresses(last.whaleTraders) else [];
      assert AddressesOn(pools, network) == AddressesOn(p, network) + here;
      if address in here {
        var t :| 0 <= t < |here| && here[t] == address;
        assert pools[|pools| - 1].whaleTraders[t].address == address;
      }
      if exists k, t :: 0 <= k < |pools| && pools[k].network == network &&
          0 <= t < |pools[k].whaleTraders| && pools[k].whaleTraders[t].address == address {
        var k, t :| 0 <= k < |pools| && pools[k].network == network &&
          0 <= t < |pools[k].whaleTraders| && pools[k].whaleTraders[t].address == address;
        if k < |p| {
          assert p[k] == pools[k];
        } else {
          assert here[t] == address;
        }
      }
    }
  }

  /**
   * The networks of the grouping: each once, exactly those some pool names,
   * in the order the snapshot first names them.
   */
  lemma NetworkGroupingFacts(pools: seq<WhalePool>, network: string)
    ensures NoDuplicates(Dedup(NetworksOf(pools)))
    ensures network in Dedup(NetworksOf(pools)) <==> exists k :: 0 <= k < |pools| && pools[k].network == network
    ensures var s, d := NetworksOf(pools), Dedup(NetworksOf(pools));
      forall i, j :: 0 <= i < j < |d| ==> d[i] in s && d[j] in s && FirstIndex(s, d[i]) < FirstIndex(s, d[j])
  {
    DedupNoDuplicates(NetworksOf(pools));
    DedupMember(NetworksOf(pools), network);
    DedupFirstSeenOrder(NetworksOf(pools));
  }

  /**
   * The wallets of a network: each once, exactly the whale traders of that
   * network's pools, in the order the snapshot first names them.
   */
  lemma WalletGroupingFacts(pools: seq<WhalePool>, network: string, address: string)
    ensures NoDuplicates(WalletsOf(pools, network))
    ensures address in WalletsOf(pools, network) <==>
      exists k, t :: 0 <= k < |pools| && pools[k].network == network &&
        0 <= t < |pools[k].whaleTraders| && pools[k].whaleTraders[t].address == address
    ensures var s, d := AddressesOn(pools, network), WalletsOf(pools, network);
      forall i, j :: 0 <= i < j < |d| ==> d[i] in s && d[j] in s && FirstIndex(s, d[i]) < FirstIndex(s, d[j])
  {
    DedupNoDuplicates(AddressesOn(pools, network));
    DedupMember(AddressesOn(pools, network), address);
    AddressesOnMember(pools, network, address);
    DedupFirstSeenOrder(AddressesOn(pools, network));
  }

  /** The turns of a network's wallets, one per wallet, in order. */
  function NetworkVisits(env: WalletEnv, network: string, wallets: seq<string>): seq<Visit> {
    if wallets == [] then [] else NetworkVisits(env, network, wallets[..|wallets| - 1]) + [VisitWallet(env, network, wallets[|wallets| - 1])]
  }

  /**
   * Failure isolation: a network's turns are one per wallet, and each is
   * the turn that wallet would have alone, whatever became of the others.
   */
  lemma {:induction false} NetworkVisitsEach(env: WalletEnv, network: string, wallets: seq<string>)
    ensures |NetworkVisits(env, network, wallets)| == |wallets|
    ensures forall i :: 0 <= i < |wallets| ==> NetworkVisits(env, network, wallets)[i] == VisitWallet(env, network, wallets[i])
  {
    if wallets != [] {
      NetworkVisitsEach(env, network, wallets[..|wallets| - 1]);
    }
  }

  /**
   * One wallet's turn of the loop: skip fresh data, otherwise fetch the
   * holdings with retries, total them, write the file and pause.
   */
  method ProcessWallet(env: WalletEnv, network: string, address: string) returns (visit: Visit)
    ensures visit == VisitWallet(env, network, address)
  {
    var existing := env.stored(network, address);
    var now := env.clock(network, address);
    if IsFresh(existing, now) {
      return Visit(Skipped, []);
    }
    var result, waits := FetchWithRetry(env.holdings(network, address));
    match result
    case Failure(e) =>
      visit := Visit(FetchFailed(e), waits);
    case Success(hs) =>
      var record := WalletRecord(address, network, hs, TotalValue(hs), now);
      if env.writeSucceeds(network, address) {
        visit := Visit(Saved(record), waits + [RATE_LIMIT_DELAY]);
      } else {
        visit := Visit(WriteFailed(record), waits);
      }
  }

  /**
   * The wallets of one network, in order; a failure is logged and the loop
   * goes on, so each wallet's turn is the one it would have alone.
   */
  method ProcessNetworkWallets(env: WalletEnv, network: string, wallets: seq<string>) returns (visits: seq<Visit>)
    ensures visits == NetworkVisits(env, network, wallets)
  {
    visits := [];
    for i := 0 to |wallets|
      invariant visits == NetworkVisits(env, network, wallets[..i])
    {
      assert wallets[..i + 1][..i] == wallets[..i];
      var visit := ProcessWallet(env, network, wallets[i]);
      visits := visits + [visit];
    }
    assert wallets[..|wallets|] == wallets;
  }

  /**
   * `pool.whaleTraders.forEach`: push each trader's address onto the
   * network's list unless the list already `includes` it.
   */
  method AppendNewAddresses(list: seq<string>, traders: seq<WhaleTrader>, ghost before: seq<string>) returns (r: seq<string>)
    requires list == Dedup(before)
    ensures r == Dedup(before + TraderAddresses(traders))
  {
    r := list;
    assert before + TraderAddresses(traders[..0]) == before;
    for j := 0 to |traders|
      invariant r == Dedup(before + TraderAddresses(traders[..j]))
    {
      assert traders[..j + 1][..j] == traders[..j];
      assert before + TraderAddresses(traders[..j + 1]) == (before + TraderAddresses(traders[..j])) + [traders[j].address];
      DedupSnoc(before + TraderAddresses(traders[..j]), traders[j].address);
      if traders[j].address !in r {
        r := r + [traders[j].address];
      }
    }
    assert traders[..|traders|] == traders;
  }

  /**
   * `walletsByNetwork`: a record from network to a list of addresses, grown
   * pool by pool; `networks` is the order in which its keys were created.
   */
  method GroupWalletsByNetwork(pools: seq<WhalePool>) returns (networks: seq<string>, walletsByNetwork: map<string, seq<string>>)
    ensures networks == Dedup(NetworksOf(pools))
    ensures forall n :: n in walletsByNetwork <==> n in networks
    ensures forall n :: n in walletsByNetwork ==> walletsByNetwork[n] == WalletsOf(pools, n)
  {
    networks, walletsByNetwork := [], map[];
    for i := 0 to |pools|
      invariant networks == Dedup(NetworksOf(pools[..i]))
      invariant forall n :: n in walletsByNetwork <==> n in networks
      invariant forall n :: n in walletsByNetwork ==> walletsByNetwork[n] == WalletsOf(pools[..i], n)
    {
      var network := pools[i].network;
      assert NetworksOf(pools[..i + 1]) == NetworksOf(pools[..i]) + [network] by {
        assert pools[..i + 1][..i] == pools[..i];
      }
      DedupSnoc(NetworksOf(pools[..i]), network);
      if network !in walletsByNetwork {
        DedupMember(NetworksOf(pools[..i]), network);
        AddressesOnAbsent(pools[..i], network);
        walletsByNetwork := walletsByNetwork[network := []];
        networks := networks + [network];
      }
      var list := AppendNewAddresses(walletsByNetwork[network], pools[i].whaleTraders, AddressesOn(pools[..i], network));
      walletsByNetwork := walletsByNetwork[network := list];
      forall n | n in walletsByNetwork
        ensures walletsByNetwork[n] == WalletsOf(pools[..i + 1], n)
      {
        AddressesOnSnoc(pools, i, n);
        if n != network {
          assert AddressesOn(pools[..i + 1], n) == AddressesOn(pools[..i], n);
        }
      }
    }
    assert pools[..|pools|] == pools;
  }

  /**
   * `for (const [network, wallets] of Object.entries(walletsByNetwork))`:
   * the networks in the order their keys were created, each with its list.
   */
  method VisitNetworks(env: WalletEnv, networks: seq<string>, walletsByNetwork: map<string, seq<string>>)
    returns (visits: seq<seq<Visit>>)
    requires forall n :: n in networks ==> n in walletsByNetwork
    ensures |visits| == |networks|
    ensures forall k :: 0 <= k < |networks| ==> visits[k] == NetworkVisits(env, networks[k], walletsByNetwork[networks[k]])
  {
    visits := [];
    for k := 0 to |networks|
      invariant |visits| == k
      invariant forall m :: 0 <= m < k ==> visits[m] == NetworkVisits(env, networks[m], walletsByNetwork[networks[m]])
    {
      var vs := ProcessNetworkWallets(env, networks[k], walletsByNetwork[networks[k]]);
      visits := visits + [vs];
    }
  }

  /**
   * The whole run: with no readable snapshot the run stops (a fatal error);
   * otherwise every network of the snapshot is visited once, in first-seen
   * order, and within it every one of its wallets once, in first-seen order.
   */
  method IndexWalletHoldings(env: WalletEnv, snapshot: Option<seq<WhalePool>>)
    returns (completed: bool, networks: seq<string>, visits: seq<seq<Visit>>)
    ensures completed <==> snapshot.Some?
    ensures !completed ==> networks == [] && visits == []
    ensures completed ==> networks == Dedup(NetworksOf(snapshot.value))
    ensures |visits| == |networks|
    ensures completed ==> forall k :: 0 <= k < |networks| ==>
      visits[k] == NetworkVisits(env, networks[k], WalletsOf(snapshot.value, networks[k]))
  {
    if snapshot.None? {
      return false, [], [];
    }
    var walletsByNetwork;
    networks, walletsByNetwork := GroupWalletsByNetwork(snapshot.value);
    visits := VisitNetworks(env, networks, walletsByNetwork);
    completed := true;
  }
}
