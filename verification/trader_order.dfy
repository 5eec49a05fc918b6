/**
 * `Array.prototype.sort` with the comparator `(a, b) => b.totalVolume - a.totalVolume`:
 * a stable sort into non-increasing total volume (stability is required of
 * `sort` since ECMAScript 2019). Written as an insertion sort.
 */
module TraderOrder {
  import opened WhaleTypes

  /** Place `w` in front of the first trader whose volume is not greater than its own. */
  function InsertByVolume(w: WhaleTrader, s: seq<WhaleTrader>): seq<WhaleTrader> {
    if s == [] then [w]
    else if s[0].totalVolume > w.totalVolume then [s[0]] + InsertByVolume(w, s[1..])
    else [w] + s
  }

  function SortByVolume(s: seq<WhaleTrader>): seq<WhaleTrader> {
    if s == [] then [] else InsertByVolume(s[0], SortByVolume(s[1..]))
  }

  /** The traders of `s` with total volume exactly `v`, in the order of `s`. */
  function WithVolume(s: seq<WhaleTrader>, v: real): seq<WhaleTrader> {
    if s == [] then []
    else if s[0].totalVolume == v then [s[0]] + WithVolume(s[1..], v)
    else WithVolume(s[1..], v)
  }

  lemma {:induction false} InsertPermutes(w: WhaleTrader, s: seq<WhaleTrader>)
    ensures multiset(InsertByVolume(w, s)) == multiset(s) + multiset{w}
  {
    if s != [] && s[0].totalVolume > w.totalVolume {
      InsertPermutes(w, s[1..]);
      assert s == [s[0]] + s[1..];
      assert InsertByVolume(w, s) == [s[0]] + InsertByVolume(w, s[1..]);
    }
  }

  /** Inserting adds `w` and nothing else. */
  lemma {:induction false} InsertElements(w: WhaleTrader, s: seq<WhaleTrader>, x: WhaleTrader)
    ensures x in InsertByVolume(w, s) <==> x == w || x in s
  {
    if s != [] && s[0].totalVolume > w.totalVolume {
      InsertElements(w, s[1..], x);
      assert s == [s[0]] + s[1..];
    }
  }

  lemma {:induction false} InsertKeepsDescending(w: WhaleTrader, s: seq<WhaleTrader>)
    requires VolumeDescending(s)
    ensures VolumeDescending(InsertByVolume(w, s))
  {
    var r := InsertByVolume(w, s);
    if s == [] {
    } else if s[0].totalVolume > w.totalVolume {
      var rest := InsertByVolume(w, s[1..]);
      assert VolumeDescending(s[1..]);
      InsertKeepsDescending(w, s[1..]);
      assert r == [s[0]] + rest;
      forall i, j | 0 <= i < j < |r| ensures r[i].totalVolume >= r[j].totalVolume {
        if i == 0 {
          assert r[j] == rest[j - 1];
          InsertElements(w, s[1..], r[j]);
          if r[j] != w {
            var k :| 0 <= k < |s[1..]| && s[1..][k] == r[j];
            assert s[k + 1] == r[j];
          }
        } else {
          assert r[i] == rest[i - 1] && r[j] == rest[j - 1];
        }
      }
    } else {
      assert r == [w] + s;
      forall i, j | 0 <= i < j < |r| ensures r[i].totalVolume >= r[j].totalVolume {
        if i == 0 {
          assert r[j] == s[j - 1];
        } else {
          assert r[i] == s[i - 1] && r[j] == s[j - 1];
        }
      }
    }
  }

  lemma {:induction false} InsertFiltersByVolume(w: WhaleTrader, s: seq<WhaleTrader>, v: real)
    ensures WithVolume(InsertByVolume(w, s), v) ==
      (if w.totalVolume == v then [w] + WithVolume(s, v) else WithVolume(s, v))
  {
    if s != [] && s[0].totalVolume > w.totalVolume {
      InsertFiltersByVolume(w, s[1..], v);
      var r := InsertByVolume(w, s);
      assert r[0] == s[0] && r[1..] == InsertByVolume(w, s[1..]);
    }
  }

  /** The sorted list is a permutation of its input. */
  lemma {:induction false} SortPermutes(s: seq<WhaleTrader>)
    ensures multiset(SortByVolume(s)) == multiset(s)
  {
    if s != [] {
      SortPermutes(s[1..]);
      InsertPermutes(s[0], SortByVolume(s[1..]));
      assert s == [s[0]] + s[1..];
    }
  }

  /** The sorted list is in non-increasing order of total volume. */
  lemma {:induction false} SortIsDescending(s: seq<WhaleTrader>)
    ensures VolumeDescending(SortByVolume(s))
  {
    if s != [] {
      SortIsDescending(s[1..]);
      InsertKeepsDescending(s[0], SortByVolume(s[1..]));
    }
  }

  /** Stability: for every volume, the traders that share it keep their relative input order. */
  lemma {:induction false} SortIsStable(s: seq<WhaleTrader>, v: real)
    ensures WithVolume(SortByVolume(s), v) == WithVolume(s, v)
  {
    if s != [] {
      SortIsStable(s[1..], v);
      InsertFiltersByVolume(s[0], SortByVolume(s[1..]), v);
    }
  }

  /** Sorting never lets two records of one address appear where the input had one. */
  lemma SortKeepsDistinctAddresses(s: seq<WhaleTrader>)
    requires DistinctAddresses(s)
    ensures DistinctAddresses(SortByVolume(s))
  {
    var r := SortByVolume(s);
    SortPermutes(s);
    forall i, j | 0 <= i < j < |r| ensures r[i].address != r[j].address {
      if r[i].address == r[j].address {
        assert r[i] in multiset(r) && r[j] in multiset(r);
        DistinctAddressesOccurOnce(s, r[i]);
        assert r[j] in s;
        TwoPositionsCountTwice(r, i, j);
        assert false;
      }
    }
  }

  /** In a list with distinct addresses, a present trader occurs once and is the only one of its address. */
  lemma {:induction false} DistinctAddressesOccurOnce(s: seq<WhaleTrader>, x: WhaleTrader)
    requires DistinctAddresses(s) && x in multiset(s)
    ensures multiset(s)[x] == 1
    ensures forall y :: y in s && y.address == x.address ==> y == x
  {
    if s[0] == x {
      assert x !in s[1..];
      assert s == [s[0]] + s[1..];
    } else {
      assert s == [s[0]] + s[1..];
      DistinctAddressesOccurOnce(s[1..], x);
    }
  }

  lemma {:induction false} TwoPositionsCountTwice(s: seq<WhaleTrader>, i: nat, j: nat)
    requires i < j < |s| && s[i] == s[j]
    ensures multiset(s)[s[i]] >= 2
  {
    assert s == s[..i] + [s[i]] + s[i + 1..j] + [s[j]] + s[j + 1..];
  }
}
