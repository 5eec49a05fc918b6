/**
 * Order-preserving de-duplication, the shape shared by the whale-trader table
 * (a JavaScript Map keyed by address, iterated in insertion order) and the
 * per-network wallet lists (arrays grown with `includes`/`push`).
 */
module Sequences {

  predicate NoDuplicates<T(==)>(s: seq<T>) {
    forall i, j :: 0 <= i < j < |s| ==> s[i] != s[j]
  }

  /** The elements of `s`, each kept at its first occurrence. */
  function Dedup<T(==)>(s: seq<T>): seq<T> {
    if s == [] then []
    else
      var d := Dedup(s[..|s| - 1]);
      if s[|s| - 1] in d then d else d + [s[|s| - 1]]
  }

  /** The position at which `x` first occurs in `s`. */
  function FirstIndex<T(==)>(s: seq<T>, x: T): (i: nat)
    requires x in s
    ensures i < |s| && s[i] == x
    ensures forall k :: 0 <= k < i ==> s[k] != x
  {
    if s[0] == x then 0 else FirstIndex(s[1..], x) + 1
  }

  /** Appending one element to the input extends the de-duplicated list only when it is new. */
  lemma DedupSnoc<T>(s: seq<T>, x: T)
    ensures Dedup(s + [x]) == if x in Dedup(s) then Dedup(s) else Dedup(s) + [x]
  {
    assert (s + [x])[..|s|] == s;
  }

  lemma {:induction false} DedupSameElements<T>(s: seq<T>)
    ensures forall x :: x in Dedup(s) <==> x in s
  {
    if s != [] {
      var p := s[..|s| - 1];
      DedupSameElements(p);
      assert s == p + [s[|s| - 1]];
    }
  }

  lemma DedupMember<T>(s: seq<T>, x: T)
    ensures x in Dedup(s) <==> x in s
  {
    DedupSameElements(s);
  }

  lemma {:induction false} DedupNoDuplicates<T>(s: seq<T>)
    ensures NoDuplicates(Dedup(s))
  {
    if s != [] {
      DedupNoDuplicates(s[..|s| - 1]);
    }
  }

  /** Prefixes that agree on where `x` first occurs. */
  lemma FirstIndexPrefix<T>(s: seq<T>, t: seq<T>, x: T)
    requires x in s
    ensures x in s + t && FirstIndex(s + t, x) == FirstIndex(s, x)
  {
    var i, k := FirstIndex(s, x), FirstIndex(s + t, x);
    assert (s + t)[i] == x;
    assert k <= i;
  }

  /** One pair of the de-duplicated list: the earlier one first occurs earlier in the input. */
  lemma {:induction false} DedupPairOrder<T>(s: seq<T>, i: nat, j: nat)
    requires i < j < |Dedup(s)|
    ensures Dedup(s)[i] in s && Dedup(s)[j] in s
    ensures FirstIndex(s, Dedup(s)[i]) < FirstIndex(s, Dedup(s)[j])
  {
    var p, x := s[..|s| - 1], s[|s| - 1];
    assert s == p + [x];
    var d := Dedup(p);
    DedupSnoc(p, x);
    assert Dedup(s) == if x in d then d else d + [x];
    assert Dedup(s)[i] == d[i];
    DedupMember(p, d[i]);
    DedupMember(p, x);
    FirstIndexPrefix(p, [x], d[i]);
    if j < |d| {
      DedupPairOrder(p, i, j);
      FirstIndexPrefix(p, [x], d[j]);
    } else {
      assert Dedup(s)[j] == x && x !in p;
      assert forall m :: 0 <= m < |p| ==> s[m] == p[m];
    }
  }

  /**
   * The de-duplicated list keeps first-seen order: an element listed earlier
   * first occurs earlier in the input.
   */
  lemma DedupFirstSeenOrder<T>(s: seq<T>)
    ensures forall x :: x in Dedup(s) ==> x in s
    ensures forall i, j :: 0 <= i < j < |Dedup(s)| ==>
      FirstIndex(s, Dedup(s)[i]) < FirstIndex(s, Dedup(s)[j])
  {
    DedupSameElements(s);
    forall i, j | 0 <= i < j < |Dedup(s)|
      ensures FirstIndex(s, Dedup(s)[i]) < FirstIndex(s, Dedup(s)[j])
    {
      DedupPairOrder(s, i, j);
    }
  }
}
