/**
 Keyed indices (std::multiset over a KeyedEntryComparator, p2core/commonTable.C): sequences of tuples in
 key order, where a new tuple goes after the ones it ties with.
 */
module Indices {
  import Sequences
  import opened Keys

  ghost predicate Sorted(key: Key, s: seq<Tuple>) {
    forall i, j | 0 <= i < j < |s| :: !Less(key, s[j], s[i])
  }

  /** The tuples whose sort key is `g`, in order. */
  function Ties(key: Key, s: seq<Tuple>, g: seq<Value>): seq<Tuple> {
    if s == [] then []
    else if SortKey(key, s[0]) == g then [s[0]] + Ties(key, s[1..], g)
    else Ties(key, s[1..], g)
  }

  lemma {:induction false} TiesExact(key: Key, s: seq<Tuple>, g: seq<Value>)
    ensures forall x :: multiset(Ties(key, s, g))[x] ==
                        if SortKey(key, x) == g then multiset(s)[x] else 0
  {
    if s != [] {
      TiesExact(key, s[1..], g);
      assert s == [s[0]] + s[1..];
    }
  }

  lemma {:induction false} TiesSplit(key: Key, a: seq<Tuple>, b: seq<Tuple>, g: seq<Value>)
    ensures Ties(key, a + b, g) == Ties(key, a, g) + Ties(key, b, g)
  {
    if a == [] {
      assert a + b == b;
    } else {
      assert (a + b)[0] == a[0] && (a + b)[1..] == a[1..] + b;
      TiesSplit(key, a[1..], b, g);
    }
  }

  lemma {:induction false} NoTies(key: Key, s: seq<Tuple>, g: seq<Value>)
    requires forall i | 0 <= i < |s| :: SortKey(key, s[i]) != g
    ensures Ties(key, s, g) == []
  {
    if s != [] {
      NoTies(key, s[1..], g);
    }
  }

  lemma {:induction false} AllTies(key: Key, s: seq<Tuple>, g: seq<Value>)
    requires forall i | 0 <= i < |s| :: SortKey(key, s[i]) == g
    ensures Ties(key, s, g) == s
  {
    if s != [] {
      AllTies(key, s[1..], g);
    }
  }

  /** The bounds around `e`: everything below, the ties, everything above. */
  ghost predicate Bounds(key: Key, s: seq<Tuple>, e: Tuple, lo: int, hi: int) {
    && 0 <= lo <= hi <= |s|
    && (forall i | 0 <= i < lo :: Less(key, s[i], e))
    && (forall i | lo <= i < hi :: SortKey(key, s[i]) == SortKey(key, e))
    && (forall i | hi <= i < |s| :: Less(key, e, s[i]))
  }

  lemma {:induction false} TiesOfParts(key: Key, a: seq<Tuple>, b: seq<Tuple>, c: seq<Tuple>, g: seq<Value>)
    requires forall i | 0 <= i < |a| :: SortKey(key, a[i]) != g
    requires forall i | 0 <= i < |b| :: SortKey(key, b[i]) == g
    requires forall i | 0 <= i < |c| :: SortKey(key, c[i]) != g
    ensures Ties(key, a + b + c, g) == b
  {
    TiesSplit(key, a + b, c, g);
    TiesSplit(key, a, b, g);
    NoTies(key, a, g);
    AllTies(key, b, g);
    NoTies(key, c, g);
  }

  lemma {:induction false} RangeIsTies(key: Key, s: seq<Tuple>, e: Tuple, lo: int, hi: int)
    requires Bounds(key, s, e, lo, hi)
    ensures s[lo..hi] == Ties(key, s, SortKey(key, e))
  {
    var (g, a, b, c) := (SortKey(key, e), s[..lo], s[lo..hi], s[hi..]);
    forall i | 0 <= i < |s| && !(lo <= i < hi) ensures SortKey(key, s[i]) != g {
      StrictWeakOrder(key, s[i], e, e);
    }
    assert s == a + b + c;
    TiesOfParts(key, a, b, c, g);
  }

  /** `lower_bound` and `upper_bound`. */
  method EqualRange(key: Key, s: seq<Tuple>, e: Tuple) returns (lo: nat, hi: nat)
    requires Sorted(key, s)
    ensures Bounds(key, s, e, lo, hi)
  {
    lo := 0;
    while lo < |s|
      invariant lo <= |s|
      invariant forall i | 0 <= i < lo :: Less(key, s[i], e)
    {
      var less := CompareTuples(key, s[lo], e);
      if !less {
        break;
      }
      lo := lo + 1;
    }
    assert lo < |s| ==> !Less(key, s[lo], e);
    hi := lo;
    while hi < |s|
      invariant lo <= hi <= |s|
      invariant forall i | lo <= i < hi :: !Less(key, e, s[i])
    {
      var less := CompareTuples(key, e, s[hi]);
      if less {
        break;
      }
      hi := hi + 1;
    }
    assert hi < |s| ==> Less(key, e, s[hi]);
    BoundsHold(key, s, e, lo, hi);
  }

  lemma {:induction false} BoundsHold(key: Key, s: seq<Tuple>, e: Tuple, lo: nat, hi: nat)
    requires Sorted(key, s) && lo <= hi <= |s|
    requires forall i | 0 <= i < lo :: Less(key, s[i], e)
    requires lo < |s| ==> !Less(key, s[lo], e)
    requires forall i | lo <= i < hi :: !Less(key, e, s[i])
    requires hi < |s| ==> Less(key, e, s[hi])
    ensures Bounds(key, s, e, lo, hi)
  {
    forall i | lo <= i < hi ensures SortKey(key, s[i]) == SortKey(key, e) {
      StrictWeakOrder(key, s[i], e, s[lo]);
      StrictWeakOrder(key, s[i], e, e);
    }
    forall i | hi <= i < |s| ensures Less(key, e, s[i]) {
      StrictWeakOrder(key, e, s[hi], s[i]);
    }
  }

  lemma {:induction false} InsertKeepsSorted(key: Key, s: seq<Tuple>, t: Tuple, lo: int, hi: int)
    requires Sorted(key, s) && Bounds(key, s, t, lo, hi)
    ensures Sorted(key, Sequences.Inserted(s, hi, t))
  {
    var now := Sequences.Inserted(s, hi, t);
    forall i | 0 <= i < |s| ensures if i < hi then !Less(key, t, s[i]) else !Less(key, s[i], t) {
      StrictWeakOrder(key, s[i], t, t);
      StrictWeakOrder(key, t, s[i], t);
    }
    forall i, j | 0 <= i < j < |now| ensures !Less(key, now[j], now[i]) {
      var old_i := if i <= hi then i else i - 1;
      var old_j := if j <= hi then j else j - 1;
      assert i != hi ==> now[i] == s[old_i];
      assert j != hi ==> now[j] == s[old_j];
    }
  }

  /** `insert` of an index. */
  method InsertInto(key: Key, s: seq<Tuple>, t: Tuple) returns (now: seq<Tuple>)
    requires Sorted(key, s)
    ensures Sorted(key, now) && multiset(now) == multiset(s) + multiset{t}
  {
    var lo, hi := EqualRange(key, s, t);
    InsertKeepsSorted(key, s, t, lo, hi);
    Sequences.InsertedContents(s, hi, t);
    now := Sequences.Inserted(s, hi, t);
  }

  ghost predicate DistinctTupleIds(s: multiset<Tuple>) {
    && (forall t | t in s :: s[t] == 1)
    && forall t, u | t in s && u in s && t.id == u.id :: t == u
  }

  /** Finds the tuple among the ones it ties with, by its ID, and erases it. */
  method EraseFrom(key: Key, s: seq<Tuple>, t: Tuple) returns (now: seq<Tuple>)
    requires Sorted(key, s) && t in s && DistinctTupleIds(multiset(s))
    ensures Sorted(key, now) && multiset(now) == multiset(s) - multiset{t}
  {
    var lo, hi := EqualRange(key, s, t);
    ghost var at := TieInRange(key, s, t, lo, hi);
    var i := lo;
    while s[i].id != t.id
      invariant lo <= i <= at
      decreases at - i
    {
      i := i + 1;
    }
    assert s[i] in multiset(s) && t in multiset(s) && s[i] == t;
    EraseKeepsSorted(key, s, i);
    now := Sequences.Erased(s, i);
  }

  lemma {:induction false} EraseKeepsSorted(key: Key, s: seq<Tuple>, i: nat)
    requires Sorted(key, s) && i < |s|
    ensures var now := Sequences.Erased(s, i);
            Sorted(key, now) && multiset(now) == multiset(s) - multiset{s[i]}
  {
    var now := Sequences.Erased(s, i);
    Sequences.ErasedContents(s, i);
    forall j, k | 0 <= j < k < |now| ensures !Less(key, now[k], now[j]) {
      assert now[j] == s[if j < i then j else j + 1] && now[k] == s[if k < i then k else k + 1];
    }
  }

  lemma {:induction false} TieInRange(key: Key, s: seq<Tuple>, t: Tuple, lo: int, hi: int) returns (at: int)
    requires Bounds(key, s, t, lo, hi) && t in s
    ensures lo <= at < hi && s[at] == t
  {
    at :| 0 <= at < |s| && s[at] == t;
    StrictWeakOrder(key, t, t, t);
  }

  /** A spool is pushed to the front and read from the back, so it keeps index order. */
  method ReadSpool(index: seq<Tuple>, lo: nat, hi: nat) returns (found: seq<Tuple>)
    requires lo <= hi <= |index|
    ensures found == index[lo..hi]
  {
    var spool: seq<Tuple> := [];
    for i := lo to hi
      invariant |spool| == i - lo
      invariant forall k | 0 <= k < i - lo :: spool[k] == index[i - 1 - k]
    {
      spool := [index[i]] + spool;
    }
    found := [];
    var at := |spool|;
    while at > 0
      invariant 0 <= at <= |spool| && found == index[lo..hi - at]
    {
      at := at - 1;
      assert spool[at] == index[hi - at - 1];
      found := found + [spool[at]];
    }
  }
}
