/**
 Intervals on the identifier ring (p2core/ID.C): the comparison-based tests are shown to be interval
 membership measured by clockwise distance, and the (predecessor, node] intervals of a set of nodes
 are shown to cover the ring without overlap.
 */
module IdRing {
  import opened Arithmetic
  import opened Ids

  /** The result of `compareTo`. */
  ghost function Compare(a: Id, b: Id): int {
    Sign(Value(a) - Value(b))
  }

  /** The clockwise distance computed by `distance`. */
  ghost function Dist(a: Id, b: Id): (d: nat)
    ensures d < Ring()
  {
    (Value(b) - Value(a)) % Ring()
  }

  ghost predicate BetweenOO(x: Id, from: Id, to: Id) {
    || (Compare(x, from) > 0 && Compare(x, to) < 0)
    || (Compare(to, from) <= 0 && Compare(x, from) > 0)
    || (Compare(x, to) < 0 && Compare(to, from) <= 0)
  }

  ghost predicate BetweenOC(x: Id, from: Id, to: Id) {
    || (Compare(x, from) > 0 && Compare(x, to) <= 0)
    || (Compare(to, from) <= 0 && Compare(x, from) > 0)
    || (Compare(x, to) <= 0 && Compare(to, from) <= 0)
  }

  ghost predicate BetweenCO(x: Id, from: Id, to: Id) {
    || (Compare(x, from) >= 0 && Compare(x, to) < 0)
    || (Compare(to, from) <= 0 && Compare(x, from) >= 0)
    || (Compare(x, to) < 0 && Compare(to, from) <= 0)
  }

  ghost predicate BetweenCC(x: Id, from: Id, to: Id) {
    || (Compare(x, from) >= 0 && Compare(x, to) <= 0)
    || (Compare(to, from) <= 0 && Compare(x, from) >= 0)
    || (Compare(x, to) <= 0 && Compare(to, from) <= 0)
  }

  lemma {:induction false} DistIs(a: Id, b: Id)
    ensures Value(a) <= Value(b) ==> Dist(a, b) == Value(b) - Value(a)
    ensures Value(b) < Value(a) ==> Dist(a, b) == Value(b) - Value(a) + Ring()
    ensures Dist(a, b) == 0 <==> a == b
  {
    ValueBound(a);
    ValueBound(b);
    if Value(a) <= Value(b) {
      ModIs(Value(b) - Value(a), Ring(), 0, Value(b) - Value(a));
    } else {
      ModIs(Value(b) - Value(a), Ring(), -1, Value(b) - Value(a) + Ring());
    }
    if Value(a) == Value(b) {
      ValueInjective(a, b);
    }
  }

  // What the four tests mean on the ring.  With equal ends, all but (a, a) are the whole ring.

  lemma {:induction false} BetweenOOMeaning(x: Id, a: Id, b: Id)
    ensures BetweenOO(x, a, b) <==> 0 < Dist(a, x) && (a == b || Dist(a, x) < Dist(a, b))
  {
    DistIs(a, x);
    DistIs(a, b);
    ValueBound(x);
    ValueBound(a);
    ValueBound(b);
  }

  lemma {:induction false} BetweenOCMeaning(x: Id, a: Id, b: Id)
    ensures BetweenOC(x, a, b) <==> a == b || 0 < Dist(a, x) <= Dist(a, b)
  {
    DistIs(a, x);
    DistIs(a, b);
    ValueBound(x);
    ValueBound(a);
    ValueBound(b);
  }

  lemma {:induction false} BetweenCOMeaning(x: Id, a: Id, b: Id)
    ensures BetweenCO(x, a, b) <==> a == b || Dist(a, x) < Dist(a, b)
  {
    DistIs(a, x);
    DistIs(a, b);
    ValueBound(x);
    ValueBound(a);
    ValueBound(b);
  }

  lemma {:induction false} BetweenCCMeaning(x: Id, a: Id, b: Id)
    ensures BetweenCC(x, a, b) <==> a == b || Dist(a, x) <= Dist(a, b)
  {
    DistIs(a, x);
    DistIs(a, b);
    ValueBound(x);
    ValueBound(a);
    ValueBound(b);
  }

  // ---------------------------------------------------------------------------------
  // Key ownership
  // ---------------------------------------------------------------------------------

  /** `p` is the closest node before `n` on the ring; a lone node precedes itself. */
  ghost predicate Precedes(nodes: set<Id>, p: Id, n: Id) {
    && p in nodes && n in nodes
    && (p == n ==> nodes == {n})
    && forall q | q in nodes && q != n :: p != n && Dist(p, n) <= Dist(q, n)
  }

  /** `n` is the first node met going clockwise from `key`. */
  ghost predicate FirstFrom(nodes: set<Id>, key: Id, n: Id) {
    n in nodes && forall q | q in nodes :: Dist(key, n) <= Dist(key, q)
  }

  /** Distances compose around the ring, with at most one extra lap. */
  lemma {:induction false} DistVia(a: Id, b: Id, c: Id)
    ensures Dist(a, b) + Dist(b, c) == Dist(a, c) || Dist(a, b) + Dist(b, c) == Dist(a, c) + Ring()
  {
    DistIs(a, b);
    DistIs(b, c);
    DistIs(a, c);
    ValueBound(a);
    ValueBound(b);
    ValueBound(c);
  }

  lemma {:induction false} FirstExists(nodes: set<Id>, key: Id) returns (n: Id)
    requires nodes != {}
    ensures FirstFrom(nodes, key, n)
    decreases |nodes|
  {
    n :| n in nodes;
    var rest := nodes - {n};
    if rest != {} {
      var m := FirstExists(rest, key);
      if Dist(key, m) < Dist(key, n) {
        n := m;
      }
    }
  }

  lemma {:induction false} PredecessorExists(nodes: set<Id>, n: Id) returns (p: Id)
    requires n in nodes
    ensures Precedes(nodes, p, n)
    decreases |nodes|
  {
    p := n;
    var others := nodes - {n};
    if others != {} {
      p := ClosestBefore(others, n);
    } else {
      assert nodes == others + {n};
    }
  }

  lemma {:induction false} ClosestBefore(nodes: set<Id>, n: Id) returns (p: Id)
    requires nodes != {}
    ensures p in nodes && forall q | q in nodes :: Dist(p, n) <= Dist(q, n)
    decreases |nodes|
  {
    p :| p in nodes;
    var rest := nodes - {p};
    if rest != {} {
      var m := ClosestBefore(rest, n);
      if Dist(m, n) < Dist(p, n) {
        p := m;
      }
    }
  }

  /** A key is in the interval of a node exactly when that node is the first one met from the key. */
  lemma {:induction false} OwnedByFirst(nodes: set<Id>, p: Id, n: Id, key: Id)
    requires Precedes(nodes, p, n)
    ensures BetweenOC(key, p, n) <==> FirstFrom(nodes, key, n)
  {
    BetweenOCMeaning(key, p, n);
    if p != n {
      if BetweenOC(key, p, n) {
        forall q | q in nodes ensures Dist(key, n) <= Dist(key, q) {
          OwnedIsFirst(p, n, key, q);
        }
      } else {
        OutsideIsLater(p, n, key);
        assert Dist(key, p) < Dist(key, n);
      }
    }
  }

  lemma {:induction false} OwnedIsFirst(p: Id, n: Id, key: Id, q: Id)
    requires p != n && 0 < Dist(p, key) <= Dist(p, n)
    requires q != n ==> Dist(p, n) <= Dist(q, n)
    ensures Dist(key, n) <= Dist(key, q)
  {
    DistVia(p, key, n);
    DistVia(key, q, n);
    DistIs(p, n);
    if q != n {
      assert Dist(key, n) < Dist(p, n);
    }
  }

  lemma {:induction false} OutsideIsLater(p: Id, n: Id, key: Id)
    requires p != n && !(0 < Dist(p, key) <= Dist(p, n))
    ensures Dist(key, p) < Dist(key, n)
  {
    DistVia(key, p, n);
    DistVia(p, key, p);
    DistVia(p, key, n);
    DistIs(p, key);
    DistIs(key, p);
    DistIs(p, p);
    DistIs(p, n);
  }

  /** Every key lies in the interval of exactly one node. */
  lemma {:induction false} ExactlyOneOwner(nodes: set<Id>, key: Id) returns (p: Id, n: Id)
    requires nodes != {}
    ensures Precedes(nodes, p, n) && BetweenOC(key, p, n)
    ensures forall p', n' | Precedes(nodes, p', n') && BetweenOC(key, p', n') :: n' == n
  {
    n := FirstExists(nodes, key);
    p := PredecessorExists(nodes, n);
    OwnedByFirst(nodes, p, n, key);
    forall p', n' | Precedes(nodes, p', n') && BetweenOC(key, p', n') ensures n' == n {
      OwnedByFirst(nodes, p', n', key);
      EqualDistances(key, n, n');
    }
  }

  lemma {:induction false} EqualDistances(key: Id, a: Id, b: Id)
    requires Dist(key, a) == Dist(key, b)
    ensures a == b
  {
    DistVia(key, a, b);
    DistIs(a, b);
  }
}
