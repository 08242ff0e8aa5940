/**
 Tuples, key specifications and the order they induce (p2core/commonTable.C).  The field-by-field
 comparison loop is shown to be the lexicographic order on projections, hence a strict weak order.
 */
module Keys {

  datatype Value = Null | Int(n: int)

  /** `compareTo` on field values: null is below everything else. */
  predicate ValueLess(a: Value, b: Value) {
    if a.Null? then b.Int? else b.Int? && a.n < b.n
  }

  lemma {:induction false} ValueOrder(a: int, b: int, v: Value)
    ensures ValueLess(Int(a), Int(b)) <==> a < b
    ensures (ValueLess(Null, v) <==> v != Null) && !ValueLess(v, Null)
  {
  }

  datatype Tuple = Tuple(id: nat, fields: seq<Value>)

  type Key = seq<nat>

  /** The key fields of a tuple in key order, cut at the first one the tuple lacks. */
  function Project(key: Key, fields: seq<Value>): seq<Value> {
    if key == [] || key[0] >= |fields| then []
    else [fields[key[0]]] + Project(key[1..], fields)
  }

  /** What a tuple is ordered by under a key; the empty key stands for the tuple ID. */
  function SortKey(key: Key, t: Tuple): seq<Value> {
    if key == [] then [Int(t.id)] else Project(key, t.fields)
  }

  /** Lexicographic order, with proper prefixes smaller. */
  predicate LexLess(a: seq<Value>, b: seq<Value>) {
    if b == [] then false
    else if a == [] then true
    else ValueLess(a[0], b[0]) || (a[0] == b[0] && LexLess(a[1..], b[1..]))
  }

  /** The order of keyed indices. */
  predicate Less(key: Key, a: Tuple, b: Tuple) {
    LexLess(SortKey(key, a), SortKey(key, b))
  }

  lemma {:induction false} LexTotal(a: seq<Value>, b: seq<Value>)
    ensures LexLess(a, b) || a == b || LexLess(b, a)
    ensures !(LexLess(a, b) && a == b) && !(LexLess(a, b) && LexLess(b, a))
  {
    if a != [] && b != [] {
      LexTotal(a[1..], b[1..]);
      if a[0] == b[0] && a[1..] == b[1..] {
        assert a == [a[0]] + a[1..] && b == [b[0]] + b[1..];
      }
    }
  }

  lemma {:induction false} LexTransitive(a: seq<Value>, b: seq<Value>, c: seq<Value>)
    requires LexLess(a, b) && LexLess(b, c)
    ensures LexLess(a, c)
  {
    if a != [] && a[0] == b[0] && b[0] == c[0] {
      LexTransitive(a[1..], b[1..], c[1..]);
    }
  }

  /** `a` and `b` are the same up to place `k`, where `a` ends or has the smaller value. */
  ghost predicate SmallerAt(a: seq<Value>, b: seq<Value>, k: nat) {
    && k <= |a| && k < |b| && a[..k] == b[..k]
    && (k == |a| || ValueLess(a[k], b[k]))
  }

  /** The first difference decides. */
  lemma {:induction false} FirstDifferenceDecides(a: seq<Value>, b: seq<Value>)
    ensures LexLess(a, b) <==> exists k: nat :: SmallerAt(a, b, k)
  {
    if b != [] && a == [] {
      assert SmallerAt(a, b, 0);
    } else if b != [] {
      FirstDifferenceDecides(a[1..], b[1..]);
      if ValueLess(a[0], b[0]) {
        assert SmallerAt(a, b, 0);
      }
      if k: nat :| SmallerAt(a[1..], b[1..], k) && a[0] == b[0] {
        assert a[..k + 1] == [a[0]] + a[1..][..k] && b[..k + 1] == [b[0]] + b[1..][..k];
        assert SmallerAt(a, b, k + 1);
      }
      if k: nat :| k > 0 && SmallerAt(a, b, k) {
        assert a[0] == a[..k][0] && b[0] == b[..k][0];
        assert a[1..][..k - 1] == a[..k][1..] && b[1..][..k - 1] == b[..k][1..];
        assert SmallerAt(a[1..], b[1..], k - 1);
      }
    }
  }

  ghost predicate Equivalent(key: Key, a: Tuple, b: Tuple) {
    !Less(key, a, b) && !Less(key, b, a)
  }

  /** Index order is a strict weak order whose ties are exactly the tuples with equal sort keys. */
  lemma {:induction false} StrictWeakOrder(key: Key, a: Tuple, b: Tuple, c: Tuple)
    ensures !Less(key, a, a)
    ensures Less(key, a, b) && Less(key, b, c) ==> Less(key, a, c)
    ensures Less(key, a, b) ==> Less(key, a, c) || Less(key, c, b)
    ensures Equivalent(key, a, b) <==> SortKey(key, a) == SortKey(key, b)
  {
    var (x, y, z) := (SortKey(key, a), SortKey(key, b), SortKey(key, c));
    LexTotal(x, x);
    LexTotal(x, y);
    LexTotal(x, z);
    LexTotal(z, y);
    if LexLess(x, y) && LexLess(y, z) {
      LexTransitive(x, y, z);
    }
    if LexLess(x, y) && LexLess(z, x) {
      LexTransitive(z, x, y);
    }
  }

  /** The comparison loop shared by KeyedEntryComparator and KeyedTupleComparator. */
  method CompareTuples(key: Key, first: Tuple, second: Tuple) returns (less: bool)
    ensures less <==> Less(key, first, second)
  {
    if key == [] {
      LexTotal([Int(first.id)], [Int(second.id)]);
      return first.id < second.id;
    }
    ghost var goal := Less(key, first, second);
    var i := 0;
    while i < |key|
      invariant i <= |key|
      invariant goal == LexLess(Project(key[i..], first.fields), Project(key[i..], second.fields))
    {
      var fieldNo := key[i];
      assert key[i..][0] == fieldNo && key[i..][1..] == key[i + 1..];
      if |first.fields| > fieldNo {
        if |second.fields| > fieldNo {
          if ValueLess(first.fields[fieldNo], second.fields[fieldNo]) {
            return true;
          } else if ValueLess(second.fields[fieldNo], first.fields[fieldNo]) {
            return false;
          }
        } else {
          return false;
        }
      } else {
        return |second.fields| > fieldNo;
      }
      i := i + 1;
    }
    return false;
  }

  /** `s` has every key field, with the values that `search` has there. */
  ghost predicate Matches(key: Key, s: Tuple, search: seq<Value>) {
    forall k | 0 <= k < |key| ::
      key[k] < |s.fields| && key[k] < |search| && s.fields[key[k]] == search[key[k]]
  }

  /** A search tuple that has all key fields ties with exactly the tuples that agree with it on them. */
  lemma {:induction false} TiesMatch(key: Key, s: Tuple, search: Tuple)
    requires key != [] && forall k | 0 <= k < |key| :: key[k] < |search.fields|
    ensures SortKey(key, s) == SortKey(key, search) <==> Matches(key, s, search.fields)
  {
    ProjectionsMatch(key, s, search.fields);
  }

  lemma {:induction false} ProjectionsMatch(key: Key, s: Tuple, search: seq<Value>)
    requires forall k | 0 <= k < |key| :: key[k] < |search|
    ensures Project(key, s.fields) == Project(key, search) <==> Matches(key, s, search)
  {
    if key != [] {
      ProjectionsMatch(key[1..], s, search);
      if Matches(key, s, search) {
        assert forall k | 0 <= k < |key[1..]| :: key[1..][k] == key[k + 1];
      }
      if key[0] < |s.fields| {
        var (p, q) := (Project(key, s.fields), Project(key, search));
        assert p[1..] == Project(key[1..], s.fields) && q[1..] == Project(key[1..], search);
        if p == q {
          forall k | 0 <= k < |key|
            ensures key[k] < |s.fields| && s.fields[key[k]] == search[key[k]]
          {
            assert k > 0 ==> key[k] == key[1..][k - 1];
          }
        }
      }
    }
  }
}
