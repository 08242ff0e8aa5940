/**
 What a reference-counted table holds after any run (p2core/refTable.C), told from the operations alone:
 the count of an entry is the largest surplus of insertions over removals since any point of the stretch
 in which its fields were the only ones inserted.
 */
module TableCounts {
  import opened Keys
  import opened Tables

  /** The operation inserts a tuple with sort key `g`. */
  ghost predicate InsertsAt(key: Key, g: seq<Value>, op: Op) {
    op.InsertOp? && SortKey(key, op.t) == g
  }

  ghost predicate RemovesAt(key: Key, g: seq<Value>, op: Op) {
    op.RemoveOp? && SortKey(key, op.t) == g
  }

  ghost function Effect(key: Key, g: seq<Value>, op: Op): int {
    if InsertsAt(key, g, op) then 1 else if RemovesAt(key, g, op) then -1 else 0
  }

  /** Insertions less removals in the operations from `a` up to `n`. */
  ghost function Surplus(key: Key, g: seq<Value>, ops: seq<Op>, a: nat, n: nat): int
    requires a <= n <= |ops|
    decreases n
  {
    if a == n then 0 else Surplus(key, g, ops, a, n - 1) + Effect(key, g, ops[n - 1])
  }

  ghost function Floor(m: int): nat {
    if m < 0 then 0 else m
  }

  ghost function CountAt(c: Contents, g: seq<Value>): nat {
    if g in c then c[g].count else 0
  }

  /** All insertions at `g` from `s` up to `n` have the same fields. */
  ghost predicate SameFields(key: Key, g: seq<Value>, ops: seq<Op>, s: nat, n: nat)
    requires s <= n <= |ops|
  {
    forall i, j | s <= i < j < n && InsertsAt(key, g, ops[i]) && InsertsAt(key, g, ops[j]) ::
      ops[i].t.fields == ops[j].t.fields
  }

  /** Operation `r` is the latest insertion at `g` before operation `n`. */
  ghost predicate LatestAt(key: Key, g: seq<Value>, ops: seq<Op>, r: nat, n: nat) {
    && r < n <= |ops| && InsertsAt(key, g, ops[r])
    && forall k | r < k < n :: !InsertsAt(key, g, ops[k])
  }

  /** From `s` up to `n` only one tuple is inserted at `g`, up to its ID, and `s` begins with it. */
  ghost predicate Stretch(key: Key, g: seq<Value>, ops: seq<Op>, s: nat, n: nat) {
    && s <= n <= |ops| && SameFields(key, g, ops, s, n)
    && (s == 0 || (s < n && InsertsAt(key, g, ops[s]) && Replaces(key, g, ops, s)))
  }

  /** Operation `s` inserts other fields than the insertion before it. */
  ghost predicate Replaces(key: Key, g: seq<Value>, ops: seq<Op>, s: nat)
    requires s < |ops| && ops[s].InsertOp?
  {
    exists r: nat :: LatestAt(key, g, ops, r, s) && ops[r].t.fields != ops[s].t.fields
  }

  /** An entry has the fields inserted last at its key, and is counted. */
  ghost predicate EntryLatest(key: Key, g: seq<Value>, ops: seq<Op>, n: nat, c: Contents) {
    g in c ==> c[g].count > 0 && exists r: nat :: LatestAt(key, g, ops, r, n) && ops[r].t.fields == c[g].tuple.fields
  }

  lemma {:induction false} LatestStep(key: Key, g: seq<Value>, ops: seq<Op>, r: nat, n: nat)
    requires n < |ops|
    ensures InsertsAt(key, g, ops[n]) ==> (LatestAt(key, g, ops, r, n + 1) <==> r == n)
    ensures !InsertsAt(key, g, ops[n]) ==> (LatestAt(key, g, ops, r, n + 1) <==> LatestAt(key, g, ops, r, n))
  {
  }

  lemma {:induction false} EntryIsLatest(key: Key, g: seq<Value>, ops: seq<Op>, n: nat)
    requires n <= |ops|
    ensures EntryLatest(key, g, ops, n, ContentsAfter(key, ops, n))
  {
    if n > 0 {
      EntryIsLatest(key, g, ops, n - 1);
      LatestStep(key, g, ops, n - 1, n - 1);
      var c := ContentsAfter(key, ops, n - 1);
      if g in c {
        var r: nat :| LatestAt(key, g, ops, r, n - 1) && ops[r].t.fields == c[g].tuple.fields;
        LatestStep(key, g, ops, r, n - 1);
      }
    }
  }

  /** What one operation does to the count at `g`, when it does not bring other fields. */
  lemma {:induction false} CountStep(key: Key, g: seq<Value>, c: Contents, op: Op)
    requires g in c && InsertsAt(key, g, op) ==> op.t.fields == c[g].tuple.fields
    requires g in c ==> c[g].count > 0
    ensures var c' := AfterOp(key, c, op);
            && CountAt(c', g) == Floor(CountAt(c, g) + Effect(key, g, op))
            && (g in c' <==> CountAt(c', g) > 0)
            && (g in c && g in c' ==> c'[g].tuple == c[g].tuple)
            && (g !in c && g in c' ==> InsertsAt(key, g, op) && c'[g].tuple == op.t)
  {
  }

  /** An insertion of other fields, or of the first ones, makes the count 1. */
  lemma {:induction false} CountStarts(key: Key, g: seq<Value>, c: Contents, op: Op)
    requires InsertsAt(key, g, op) && (g in c ==> op.t.fields != c[g].tuple.fields)
    ensures AfterOp(key, c, op) == c[g := Stored(op.t, 1)]
  {
  }

  ghost function AfterOp(key: Key, c: Contents, op: Op): Contents {
    match op
    case InsertOp(t) => AfterInsert(key, c, t)
    case RemoveOp(t) => AfterRemove(key, c, t)
    case _ => c
  }

  /** The count `m` is the largest surplus up to `n` since any point of the stretch. */
  ghost predicate LargestSurplus(key: Key, g: seq<Value>, ops: seq<Op>, s: nat, n: nat, m: int)
    requires s <= n <= |ops|
  {
    && (forall a | s <= a <= n :: Surplus(key, g, ops, a, n) <= m)
    && exists a | s <= a <= n :: Surplus(key, g, ops, a, n) == m
  }

  /** The latest point from which the surplus is the largest. */
  ghost predicate LatestPeak(key: Key, g: seq<Value>, ops: seq<Op>, a: nat, n: nat, m: int)
    requires a <= n <= |ops|
  {
    Surplus(key, g, ops, a, n) == m && forall b | a < b <= n :: Surplus(key, g, ops, b, n) < m
  }

  /** What the operations tell about the entry at `g`. */
  ghost predicate Told(key: Key, g: seq<Value>, ops: seq<Op>, s: nat, n: nat, c: Contents)
    requires s <= n <= |ops|
  {
    && LargestSurplus(key, g, ops, s, n, CountAt(c, g)) && (g in c <==> CountAt(c, g) > 0)
    && forall a: nat | s <= a < n && LatestPeak(key, g, ops, a, n, CountAt(c, g)) ::
         g in c && ops[a] == InsertOp(c[g].tuple)
  }

  lemma {:induction false} SurplusStep(key: Key, g: seq<Value>, ops: seq<Op>, s: nat, n: nat, m: nat)
    requires s <= n < |ops| && LargestSurplus(key, g, ops, s, n, m)
    ensures var e := Effect(key, g, ops[n]);
            LargestSurplus(key, g, ops, s, n + 1, Floor(m + e))
  {
    var e := Effect(key, g, ops[n]);
    var (m', n') := (Floor(m + e), n + 1);
    forall a | s <= a <= n' ensures Surplus(key, g, ops, a, n') <= m' {
      if a <= n {
        assert Surplus(key, g, ops, a, n') == Surplus(key, g, ops, a, n) + e;
      }
    }
    var a :| s <= a <= n && Surplus(key, g, ops, a, n) == m;
    assert Surplus(key, g, ops, a, n + 1) == m + e;
    var w := if m + e < 0 then n + 1 else a;
    assert Surplus(key, g, ops, w, n + 1) == m';
  }

  /** A peak after one more operation was one before, or begins with this operation. */
  lemma {:induction false} PeakBefore(key: Key, g: seq<Value>, ops: seq<Op>, s: nat, a: nat, n: nat, m: nat, m': nat)
    requires s <= a <= n < |ops| && LargestSurplus(key, g, ops, s, n, m)
    requires var e := Effect(key, g, ops[n]);
             m' == (Floor(m + e)) && LatestPeak(key, g, ops, a, n + 1, m')
    ensures m' > 0 && LatestPeak(key, g, ops, a, n, m)
  {
    var e := Effect(key, g, ops[n]);
    assert Surplus(key, g, ops, n + 1, n + 1) == 0;
    assert Surplus(key, g, ops, a, n + 1) == Surplus(key, g, ops, a, n) + e;
    forall b | a < b <= n ensures Surplus(key, g, ops, b, n) < m {
      assert Surplus(key, g, ops, b, n + 1) == Surplus(key, g, ops, b, n) + e;
    }
  }

  /** The entry is the one from the latest peak still, or has just come in. */
  lemma {:induction false} PeakTold(key: Key, g: seq<Value>, ops: seq<Op>, s: nat, a: nat, n: nat, c: Contents,
                                    c': Contents)
    requires s <= a <= n < |ops| && Told(key, g, ops, s, n, c) && c' == AfterOp(key, c, ops[n])
    requires g in c && InsertsAt(key, g, ops[n]) ==> ops[n].t.fields == c[g].tuple.fields
    requires LatestPeak(key, g, ops, a, n + 1, CountAt(c', g))
    ensures g in c' && ops[a] == InsertOp(c'[g].tuple)
  {
    CountStep(key, g, c, ops[n]);
    PeakBefore(key, g, ops, s, a, n, CountAt(c, g), CountAt(c', g));
    if a == n {
      assert Surplus(key, g, ops, n, n) == 0;
    }
  }

  lemma {:induction false} ToldStep(key: Key, g: seq<Value>, ops: seq<Op>, s: nat, n: nat, n': nat, c: Contents)
    requires s <= n < |ops| && n' == n + 1 && Told(key, g, ops, s, n, c)
    requires g in c && InsertsAt(key, g, ops[n]) ==> ops[n].t.fields == c[g].tuple.fields
    ensures Told(key, g, ops, s, n', AfterOp(key, c, ops[n])) == true
  {
    var (c', m) := (AfterOp(key, c, ops[n]), CountAt(c, g));
    CountStep(key, g, c, ops[n]);
    SurplusStep(key, g, ops, s, n, m);
    forall a: nat | s <= a < n' && LatestPeak(key, g, ops, a, n', CountAt(c', g))
      ensures g in c' && ops[a] == InsertOp(c'[g].tuple)
    {
      PeakTold(key, g, ops, s, a, n, c, c');
    }
  }

  lemma {:induction false} ToldStart(key: Key, g: seq<Value>, ops: seq<Op>, s: nat, c: Contents)
    requires s < |ops| && InsertsAt(key, g, ops[s]) && (g in c ==> ops[s].t.fields != c[g].tuple.fields)
    ensures Told(key, g, ops, s, s + 1, AfterOp(key, c, ops[s])) == true
  {
    CountStarts(key, g, c, ops[s]);
    assert Surplus(key, g, ops, s, s) == 0 && Surplus(key, g, ops, s + 1, s + 1) == 0;
    assert Surplus(key, g, ops, s, s + 1) == 1;
  }

  lemma {:induction false} LatestUnique(key: Key, g: seq<Value>, ops: seq<Op>, r: nat, r': nat, n: nat)
    requires LatestAt(key, g, ops, r, n) && LatestAt(key, g, ops, r', n)
    ensures r == r'
  {
  }

  /** Within a stretch an insertion brings the fields that are there. */
  lemma {:induction false} BringsSame(key: Key, g: seq<Value>, ops: seq<Op>, s: nat, n: nat, c: Contents)
    requires n < |ops| && Stretch(key, g, ops, s, n + 1) && (s == 0 || s < n)
    requires EntryLatest(key, g, ops, n, c) && g in c && InsertsAt(key, g, ops[n])
    ensures ops[n].t.fields == c[g].tuple.fields
  {
    var r: nat :| LatestAt(key, g, ops, r, n) && ops[r].t.fields == c[g].tuple.fields;
    assert r >= s;
  }

  /** A replacement starts with fields that are not there. */
  lemma {:induction false} BringsOther(key: Key, g: seq<Value>, ops: seq<Op>, s: nat, c: Contents)
    requires s < |ops| && InsertsAt(key, g, ops[s]) && Replaces(key, g, ops, s) && EntryLatest(key, g, ops, s, c)
    ensures g in c ==> ops[s].t.fields != c[g].tuple.fields
  {
    if g in c {
      var r: nat :| LatestAt(key, g, ops, r, s) && ops[r].t.fields == c[g].tuple.fields;
      var r': nat :| LatestAt(key, g, ops, r', s) && ops[r'].t.fields != ops[s].t.fields;
      LatestUnique(key, g, ops, r, r', s);
    }
  }

  /**
   After any run: the count at `g` is the largest surplus of insertions over removals since any point of
   its stretch, there is an entry exactly when that is positive, and the entry is the tuple inserted at
   the latest point from which the surplus is so large.
   */
  lemma {:induction false} EntryTold(key: Key, g: seq<Value>, ops: seq<Op>, s: nat, n: nat)
    requires Stretch(key, g, ops, s, n)
    ensures Told(key, g, ops, s, n, ContentsAfter(key, ops, n))
  {
    if n == 0 {
      assert Surplus(key, g, ops, 0, 0) == 0;
    } else {
      var c := ContentsAfter(key, ops, n - 1);
      EntryIsLatest(key, g, ops, n - 1);
      if 0 < s == n - 1 {
        BringsOther(key, g, ops, s, c);
        ToldStart(key, g, ops, s, c);
      } else {
        EntryTold(key, g, ops, s, n - 1);
        if g in c && InsertsAt(key, g, ops[n - 1]) {
          BringsSame(key, g, ops, s, n - 1, c);
        }
        ToldStep(key, g, ops, s, n - 1, n, c);
      }
    }
  }

  /** Every key has a stretch at every time, so the operations determine the contents. */
  lemma {:induction false} StretchExists(key: Key, g: seq<Value>, ops: seq<Op>, n: nat) returns (s: nat)
    requires n <= |ops|
    ensures Stretch(key, g, ops, s, n)
  {
    if n == 0 {
      s := 0;
    } else {
      s := StretchExists(key, g, ops, n - 1);
      if InsertsAt(key, g, ops[n - 1]) && Replaces(key, g, ops, n - 1) {
        s := n - 1;
      } else if InsertsAt(key, g, ops[n - 1]) {
        forall i | s <= i < n - 1 && InsertsAt(key, g, ops[i]) ensures ops[i].t.fields == ops[n - 1].t.fields {
          var r := LatestFrom(key, g, ops, i, n - 1);
        }
      }
    }
  }

  lemma {:induction false} LatestFrom(key: Key, g: seq<Value>, ops: seq<Op>, i: nat, n: nat) returns (r: nat)
    requires i < n <= |ops| && InsertsAt(key, g, ops[i])
    ensures i <= r && LatestAt(key, g, ops, r, n)
  {
    r := i;
    for k := i + 1 to n
      invariant i <= r && LatestAt(key, g, ops, r, k)
    {
      if InsertsAt(key, g, ops[k]) {
        r := k;
      }
    }
  }

  /**
   In particular: `n` insertions of a tuple where its key is free, then `m` removals, leave it exactly
   when `m` is smaller, with the difference as its count.
   */
  lemma {:induction false} InsertedThenRemoved(key: Key, t: Tuple, n: nat, m: nat)
    ensures var ops := seq(n, _ => InsertOp(t)) + seq(m, _ => RemoveOp(t));
            var (c, g) := (ContentsAfter(key, ops, n + m), SortKey(key, t));
            && (g in c <==> m < n)
            && (m < n ==> c[g] == Stored(t, n - m))
  {
    var (ops, g) := (seq(n, _ => InsertOp(t)) + seq(m, _ => RemoveOp(t)), SortKey(key, t));
    for k := 0 to n + m
      invariant var c := ContentsAfter(key, ops, k);
                var left := if k <= n then k else if k - n < n then n - (k - n) else 0;
                (g in c <==> left > 0) && (left > 0 ==> c[g] == Stored(t, left))
    {
      assert ops[k] == if k < n then InsertOp(t) else RemoveOp(t);
    }
  }
}
