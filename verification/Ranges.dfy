/**
 Range lookups over a keyed index (p2core/commonTable.C): a stretch of the index between two searches is
 shown to be the tuples between two key values.
 */
module Ranges {
  import opened Options
  import opened Keys
  import opened Indices

  /** An end of a range: none, or key values that are in the range unless it is open there. */
  datatype End = Unbounded | At(values: seq<Value>, open: bool)

  /** Too low for the range. */
  predicate Under(key: Key, lower: End, s: Tuple) {
    lower.At? && (LexLess(SortKey(key, s), lower.values) || (lower.open && SortKey(key, s) == lower.values))
  }

  /** Too high for it. */
  predicate Over(key: Key, upper: End, s: Tuple) {
    upper.At? && (LexLess(upper.values, SortKey(key, s)) || (upper.open && SortKey(key, s) == upper.values))
  }

  /** The tuples in the range, in index order. */
  function InRange(key: Key, index: seq<Tuple>, lower: End, upper: End): seq<Tuple> {
    if index == [] then []
    else if Under(key, lower, index[0]) || Over(key, upper, index[0]) then InRange(key, index[1..], lower, upper)
    else [index[0]] + InRange(key, index[1..], lower, upper)
  }

  /** Where the range starts and stops in the index. */
  ghost predicate Cut(key: Key, index: seq<Tuple>, lower: End, upper: End, from: nat, to: nat) {
    && from <= |index| && to <= |index|
    && (forall i | 0 <= i < |index| :: i < from <==> Under(key, lower, index[i]))
    && (forall i | 0 <= i < |index| :: i >= to <==> Over(key, upper, index[i]))
  }

  lemma {:induction false} InRangeSplit(key: Key, a: seq<Tuple>, b: seq<Tuple>, lower: End, upper: End)
    ensures InRange(key, a + b, lower, upper) == InRange(key, a, lower, upper) + InRange(key, b, lower, upper)
  {
    if a == [] {
      assert a + b == b;
    } else {
      assert (a + b)[0] == a[0] && (a + b)[1..] == a[1..] + b;
      InRangeSplit(key, a[1..], b, lower, upper);
    }
  }

  lemma {:induction false} NoneInRange(key: Key, s: seq<Tuple>, lower: End, upper: End)
    requires forall i | 0 <= i < |s| :: Under(key, lower, s[i]) || Over(key, upper, s[i])
    ensures InRange(key, s, lower, upper) == []
  {
    if s != [] {
      NoneInRange(key, s[1..], lower, upper);
    }
  }

  lemma {:induction false} AllInRange(key: Key, s: seq<Tuple>, lower: End, upper: End)
    requires forall i | 0 <= i < |s| :: !Under(key, lower, s[i]) && !Over(key, upper, s[i])
    ensures InRange(key, s, lower, upper) == s
  {
    if s != [] {
      AllInRange(key, s[1..], lower, upper);
    }
  }

  lemma {:induction false} RangeOfParts(key: Key, a: seq<Tuple>, b: seq<Tuple>, c: seq<Tuple>, lower: End, upper: End)
    requires forall i | 0 <= i < |a| :: Under(key, lower, a[i])
    requires forall i | 0 <= i < |b| :: !Under(key, lower, b[i]) && !Over(key, upper, b[i])
    requires forall i | 0 <= i < |c| :: Over(key, upper, c[i])
    ensures InRange(key, a + b + c, lower, upper) == b
  {
    InRangeSplit(key, a + b, c, lower, upper);
    InRangeSplit(key, a, b, lower, upper);
    NoneInRange(key, a, lower, upper);
    AllInRange(key, b, lower, upper);
    NoneInRange(key, c, lower, upper);
  }

  lemma {:induction false} CutIsRange(key: Key, index: seq<Tuple>, lower: End, upper: End, from: nat, to: nat)
    requires Cut(key, index, lower, upper, from, to) && from <= to
    ensures index[from..to] == InRange(key, index, lower, upper)
  {
    var (a, b, c) := (index[..from], index[from..to], index[to..]);
    assert index == a + b + c;
    RangeOfParts(key, a, b, c, lower, upper);
  }

  /** The walk starts after it stops exactly when some tuple is both too low and too high. */
  lemma {:induction false} CutInverted(key: Key, index: seq<Tuple>, lower: End, upper: End, from: nat, to: nat)
    requires Cut(key, index, lower, upper, from, to)
    ensures from > to <==> exists i | 0 <= i < |index| :: Under(key, lower, index[i]) && Over(key, upper, index[i])
  {
    if from > to {
      assert Under(key, lower, index[to]) && Over(key, upper, index[to]);
    }
  }

  /** A lower end that is not above the upper one; at the same values one of them must be closed. */
  predicate NotInverted(lower: End, upper: End) {
    lower.At? && upper.At? ==>
      LexLess(lower.values, upper.values) || (lower.values == upper.values && !(lower.open && upper.open))
  }

  lemma {:induction false} NotInvertedIsSafe(key: Key, lower: End, upper: End, s: Tuple)
    requires NotInverted(lower, upper)
    ensures !(Under(key, lower, s) && Over(key, upper, s))
  {
    if Under(key, lower, s) && Over(key, upper, s) {
      var k := SortKey(key, s);
      LexTotal(k, lower.values);
      LexTotal(k, upper.values);
      LexTotal(lower.values, upper.values);
      if LexLess(k, lower.values) && LexLess(lower.values, upper.values) {
        LexTransitive(k, lower.values, upper.values);
      }
    }
  }

  /** The two searches of `range1DLookupSecondary`. */
  method FindCut(key: Key, index: seq<Tuple>, lb: Option<Tuple>, openL: bool, rb: Option<Tuple>, openR: bool)
    returns (from: nat, to: nat)
    requires Sorted(key, index)
    ensures Cut(key, index, EndAt(key, lb, openL), EndAt(key, rb, openR), from, to)
  {
    from, to := 0, |index|;
    if lb.Some? {
      var lo, hi := EqualRange(key, index, lb.value);
      BoundsCut(key, index, lb.value, lo, hi);
      from := if openL then hi else lo;
    }
    if rb.Some? {
      var lo, hi := EqualRange(key, index, rb.value);
      BoundsCut(key, index, rb.value, lo, hi);
      to := if openR then lo else hi;
    }
  }

  ghost function EndAt(key: Key, bound: Option<Tuple>, open: bool): End {
    if bound.None? then Unbounded else At(SortKey(key, bound.value), open)
  }

  lemma {:induction false} BoundsCut(key: Key, index: seq<Tuple>, e: Tuple, lo: int, hi: int)
    requires Bounds(key, index, e, lo, hi)
    ensures forall i | 0 <= i < |index| ::
              && (i < lo <==> LexLess(SortKey(key, index[i]), SortKey(key, e)))
              && (lo <= i < hi <==> SortKey(key, index[i]) == SortKey(key, e))
              && (i >= hi <==> LexLess(SortKey(key, e), SortKey(key, index[i])))
  {
    forall i | 0 <= i < |index|
      ensures (i < lo <==> LexLess(SortKey(key, index[i]), SortKey(key, e)))
              && (lo <= i < hi <==> SortKey(key, index[i]) == SortKey(key, e))
              && (i >= hi <==> LexLess(SortKey(key, e), SortKey(key, index[i])))
    {
      LexTotal(SortKey(key, index[i]), SortKey(key, e));
    }
  }

  /**
   `range1DLookupSecondary`: exactly the tuples in the range, in index order.  None stands for a walk that
   starts after it stops and so never ends; that needs a stored tuple both too low and too high.
   */
  method RangeSpool(key: Key, index: seq<Tuple>, lb: Option<Tuple>, openL: bool, rb: Option<Tuple>, openR: bool)
    returns (r: Option<seq<Tuple>>)
    requires Sorted(key, index)
    ensures var (lower, upper) := (EndAt(key, lb, openL), EndAt(key, rb, openR));
            && (r.None? <==> exists i | 0 <= i < |index| :: Under(key, lower, index[i]) && Over(key, upper, index[i]))
            && (r.Some? ==> r.value == InRange(key, index, lower, upper))
            && (NotInverted(lower, upper) ==> r.Some?)
  {
    ghost var (lower, upper) := (EndAt(key, lb, openL), EndAt(key, rb, openR));
    var from, to := FindCut(key, index, lb, openL, rb, openR);
    CutInverted(key, index, lower, upper, from, to);
    if from > to {
      if NotInverted(lower, upper) {
        NotInvertedIsSafe(key, lower, upper, index[to]);
      }
      return None;
    }
    CutIsRange(key, index, lower, upper, from, to);
    var found := ReadSpool(index, from, to);
    return Some(found);
  }
}
