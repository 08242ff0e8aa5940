/**
 Continuous aggregates over a keyed index (p2core/commonTable.C, aggregates/): on every change the group
 of the changed tuple is recomputed, and listeners hear about it only if the value moved.
 */
module Aggregates {
  import opened Options
  import opened Keys
  import opened Indices

  datatype AggKind = Count | CountDistinct | Min | Max

  /** What an aggregate of a bag of values is. */
  ghost predicate IsAggregate(kind: AggKind, values: multiset<Value>, r: Value) {
    match kind
    case Count => r == Int(|values|)
    case CountDistinct => r == Int(|set v | v in values|)
    case Min => if values == multiset{} then r.Null? else r in values && forall v | v in values :: !ValueLess(v, r)
    case Max => if values == multiset{} then r.Null? else r in values && forall v | v in values :: !ValueLess(r, v)
  }

  lemma {:induction false} AggregateUnique(kind: AggKind, values: multiset<Value>, r: Value, r': Value)
    requires IsAggregate(kind, values, r) && IsAggregate(kind, values, r')
    ensures r == r'
  {
  }

  lemma {:induction false} BestExists(kind: AggKind, values: multiset<Value>) returns (v: Value)
    requires (kind.Min? || kind.Max?) && values != multiset{}
    ensures IsAggregate(kind, values, v)
    decreases |values|
  {
    var u :| u in values;
    var rest := values - multiset{u};
    assert values == rest + multiset{u};
    v := u;
    if rest != multiset{} {
      var w := BestExists(kind, rest);
      if (kind.Min? && ValueLess(w, u)) || (kind.Max? && ValueLess(u, w)) {
        v := w;
      }
    }
    assert forall x | x in values :: x == u || x in rest;
  }

  lemma {:induction false} AggregateExists(kind: AggKind, values: multiset<Value>)
    ensures exists v :: IsAggregate(kind, values, v)
  {
    match kind
    case Count => assert IsAggregate(kind, values, Int(|values|));
    case CountDistinct => assert IsAggregate(kind, values, Int(|set v | v in values|));
    case _ =>
      if values == multiset{} {
        assert IsAggregate(kind, values, Null);
      } else {
        var v := BestExists(kind, values);
      }
  }

  /** The aggregate of a bag of values. */
  ghost function AggregateOf(kind: AggKind, values: multiset<Value>): (v: Value)
    ensures IsAggregate(kind, values, v)
  {
    AggregateExists(kind, values);
    var v :| IsAggregate(kind, values, v);
    v
  }

  /** The aggregate functions: fed value by value, as the scan of a group goes along. */
  class AggFunc {
    const kind: AggKind
    var count: nat
    var distinct: set<Value>
    var best: Option<Value>

    constructor (kind: AggKind)
      ensures this.kind == kind && Holds(multiset{})
    {
      this.kind := kind;
      count, distinct, best := 0, {}, None;
    }

    /** The state after being fed `values`. */
    ghost predicate Holds(values: multiset<Value>)
      reads this
    {
      match kind
      case Count => count == |values|
      case CountDistinct => distinct == set v | v in values
      case _ =>
        && (best.None? <==> values == multiset{})
        && (best.Some? ==> IsAggregate(kind, values, best.value))
    }

    method Reset()
      modifies this
      ensures Holds(multiset{})
    {
      count, distinct, best := 0, {}, None;
    }

    method First(v: Value)
      requires Holds(multiset{})
      modifies this
      ensures Holds(multiset{v})
    {
      count, distinct, best := 1, distinct + {v}, Some(v);
    }

    method Process(v: Value, ghost values: multiset<Value>)
      requires Holds(values) && values != multiset{}
      modifies this
      ensures Holds(values + multiset{v})
    {
      count, distinct := count + 1, distinct + {v};
      if best.Some? && ((kind.Min? && ValueLess(v, best.value)) || (kind.Max? && ValueLess(best.value, v))) {
        best := Some(v);
      }
    }

    method Result(ghost values: multiset<Value>) returns (r: Value)
      requires Holds(values)
      ensures IsAggregate(kind, values, r)
    {
      match kind
      case Count => r := Int(count);
      case CountDistinct => r := Int(|distinct|);
      case _ => r := if best.Some? then best.value else Null;
    }
  }

  // ---------------------------------------------------------------------------------
  // Groups
  // ---------------------------------------------------------------------------------

  function FieldOf(t: Tuple, f: nat): Value {
    if f < |t.fields| then t.fields[f] else Null
  }

  function FieldsOf(s: seq<Tuple>, f: nat): (r: seq<Value>)
    ensures |r| == |s| && forall i | 0 <= i < |s| :: r[i] == FieldOf(s[i], f)
  {
    seq(|s|, i requires 0 <= i < |s| => FieldOf(s[i], f))
  }

  lemma {:induction false} FieldsOfErase(s: seq<Tuple>, k: nat, f: nat)
    requires k < |s|
    ensures multiset(s) == multiset(s[..k] + s[k + 1..]) + multiset{s[k]}
    ensures multiset(FieldsOf(s, f)) == multiset(FieldsOf(s[..k] + s[k + 1..], f)) + multiset{FieldOf(s[k], f)}
  {
    assert s == s[..k] + [s[k]] + s[k + 1..];
    var values := FieldsOf(s, f);
    assert values == values[..k] + [values[k]] + values[k + 1..];
    assert FieldsOf(s[..k] + s[k + 1..], f) == values[..k] + values[k + 1..];
  }

  lemma {:induction false} CancelOne(x: multiset<Tuple>, y: multiset<Tuple>, e: Tuple)
    requires x + multiset{e} == y + multiset{e}
    ensures x == y
  {
    forall t ensures x[t] == y[t] {
      assert (x + multiset{e})[t] == (y + multiset{e})[t];
    }
  }

  lemma {:induction false} FieldsOfBag(a: seq<Tuple>, b: seq<Tuple>, f: nat)
    requires multiset(a) == multiset(b)
    ensures multiset(FieldsOf(a, f)) == multiset(FieldsOf(b, f))
  {
    assert |multiset(a)| == |multiset(b)|;
    if a != [] {
      assert a[0] in multiset(b);
      var k :| 0 <= k < |b| && b[k] == a[0];
      FieldsOfErase(a, 0, f);
      FieldsOfErase(b, k, f);
      CancelOne(multiset(a[..0] + a[1..]), multiset(b[..k] + b[k + 1..]), a[0]);
      FieldsOfBag(a[..0] + a[1..], b[..k] + b[k + 1..], f);
    }
  }

  /** The members of a bag, in some order. */
  ghost function Listed(tuples: multiset<Tuple>): (s: seq<Tuple>)
    ensures multiset(s) == tuples
    decreases |tuples|
  {
    if tuples == multiset{} then [] else
      var t :| t in tuples;
      [t] + Listed(tuples - multiset{t})
  }

  /** The values that the tuples of one group have in a field. */
  ghost function GroupValues(groupBy: Key, aggField: nat, tuples: multiset<Tuple>, g: seq<Value>): multiset<Value> {
    multiset(FieldsOf(Ties(groupBy, Listed(tuples), g), aggField))
  }

  lemma {:induction false} GroupValuesOf(groupBy: Key, aggField: nat, index: seq<Tuple>, g: seq<Value>)
    ensures GroupValues(groupBy, aggField, multiset(index), g) == multiset(FieldsOf(Ties(groupBy, index, g), aggField))
  {
    var list := Listed(multiset(index));
    TiesExact(groupBy, list, g);
    TiesExact(groupBy, index, g);
    assert multiset(Ties(groupBy, list, g)) == multiset(Ties(groupBy, index, g));
    FieldsOfBag(Ties(groupBy, list, g), Ties(groupBy, index, g), aggField);
  }

  /** A call of the listeners: the group-by values and the new aggregate value. */
  datatype Notice = Notice(group: seq<Value>, value: Value)

  /** What the listeners were told about one group. */
  function ForGroup(stream: seq<Notice>, g: seq<Value>): seq<Value> {
    if stream == [] then []
    else
      var n := stream[|stream| - 1];
      ForGroup(stream[..|stream| - 1], g) + if n.group == g then [n.value] else []
  }

  ghost predicate NeverRepeats(values: seq<Value>) {
    forall i | 0 < i < |values| :: values[i - 1] != values[i]
  }

  /** AggregateObj: `current` is keyed by the group-by values (the map's comparator is that of the key). */
  datatype Aggregate = Aggregate(groupBy: Key, aggField: nat, kind: AggKind,
                                 current: map<seq<Value>, Value>, stream: seq<Notice>)
  {
    /** The tuple has every field the aggregate looks at. */
    ghost predicate Accepts(t: Tuple) {
      aggField < |t.fields| && forall k | 0 <= k < |groupBy| :: groupBy[k] < |t.fields|
    }

    /** The remembered value of every group touched so far is the aggregate of its current tuples. */
    ghost predicate Fresh(index: seq<Tuple>) {
      forall g | g in current ::
        IsAggregate(kind, multiset(FieldsOf(Ties(groupBy, index, g), aggField)), current[g])
    }

    /** Listeners never hear a value twice in a row, and the last thing they heard is current. */
    ghost predicate Told() {
      forall g :: var heard := ForGroup(stream, g);
        && NeverRepeats(heard)
        && (g in current <==> heard != [])
        && (g in current ==> heard[|heard| - 1] == current[g])
    }

    ghost predicate SameShape(a: Aggregate) {
      groupBy == a.groupBy && aggField == a.aggField && kind == a.kind
    }
  }

  /**
   What an aggregate should become when a tuple comes or goes and leaves `tuples` in the table: the
   group of the tuple is remembered with its present value, and listeners hear of it if that is new.
   */
  ghost function Updated(a: Aggregate, changed: Tuple, tuples: multiset<Tuple>): (r: Aggregate)
    ensures r.SameShape(a) && r.current.Keys == a.current.Keys + {SortKey(a.groupBy, changed)}
  {
    var g := SortKey(a.groupBy, changed);
    var v := AggregateOf(a.kind, GroupValues(a.groupBy, a.aggField, tuples, g));
    if g in a.current && a.current[g] == v then a
    else a.(current := a.current[g := v], stream := a.stream + [Notice(g, v)])
  }

  /** The scan in AggregateObj::update. */
  method Recompute(kind: AggKind, group: seq<Tuple>, aggField: nat) returns (result: Value)
    requires forall t | t in group :: aggField < |t.fields|
    ensures IsAggregate(kind, multiset(FieldsOf(group, aggField)), result)
  {
    var fn := new AggFunc(kind);
    ghost var values := FieldsOf(group, aggField);
    fn.Reset();
    var seenTuples := false;
    for i := 0 to |group|
      invariant fresh(fn) && fn.kind == kind && fn.Holds(multiset(values[..i]))
      invariant seenTuples <==> i > 0
    {
      assert values[..i + 1] == values[..i] + [values[i]];
      assert group[i] in group && values[i] == group[i].fields[aggField];
      if !seenTuples {
        fn.First(group[i].fields[aggField]);
        seenTuples := true;
      } else {
        assert values[0] in values[..i];
        fn.Process(group[i].fields[aggField], multiset(values[..i]));
      }
    }
    assert values[..|group|] == values;
    result := fn.Result(multiset(values));
  }

  lemma {:induction false} TellStep(a: Aggregate, g: seq<Value>, v: Value)
    requires a.Told() && (g in a.current ==> a.current[g] != v)
    ensures a.(current := a.current[g := v], stream := a.stream + [Notice(g, v)]).Told()
  {
    var stream := a.stream + [Notice(g, v)];
    assert stream[..|stream| - 1] == a.stream;
    forall h ensures var heard := ForGroup(stream, h);
      && NeverRepeats(heard)
      && (h in a.current[g := v] <==> heard != [])
      && (h in a.current[g := v] ==> heard[|heard| - 1] == a.current[g := v][h])
    {
      assert h != g ==> ForGroup(stream, h) == ForGroup(a.stream, h);
    }
  }

  /** AggregateObj::update: recomputes the group of a tuple that just entered or left the index. */
  method Update(a: Aggregate, index: seq<Tuple>, changed: Tuple) returns (a': Aggregate)
    requires a.groupBy != [] && Sorted(a.groupBy, index) && a.Told()
    requires a.Accepts(changed) && forall t | t in index :: a.Accepts(t)
    ensures a'.SameShape(a) && a'.Told()
    ensures var g := SortKey(a.groupBy, changed);
            && g in a'.current
            && IsAggregate(a.kind, multiset(FieldsOf(Ties(a.groupBy, index, g), a.aggField)), a'.current[g])
            && a'.current == a.current[g := a'.current[g]]
    ensures a' == Updated(a, changed, multiset(index))
  {
    var lo, hi := EqualRange(a.groupBy, index, changed);
    RangeIsTies(a.groupBy, index, changed, lo, hi);
    assert forall t | t in index[lo..hi] :: t in index;
    var result := Recompute(a.kind, index[lo..hi], a.aggField);
    var g := SortKey(a.groupBy, changed);
    GroupValuesOf(a.groupBy, a.aggField, index, g);
    AggregateUnique(a.kind, GroupValues(a.groupBy, a.aggField, multiset(index), g), result,
                    AggregateOf(a.kind, GroupValues(a.groupBy, a.aggField, multiset(index), g)));
    a' := a;
    if g !in a.current || a.current[g] != result {
      TellStep(a, g, result);
      a' := a.(current := a.current[g := result], stream := a.stream + [Notice(g, result)]);
    } else {
      assert a.current == a.current[g := result];
    }
  }

  /** The index gained or lost just the tuple `changed`. */
  ghost predicate ChangedBy(index: seq<Tuple>, index': seq<Tuple>, changed: Tuple) {
    || multiset(index') == multiset(index) + multiset{changed}
    || multiset(index') == multiset(index) - multiset{changed}
  }

  lemma {:induction false} OtherGroupsStay(key: Key, index: seq<Tuple>, index': seq<Tuple>, changed: Tuple,
                                           g: seq<Value>, f: nat)
    requires ChangedBy(index, index', changed) && g != SortKey(key, changed)
    ensures multiset(FieldsOf(Ties(key, index', g), f)) == multiset(FieldsOf(Ties(key, index, g), f))
  {
    TiesExact(key, index, g);
    TiesExact(key, index', g);
    var (m, m') := (multiset(Ties(key, index, g)), multiset(Ties(key, index', g)));
    forall x ensures m'[x] == m[x] {
    }
    assert m' == m;
    FieldsOfBag(Ties(key, index', g), Ties(key, index, g), f);
  }

  /** A group that did not change keeps its aggregate; the changed one was recomputed. */
  lemma {:induction false} UpdateFreshens(a: Aggregate, a': Aggregate, index: seq<Tuple>, index': seq<Tuple>,
                                          changed: Tuple)
    requires a.Fresh(index) && a'.SameShape(a) && ChangedBy(index, index', changed)
    requires var g := SortKey(a.groupBy, changed);
             && g in a'.current
             && IsAggregate(a.kind, multiset(FieldsOf(Ties(a.groupBy, index', g), a.aggField)), a'.current[g])
             && a'.current == a.current[g := a'.current[g]]
    ensures a'.Fresh(index')
  {
    forall h | h in a'.current
      ensures IsAggregate(a.kind, multiset(FieldsOf(Ties(a.groupBy, index', h), a.aggField)), a'.current[h])
    {
      if h != SortKey(a.groupBy, changed) {
        OtherGroupsStay(a.groupBy, index, index', changed, h, a.aggField);
      }
    }
  }
}
