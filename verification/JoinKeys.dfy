/**
 Join keys (p2core/compileUtil.C): from the argument lists of two predicates the compiler derives the
 fields to look up and the index to probe.  Probing with them is shown to be the join.
 */
module JoinPlanning {
  import opened Keys
  import opened Tables

  /** A predicate argument: a variable, the location variable, or a constant. */
  datatype Arg = Var(name: string) | Loc(name: string) | Val(value: Value) {
    predicate Named() {
      Var? || Loc?
    }
  }

  type Schema = seq<Arg>

  predicate SameVariable(a: Arg, b: Arg) {
    a.Named() && b.Named() && a.name == b.name
  }

  /** Position `p` is the first argument of the schema that is the variable `v`. */
  ghost predicate FirstAt(args: Schema, v: Arg, p: int) {
    && 0 <= p < |args| && SameVariable(args[p], v)
    && forall k | 0 <= k < p :: !SameVariable(args[k], v)
  }

  ghost predicate Occurs(args: Schema, v: Arg) {
    exists k | 0 <= k < |args| :: SameVariable(args[k], v)
  }

  /** `position`: where a variable first occurs, or -1; constants occur nowhere. */
  method Position(args: Schema, v: Arg) returns (index: int)
    ensures index == -1 <==> !Occurs(args, v)
    ensures index != -1 ==> FirstAt(args, v, index)
  {
    index := 0;
    while index < |args|
      invariant 0 <= index <= |args|
      invariant forall k | 0 <= k < index :: !SameVariable(args[k], v)
    {
      if args[index].Named() && v.Named() && args[index].name == v.name {
        return index;
      }
      index := index + 1;
    }
    return -1;
  }

  /** The keys that `joinKeys` derives for the first `n` arguments of the inner schema. */
  ghost predicate KeysOf(outer: Schema, inner: Schema, n: nat, joinKey: Key, indexKey: Key, baseKey: Key)
    requires n <= |inner|
  {
    && |joinKey| == |indexKey|
    && Increasing(indexKey) && Increasing(baseKey)
    && (forall f :: f in indexKey <==> 1 <= f <= n && Occurs(outer, inner[f - 1]))
    && (forall f :: f in baseKey <==> 1 <= f <= n && !Occurs(outer, inner[f - 1]))
    && (forall i | 0 <= i < |indexKey| ::
          1 <= indexKey[i] <= n && joinKey[i] >= 1 && FirstAt(outer, inner[indexKey[i] - 1], joinKey[i] - 1))
  }

  ghost predicate Increasing(key: Key) {
    forall i, j | 0 <= i < j < |key| :: key[i] < key[j]
  }

  lemma {:induction false} IncreasingAppend(key: Key, f: nat)
    requires Increasing(key) && forall g | g in key :: g < f
    ensures Increasing(key + [f]) && forall g :: g in key + [f] <==> g in key || g == f
  {
    forall i | 0 <= i < |key| ensures key[i] < f {
      assert key[i] in key;
    }
  }

  /** `joinKeys`: shared arguments go to the join and index keys, the others to the base key. */
  method JoinKeys(outer: Schema, inner: Schema) returns (joinKey: Key, indexKey: Key, baseKey: Key)
    ensures KeysOf(outer, inner, |inner|, joinKey, indexKey, baseKey)
  {
    joinKey, indexKey, baseKey := [], [], [];
    var innerPos := 1;
    for n := 0 to |inner|
      invariant innerPos == n + 1
      invariant KeysOf(outer, inner, n, joinKey, indexKey, baseKey)
    {
      var pos := Position(outer, inner[n]);
      if pos < 0 {
        IncreasingAppend(baseKey, innerPos);
        baseKey := baseKey + [innerPos];
      } else {
        IncreasingAppend(indexKey, innerPos);
        joinKey := joinKey + [pos + 1];
        indexKey := indexKey + [innerPos];
      }
      innerPos := innerPos + 1;
    }
  }

  /** Index and base key split the inner positions between them. */
  lemma {:induction false} KeysPartition(outer: Schema, inner: Schema, joinKey: Key, indexKey: Key, baseKey: Key)
    requires KeysOf(outer, inner, |inner|, joinKey, indexKey, baseKey)
    ensures forall p :: (p in indexKey || p in baseKey) <==> 1 <= p <= |inner|
    ensures forall p :: !(p in indexKey && p in baseKey)
    ensures DistinctFields(indexKey)
  {
  }

  /** The inner tuple agrees with the outer one on every variable they share. */
  ghost predicate Joins(outer: Schema, inner: Schema, t: seq<Value>, s: seq<Value>) {
    forall p, q | 0 <= p < |inner| && FirstAt(outer, inner[p], q) ::
      p + 1 < |s| && q + 1 < |t| && s[p + 1] == t[q + 1]
  }

  ghost predicate FieldsEqual(s: seq<Value>, indexKey: Key, t: seq<Value>, joinKey: Key)
    requires |joinKey| == |indexKey|
  {
    forall j | 0 <= j < |indexKey| ::
      indexKey[j] < |s| && joinKey[j] < |t| && s[indexKey[j]] == t[joinKey[j]]
  }

  lemma {:induction false} EqualFieldsJoin(outer: Schema, inner: Schema, joinKey: Key, indexKey: Key, baseKey: Key,
                                           t: seq<Value>, s: seq<Value>)
    requires KeysOf(outer, inner, |inner|, joinKey, indexKey, baseKey) && FieldsEqual(s, indexKey, t, joinKey)
    ensures Joins(outer, inner, t, s)
  {
    forall p, q | 0 <= p < |inner| && FirstAt(outer, inner[p], q)
      ensures p + 1 < |s| && q + 1 < |t| && s[p + 1] == t[q + 1]
    {
      assert Occurs(outer, inner[p + 1 - 1]);
      assert p + 1 in indexKey;
      var i :| 0 <= i < |indexKey| && indexKey[i] == p + 1;
      FirstIsUnique(outer, inner[p], q, joinKey[i] - 1);
    }
  }

  lemma {:induction false} JoinEqualFields(outer: Schema, inner: Schema, joinKey: Key, indexKey: Key, baseKey: Key,
                                           t: seq<Value>, s: seq<Value>)
    requires KeysOf(outer, inner, |inner|, joinKey, indexKey, baseKey) && Joins(outer, inner, t, s)
    ensures FieldsEqual(s, indexKey, t, joinKey)
  {
    forall j | 0 <= j < |indexKey|
      ensures indexKey[j] < |s| && joinKey[j] < |t| && s[indexKey[j]] == t[joinKey[j]]
    {
      var (p, q) := (indexKey[j] - 1, joinKey[j] - 1);
      assert FirstAt(outer, inner[p], q);
    }
  }

  /** The lookup that the derived keys describe is the join condition. */
  lemma {:induction false} KeysAreJoin(outer: Schema, inner: Schema, joinKey: Key, indexKey: Key, baseKey: Key,
                                       t: seq<Value>, s: Tuple)
    requires KeysOf(outer, inner, |inner|, joinKey, indexKey, baseKey)
    ensures Agrees(s, indexKey, t, joinKey) <==> Joins(outer, inner, t, s.fields)
  {
    AgreesDistinct(s, indexKey, t, joinKey);
    assert Agrees(s, indexKey, t, joinKey) <==> FieldsEqual(s.fields, indexKey, t, joinKey);
    if FieldsEqual(s.fields, indexKey, t, joinKey) {
      EqualFieldsJoin(outer, inner, joinKey, indexKey, baseKey, t, s.fields);
    } else if Joins(outer, inner, t, s.fields) {
      JoinEqualFields(outer, inner, joinKey, indexKey, baseKey, t, s.fields);
    }
  }

  lemma {:induction false} FirstIsUnique(args: Schema, v: Arg, p: int, q: int)
    requires FirstAt(args, v, p) && FirstAt(args, v, q)
    ensures p == q
  {
  }

  /** `found` is exactly the part of the table that joins with the outer tuple. */
  ghost predicate IsJoin(tuples: multiset<Tuple>, outer: Schema, inner: Schema, t: seq<Value>, found: multiset<Tuple>) {
    forall s :: found[s] == if Joins(outer, inner, t, s.fields) then tuples[s] else 0
  }

  /** Derives the keys, makes sure the index exists and probes the inner table with an outer tuple. */
  method Probe(table: Table, outer: Schema, inner: Schema, t: Tuple) returns (found: seq<Tuple>)
    requires table.Valid() && |t.fields| > |outer|
    requires exists p | 0 <= p < |inner| :: Occurs(outer, inner[p])
    modifies table
    ensures table.Valid() && table.primary == old(table.primary)
    ensures IsJoin(multiset(table.primary), outer, inner, t.fields, multiset(found))
  {
    var joinKey, indexKey, baseKey := JoinKeys(outer, inner);
    ghost var p :| 0 <= p < |inner| && Occurs(outer, inner[p]);
    assert p + 1 in indexKey by { assert Occurs(outer, inner[p + 1 - 1]); }
    assert Covers(t.fields, joinKey) by {
      forall i | 0 <= i < |joinKey| ensures joinKey[i] < |t.fields| {
        assert FirstAt(outer, inner[indexKey[i] - 1], joinKey[i] - 1);
      }
    }
    var _ := table.SecondaryIndex(indexKey);
    var r := table.Lookup(joinKey, indexKey, t);
    found := r.value;
    forall s
      ensures multiset(found)[s] == if Joins(outer, inner, t.fields, s.fields) then multiset(table.primary)[s] else 0
    {
      KeysAreJoin(outer, inner, joinKey, indexKey, baseKey, t.fields, s);
    }
  }

  // ---------------------------------------------------------------------------------
  // The schema of the join
  // ---------------------------------------------------------------------------------

  /** The named arguments that `known` does not have, in order. */
  function NewNames(args: Schema, known: Schema): Schema {
    if args == [] then []
    else if args[0].Named() && (forall k | 0 <= k < |known| :: !SameVariable(known[k], args[0])) then
      [args[0]] + NewNames(args[1..], known)
    else NewNames(args[1..], known)
  }

  lemma {:induction false} NewNamesAppend(args: Schema, a: Arg, known: Schema)
    ensures NewNames(args + [a], known) ==
            NewNames(args, known) + if a.Named() && !Occurs(known, a) then [a] else []
  {
    if args == [] {
      assert args + [a] == [a] && [a][1..] == [];
    } else {
      assert (args + [a])[0] == args[0] && (args + [a])[1..] == args[1..] + [a];
      NewNamesAppend(args[1..], a, known);
    }
  }

  /** `merge`: the variables of the outer schema, then those of the inner one that are new. */
  method Merge(outer: Schema, inner: Schema) returns (join: Schema)
    ensures join == NewNames(outer, []) + NewNames(inner, outer)
  {
    join := [];
    for i := 0 to |outer|
      invariant join == NewNames(outer[..i], [])
    {
      assert outer[..i + 1] == outer[..i] + [outer[i]];
      NewNamesAppend(outer[..i], outer[i], []);
      if !outer[i].Val? {
        join := join + [outer[i]];
      }
    }
    assert outer[..|outer|] == outer;
    for i := 0 to |inner|
      invariant join == NewNames(outer, []) + NewNames(inner[..i], outer)
    {
      assert inner[..i + 1] == inner[..i] + [inner[i]];
      NewNamesAppend(inner[..i], inner[i], outer);
      var pos := Position(outer, inner[i]);
      if pos < 0 && !inner[i].Val? {
        join := join + [inner[i]];
      }
    }
    assert inner[..|inner|] == inner;
  }

  lemma {:induction false} NewNamesExact(args: Schema, known: Schema)
    ensures forall a :: a in NewNames(args, known) <==> a in args && a.Named() && !Occurs(known, a)
  {
    if args != [] {
      NewNamesExact(args[1..], known);
      assert args == [args[0]] + args[1..];
    }
  }

  /** The join schema has every variable of either side, and nothing from the inner side twice. */
  lemma {:induction false} MergeComplete(outer: Schema, inner: Schema, v: Arg)
    requires v.Named()
    ensures Occurs(NewNames(outer, []) + NewNames(inner, outer), v) <==> Occurs(outer, v) || Occurs(inner, v)
    ensures Occurs(outer, v) ==> !Occurs(NewNames(inner, outer), v)
  {
    NewNamesExact(outer, []);
    NewNamesExact(inner, outer);
    var (left, right) := (NewNames(outer, []), NewNames(inner, outer));
    var join := left + right;
    if Occurs(outer, v) {
      var k :| 0 <= k < |outer| && SameVariable(outer[k], v);
      assert outer[k] in outer && outer[k] in left;
      var j :| 0 <= j < |left| && left[j] == outer[k];
      assert join[j] == left[j];
      forall i | 0 <= i < |right| ensures !SameVariable(right[i], v) {
        assert right[i] in right;
        assert !SameVariable(outer[k], right[i]);
      }
    } else if Occurs(inner, v) {
      var k :| 0 <= k < |inner| && SameVariable(inner[k], v);
      assert !Occurs(outer, inner[k]);
      assert inner[k] in inner && inner[k] in right;
      var j :| 0 <= j < |right| && right[j] == inner[k];
      assert join[|left| + j] == right[j];
    }
    if Occurs(join, v) {
      var j :| 0 <= j < |join| && SameVariable(join[j], v);
      assert join[j] in left || join[j] in right;
      var k :| (0 <= k < |outer| && outer[k] == join[j]) || (0 <= k < |inner| && inner[k] == join[j]);
    }
  }
}
