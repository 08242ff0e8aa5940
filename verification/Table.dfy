/**
 Tables with a primary index, secondary indices and continuous aggregates (p2core/commonTable.C), under
 the insertion and removal rules of reference-counted tables (p2core/refTable.C).
 */
module Tables {
  import Sequences
  import opened Options
  import opened Keys
  import opened Indices
  import opened Aggregates
  import opened Ranges

  // ---------------------------------------------------------------------------------
  // What a table keeps true
  // ---------------------------------------------------------------------------------

  /** A set under the primary key: strictly increasing. */
  ghost predicate StrictlySorted(key: Key, s: seq<Tuple>) {
    forall i, j | 0 <= i < j < |s| :: Less(key, s[i], s[j])
  }

  /** Every secondary index holds exactly the given tuples, in the order of its key. */
  ghost predicate IndicesHold(indices: map<Key, seq<Tuple>>, tuples: multiset<Tuple>) {
    forall k | k in indices :: k != [] && Sorted(k, indices[k]) && multiset(indices[k]) == tuples
  }

  ghost predicate AggregateHolds(a: Aggregate, indices: map<Key, seq<Tuple>>) {
    a.groupBy in indices && a.groupBy != [] && a.Told() && a.Fresh(indices[a.groupBy])
  }

  ghost predicate AggregatesHold(aggregates: seq<Aggregate>, indices: map<Key, seq<Tuple>>) {
    forall i | 0 <= i < |aggregates| :: AggregateHolds(aggregates[i], indices)
  }

  ghost predicate AllAccept(aggregates: seq<Aggregate>, tuples: multiset<Tuple>) {
    forall i, t | 0 <= i < |aggregates| && t in tuples :: aggregates[i].Accepts(t)
  }

  /** Indices and aggregates agree with the stored tuples. */
  ghost predicate Consistent(tuples: multiset<Tuple>, indices: map<Key, seq<Tuple>>, aggregates: seq<Aggregate>) {
    && DistinctTupleIds(tuples)
    && IndicesHold(indices, tuples)
    && AggregatesHold(aggregates, indices)
    && AllAccept(aggregates, tuples)
  }

  ghost predicate Covers(search: seq<Value>, key: Key) {
    forall i | 0 <= i < |key| :: key[i] < |search|
  }

  ghost predicate SearchCovers(search: seq<Value>, key: Key, indices: map<Key, seq<Tuple>>) {
    Covers(search, key) && forall k | k in indices :: Covers(search, k)
  }

  // ---------------------------------------------------------------------------------
  // Maintaining indices and aggregates
  // ---------------------------------------------------------------------------------

  /** The secondary-index loop of `commonInsertTuple`. */
  method AddToIndices(indices: map<Key, seq<Tuple>>, t: Tuple, ghost tuples: multiset<Tuple>)
    returns (now: map<Key, seq<Tuple>>)
    requires IndicesHold(indices, tuples)
    ensures now.Keys == indices.Keys && IndicesHold(now, tuples + multiset{t})
  {
    now := indices;
    var todo := indices.Keys;
    while todo != {}
      invariant todo <= indices.Keys == now.Keys
      invariant forall k | k in todo :: now[k] == indices[k]
      invariant forall k | k in now && k !in todo ::
          k != [] && Sorted(k, now[k]) && multiset(now[k]) == tuples + multiset{t}
      decreases todo
    {
      var k :| k in todo;
      var index := InsertInto(k, now[k], t);
      now := now[k := index];
      todo := todo - {k};
    }
  }

  method DropFromIndex(k: Key, index: seq<Tuple>, t: Tuple, ghost tuples: multiset<Tuple>) returns (now: seq<Tuple>)
    requires Sorted(k, index) && multiset(index) == tuples && t in tuples && DistinctTupleIds(tuples)
    ensures Sorted(k, now) && multiset(now) == tuples - multiset{t}
  {
    assert t in multiset(index);
    now := EraseFrom(k, index, t);
  }

  /** The secondary-index loop of `removeDerivatives`. */
  method DropFromIndices(indices: map<Key, seq<Tuple>>, t: Tuple, ghost tuples: multiset<Tuple>)
    returns (now: map<Key, seq<Tuple>>)
    requires IndicesHold(indices, tuples) && t in tuples && DistinctTupleIds(tuples)
    ensures now.Keys == indices.Keys && IndicesHold(now, tuples - multiset{t})
  {
    ghost var rest := tuples - multiset{t};
    now := indices;
    var todo := indices.Keys;
    while todo != {}
      invariant todo <= indices.Keys == now.Keys
      invariant forall k | k in todo :: now[k] == indices[k]
      invariant forall k | k in now && k !in todo ::
          k != [] && Sorted(k, now[k]) && multiset(now[k]) == rest
      decreases todo
    {
      var k :| k in todo;
      var index := DropFromIndex(k, now[k], t, tuples);
      now := now[k := index];
      todo := todo - {k};
    }
  }

  /** One aggregate follows a change of its index. */
  method Follow(a: Aggregate, before: map<Key, seq<Tuple>>, now: map<Key, seq<Tuple>>, t: Tuple)
    returns (a': Aggregate)
    requires AggregateHolds(a, before) && a.groupBy in now && Sorted(a.groupBy, now[a.groupBy])
    requires ChangedBy(before[a.groupBy], now[a.groupBy], t)
    requires a.Accepts(t) && forall u | u in now[a.groupBy] :: a.Accepts(u)
    ensures a' == Updated(a, t, multiset(now[a.groupBy])) && AggregateHolds(a', now)
  {
    a' := Update(a, now[a.groupBy], t);
    UpdateFreshens(a, a', before[a.groupBy], now[a.groupBy], t);
  }

  lemma {:induction false} IndexAccepted(aggregates: seq<Aggregate>, i: nat, indices: map<Key, seq<Tuple>>,
                                         all: multiset<Tuple>, tuples: multiset<Tuple>)
    requires AllAccept(aggregates, all) && tuples <= all && i < |aggregates|
    requires IndicesHold(indices, tuples) && aggregates[i].groupBy in indices
    ensures forall u | u in indices[aggregates[i].groupBy] :: aggregates[i].Accepts(u)
  {
    forall u | u in indices[aggregates[i].groupBy] ensures aggregates[i].Accepts(u) {
      assert u in multiset(indices[aggregates[i].groupBy]);
      assert u in all;
    }
  }

  /** One tuple came or went and left `tuples` in the table. */
  datatype Change = Change(tuple: Tuple, tuples: multiset<Tuple>)

  /** What all aggregates should become. */
  ghost function AllUpdated(aggregates: seq<Aggregate>, c: Change): (r: seq<Aggregate>)
    ensures |r| == |aggregates|
    ensures forall i | 0 <= i < |aggregates| :: r[i] == Updated(aggregates[i], c.tuple, c.tuples)
  {
    seq(|aggregates|, i requires 0 <= i < |aggregates| => Updated(aggregates[i], c.tuple, c.tuples))
  }

  /** What they should become through several changes, in order. */
  ghost function AfterChanges(aggregates: seq<Aggregate>, changes: seq<Change>): seq<Aggregate>
    decreases |changes|
  {
    if changes == [] then aggregates
    else AfterChanges(AllUpdated(aggregates, changes[0]), changes[1..])
  }

  /** The first `i` aggregates, brought up to date. */
  ghost predicate Followed(aggregates: seq<Aggregate>, aggregates': seq<Aggregate>, i: nat,
                           indices: map<Key, seq<Tuple>>,
                           c: Change)
  {
    && |aggregates'| == i <= |aggregates| && AggregatesHold(aggregates', indices)
    && forall k | 0 <= k < i :: aggregates'[k] == Updated(aggregates[k], c.tuple, c.tuples)
  }

  lemma {:induction false} FollowedPlus(aggregates: seq<Aggregate>, aggregates': seq<Aggregate>, i: nat,
                                        indices: map<Key, seq<Tuple>>, c: Change, a': Aggregate)
    requires Followed(aggregates, aggregates', i, indices, c) && i < |aggregates|
    requires a' == Updated(aggregates[i], c.tuple, c.tuples) && AggregateHolds(a', indices) == true
    ensures Followed(aggregates, aggregates' + [a'], i + 1, indices, c)
  {
    HoldPlus(aggregates', a', indices);
    var now := aggregates' + [a'];
    forall k | 0 <= k < i + 1 ensures now[k] == Updated(aggregates[k], c.tuple, c.tuples) {
      assert k < i ==> now[k] == aggregates'[k];
    }
  }

  lemma {:induction false} HoldPlus(aggregates: seq<Aggregate>, a: Aggregate, indices: map<Key, seq<Tuple>>)
    requires AggregatesHold(aggregates, indices) && AggregateHolds(a, indices) == true
    ensures AggregatesHold(aggregates + [a], indices) == true
  {
    forall k | 0 <= k < |aggregates + [a]| ensures AggregateHolds((aggregates + [a])[k], indices) == true {
    }
  }

  lemma {:induction false} FollowedAll(aggregates: seq<Aggregate>, aggregates': seq<Aggregate>,
                                       indices: map<Key, seq<Tuple>>, c: Change)
    requires Followed(aggregates, aggregates', |aggregates|, indices, c)
    ensures AggregatesHold(aggregates', indices) && aggregates' == AllUpdated(aggregates, c)
  {
  }

  /** Indices before and after tuple `t` came or went. */
  ghost predicate Changing(aggregates: seq<Aggregate>, before: map<Key, seq<Tuple>>, now: map<Key, seq<Tuple>>,
                           t: Tuple,
                           tuples: multiset<Tuple>, tuples': multiset<Tuple>)
  {
    && AggregatesHold(aggregates, before) && before.Keys == now.Keys
    && IndicesHold(before, tuples) && IndicesHold(now, tuples')
    && (tuples' == tuples + multiset{t} || tuples' == tuples - multiset{t})
    && AllAccept(aggregates, tuples + multiset{t})
  }

  method FollowOne(aggregates: seq<Aggregate>, i: nat, before: map<Key, seq<Tuple>>, now: map<Key, seq<Tuple>>,
                   t: Tuple,
                   ghost tuples: multiset<Tuple>, ghost tuples': multiset<Tuple>)
    returns (a': Aggregate)
    requires Changing(aggregates, before, now, t, tuples, tuples') && i < |aggregates|
    ensures a' == Updated(aggregates[i], t, tuples') && AggregateHolds(a', now)
  {
    IndexAccepted(aggregates, i, now, tuples + multiset{t}, tuples');
    assert t in tuples + multiset{t};
    a' := Follow(aggregates[i], before, now, t);
  }

  /** The aggregate loops: every aggregate is told about the tuple that came or went. */
  method FollowAll(aggregates: seq<Aggregate>, before: map<Key, seq<Tuple>>, now: map<Key, seq<Tuple>>, t: Tuple,
                   ghost tuples: multiset<Tuple>, ghost tuples': multiset<Tuple>)
    returns (aggregates': seq<Aggregate>)
    requires Changing(aggregates, before, now, t, tuples, tuples') == true
    ensures AggregatesHold(aggregates', now) == true && aggregates' == AllUpdated(aggregates, Change(t, tuples'))
  {
    aggregates' := [];
    for i := 0 to |aggregates|
      invariant Followed(aggregates, aggregates', i, now, Change(t, tuples')) == true
    {
      var a' := FollowOne(aggregates, i, before, now, t, tuples, tuples');
      FollowedPlus(aggregates, aggregates', i, now, Change(t, tuples'), a');
      aggregates' := aggregates' + [a'];
    }
    FollowedAll(aggregates, aggregates', now, Change(t, tuples'));
  }

  /** A new tuple enters the secondary indices and the aggregates. */
  method AddEverywhere(indices: map<Key, seq<Tuple>>, aggregates: seq<Aggregate>, t: Tuple,
                       ghost tuples: multiset<Tuple>)
    returns (indices': map<Key, seq<Tuple>>, aggregates': seq<Aggregate>)
    requires Consistent(tuples, indices, aggregates) && AllAccept(aggregates, multiset{t})
    requires forall s | s in tuples :: s.id != t.id
    ensures Consistent(tuples + multiset{t}, indices', aggregates') == true
    ensures indices'.Keys == indices.Keys && aggregates' == AllUpdated(aggregates, Change(t, tuples + multiset{t}))
  {
    indices' := AddToIndices(indices, t, tuples);
    AllAcceptOneMore(aggregates, tuples, t);
    aggregates' := FollowAll(aggregates, indices, indices', t, tuples, tuples + multiset{t});
    DistinctOneMore(tuples, t);
    UpdatedShapes(aggregates, Change(t, tuples + multiset{t}));
    StillConsistent(tuples + multiset{t}, tuples + multiset{t}, indices', aggregates, aggregates');
  }

  /** A stored tuple leaves them. */
  method DropEverywhere(indices: map<Key, seq<Tuple>>, aggregates: seq<Aggregate>, t: Tuple,
                        ghost tuples: multiset<Tuple>)
    returns (indices': map<Key, seq<Tuple>>, aggregates': seq<Aggregate>)
    requires Consistent(tuples, indices, aggregates) && t in tuples
    ensures Consistent(tuples - multiset{t}, indices', aggregates') == true
    ensures indices'.Keys == indices.Keys && aggregates' == AllUpdated(aggregates, Change(t, tuples - multiset{t}))
  {
    indices' := DropFromIndices(indices, t, tuples);
    AllAcceptOneMore(aggregates, tuples, t);
    aggregates' := FollowAll(aggregates, indices, indices', t, tuples, tuples - multiset{t});
    UpdatedShapes(aggregates, Change(t, tuples - multiset{t}));
    StillConsistent(tuples + multiset{t}, tuples - multiset{t}, indices', aggregates, aggregates');
  }

  // ---------------------------------------------------------------------------------
  // Lookups
  // ---------------------------------------------------------------------------------

  /** Position `j` is the last one at which the key names its field. */
  predicate LastUse(key: Key, j: nat) {
    j < |key| && forall k | j < k < |key| :: key[k] != key[j]
  }

  ghost predicate DistinctFields(key: Key) {
    forall i, j | 0 <= i < j < |key| :: key[i] != key[j]
  }

  /** `project`: copies fields of the source to the places named by the destination key, in order. */
  method ProjectOnto(source: seq<Value>, sourceKey: Key, destination: seq<Value>, destinationKey: Key)
    returns (r: seq<Value>)
    requires |sourceKey| == |destinationKey|
    requires Covers(source, sourceKey) && Covers(destination, destinationKey)
    ensures |r| == |destination|
    ensures forall j: nat | LastUse(destinationKey, j) :: r[destinationKey[j]] == source[sourceKey[j]]
    ensures forall f | 0 <= f < |r| && f !in destinationKey :: r[f] == destination[f]
  {
    r := destination;
    for i := 0 to |sourceKey|
      invariant Projected(source, sourceKey, destinationKey, i, r) == true
      invariant |r| == |destination|
      invariant forall f | 0 <= f < |r| && f !in destinationKey :: r[f] == destination[f]
    {
      ProjectedStep(source, sourceKey, destinationKey, i, r);
      r := r[destinationKey[i] := source[sourceKey[i]]];
    }
  }

  /** After `i` fields: each that was not overwritten since is in place. */
  ghost predicate Projected(source: seq<Value>, sourceKey: Key, destinationKey: Key, i: nat, r: seq<Value>)
    requires i <= |sourceKey| == |destinationKey| && Covers(source, sourceKey)
  {
    && Covers(r, destinationKey)
    && forall j: nat | j < i && (forall k | j < k < i :: destinationKey[k] != destinationKey[j]) ::
         r[destinationKey[j]] == source[sourceKey[j]]
  }

  lemma {:induction false} ProjectedStep(source: seq<Value>, sourceKey: Key, destinationKey: Key, i: nat, r: seq<Value>)
    requires i < |sourceKey| == |destinationKey| && Covers(source, sourceKey)
    requires Projected(source, sourceKey, destinationKey, i, r)
    ensures Projected(source, sourceKey, destinationKey, i + 1, r[destinationKey[i] := source[sourceKey[i]]])
  {
  }

  /** What a lookup asks of a stored tuple: index fields equal to the corresponding lookup fields. */
  predicate Agrees(s: Tuple, indexKey: Key, t: seq<Value>, lookupKey: Key)
    requires |lookupKey| == |indexKey|
  {
    forall j: nat | j < |indexKey| && LastUse(indexKey, j) ::
      indexKey[j] < |s.fields| && lookupKey[j] < |t| && s.fields[indexKey[j]] == t[lookupKey[j]]
  }

  /** For an index key with distinct fields this is plain equality, field by field. */
  lemma {:induction false} AgreesDistinct(s: Tuple, indexKey: Key, t: seq<Value>, lookupKey: Key)
    requires |lookupKey| == |indexKey| && DistinctFields(indexKey)
    ensures Agrees(s, indexKey, t, lookupKey) <==>
            forall j | 0 <= j < |indexKey| ::
              indexKey[j] < |s.fields| && lookupKey[j] < |t| && s.fields[indexKey[j]] == t[lookupKey[j]]
  {
  }

  /** The tuples of an index that agree with the lookup, in index order. */
  function Agreeing(index: seq<Tuple>, indexKey: Key, t: seq<Value>, lookupKey: Key): seq<Tuple>
    requires |lookupKey| == |indexKey|
  {
    if index == [] then []
    else if Agrees(index[0], indexKey, t, lookupKey) then [index[0]] + Agreeing(index[1..], indexKey, t, lookupKey)
    else Agreeing(index[1..], indexKey, t, lookupKey)
  }

  /** `found` is exactly the part of `tuples` that agrees with the lookup. */
  ghost predicate Selects(tuples: multiset<Tuple>, indexKey: Key, t: seq<Value>, lookupKey: Key,
                          found: multiset<Tuple>)
    requires |lookupKey| == |indexKey|
  {
    forall s :: found[s] == if Agrees(s, indexKey, t, lookupKey) then tuples[s] else 0
  }

  lemma {:induction false} LastUseExists(key: Key, i: nat) returns (j: nat)
    requires i < |key|
    ensures LastUse(key, j) && key[j] == key[i]
    decreases |key| - i
  {
    j := i;
    if !LastUse(key, i) {
      var k :| i < k < |key| && key[k] == key[i];
      j := LastUseExists(key, k);
    }
  }

  /** A tuple agrees with the lookup exactly when it matches the search tuple made from it. */
  lemma {:induction false} AgreesIsMatch(s: Tuple, indexKey: Key, t: seq<Value>, lookupKey: Key, search: seq<Value>)
    requires |lookupKey| == |indexKey| && Covers(t, lookupKey) && Covers(search, indexKey)
    requires forall j: nat | LastUse(indexKey, j) :: search[indexKey[j]] == t[lookupKey[j]]
    ensures Agrees(s, indexKey, t, lookupKey) <==> Matches(indexKey, s, search)
  {
    if Agrees(s, indexKey, t, lookupKey) {
      forall k | 0 <= k < |indexKey|
        ensures indexKey[k] < |s.fields| && s.fields[indexKey[k]] == search[indexKey[k]]
      {
        var j := LastUseExists(indexKey, k);
      }
    }
  }

  lemma {:induction false} TiesAgree(index: seq<Tuple>, indexKey: Key, t: seq<Value>, lookupKey: Key, search: Tuple)
    requires indexKey != [] && |lookupKey| == |indexKey| && Covers(t, lookupKey) && Covers(search.fields, indexKey)
    requires forall j: nat | LastUse(indexKey, j) :: search.fields[indexKey[j]] == t[lookupKey[j]]
    ensures Ties(indexKey, index, SortKey(indexKey, search)) == Agreeing(index, indexKey, t, lookupKey)
  {
    if index != [] {
      TiesAgree(index[1..], indexKey, t, lookupKey, search);
      TiesMatch(indexKey, index[0], search);
      AgreesIsMatch(index[0], indexKey, t, lookupKey, search.fields);
    }
  }

  lemma {:induction false} StrictIsSorted(key: Key, s: seq<Tuple>)
    requires StrictlySorted(key, s)
    ensures Sorted(key, s)
  {
    forall i, j | 0 <= i < j < |s| ensures !Less(key, s[j], s[i]) {
      LexTotal(SortKey(key, s[i]), SortKey(key, s[j]));
    }
  }

  /** Primary entries tie with nothing, so at most one can tie with a given tuple. */
  lemma {:induction false} AtMostOneTie(key: Key, s: seq<Tuple>, e: Tuple, lo: int, hi: int)
    requires StrictlySorted(key, s) && Bounds(key, s, e, lo, hi)
    ensures hi <= lo + 1
  {
    if lo + 1 < hi {
      StrictWeakOrder(key, s[lo], s[lo + 1], e);
      assert false;
    }
  }

  lemma {:induction false} InsertKeepsStrict(key: Key, s: seq<Tuple>, t: Tuple, lo: int)
    requires StrictlySorted(key, s) && Bounds(key, s, t, lo, lo)
    ensures var now := Sequences.Inserted(s, lo, t);
            StrictlySorted(key, now) && multiset(now) == multiset(s) + multiset{t}
  {
    Sequences.InsertedContents(s, lo, t);
    var now := Sequences.Inserted(s, lo, t);
    forall i, j | 0 <= i < j < |now| ensures Less(key, now[i], now[j]) {
      assert i != lo ==> now[i] == s[if i < lo then i else i - 1];
      assert j != lo ==> now[j] == s[if j < lo then j else j - 1];
    }
  }

  lemma {:induction false} EraseKeepsStrict(key: Key, s: seq<Tuple>, i: nat)
    requires StrictlySorted(key, s) && i < |s|
    ensures var now := Sequences.Erased(s, i);
            StrictlySorted(key, now) && multiset(now) == multiset(s) - multiset{s[i]}
  {
    Sequences.ErasedContents(s, i);
    var now := Sequences.Erased(s, i);
    forall j, k | 0 <= j < k < |now| ensures Less(key, now[j], now[k]) {
      assert now[j] == s[if j < i then j else j + 1] && now[k] == s[if k < i then k else k + 1];
    }
  }

  /** A new index starts out with the entries of the primary one. */
  method BuildIndex(k: Key, primary: seq<Tuple>) returns (index: seq<Tuple>)
    ensures Sorted(k, index) && multiset(index) == multiset(primary)
  {
    index := [];
    for i := 0 to |primary|
      invariant Sorted(k, index) && multiset(index) == multiset(primary[..i])
    {
      assert primary[..i + 1] == primary[..i] + [primary[i]];
      index := InsertInto(k, index, primary[i]);
    }
    assert primary[..|primary|] == primary;
  }

  lemma {:induction false} IndexAdded(indices: map<Key, seq<Tuple>>, k: Key, index: seq<Tuple>,
                                      aggregates: seq<Aggregate>, tuples: multiset<Tuple>)
    requires Consistent(tuples, indices, aggregates) && k !in indices && k != []
    requires Sorted(k, index) && multiset(index) == tuples
    ensures Consistent(tuples, indices[k := index], aggregates)
  {
    forall i | 0 <= i < |aggregates| ensures AggregateHolds(aggregates[i], indices[k := index]) {
      assert AggregateHolds(aggregates[i], indices);
    }
  }

  lemma {:induction false} AggregateAdded(aggregates: seq<Aggregate>, indices: map<Key, seq<Tuple>>,
                                          tuples: multiset<Tuple>, a: Aggregate)
    requires Consistent(tuples, indices, aggregates)
    requires a.current == map[] && a.stream == [] && a.groupBy in indices && a.groupBy != []
    requires forall t | t in tuples :: a.Accepts(t)
    ensures Consistent(tuples, indices, aggregates + [a])
  {
    assert a.Told() && a.Fresh(indices[a.groupBy]);
    forall i | 0 <= i < |aggregates + [a]| ensures AggregateHolds((aggregates + [a])[i], indices) {
      assert i < |aggregates| ==> AggregateHolds(aggregates[i], indices);
    }
  }

  lemma {:induction false} KeysWith(indices: map<Key, seq<Tuple>>, k: Key, index: seq<Tuple>)
    ensures indices[k := index].Keys == indices.Keys + {k}
  {
  }

  lemma {:induction false} CoversMore(search: seq<Value>, key: Key, indices: map<Key, seq<Tuple>>, k: Key,
                                      index: seq<Tuple>)
    requires SearchCovers(search, key, indices) && Covers(search, k)
    ensures SearchCovers(search, key, indices[k := index])
  {
  }

  class Table {
    const key: Key
    var primary: seq<Tuple>
    /** The reference count of every entry, by the ID of its tuple. */
    var refCounts: map<nat, nat>
    var indices: map<Key, seq<Tuple>>
    /** The reusable search tuple, long enough for every key in use. */
    var search: seq<Value>
    var aggregates: seq<Aggregate>

    ghost predicate Valid()
      reads this
    {
      // Compared with `true`, so that each conjunct stays folded.
      && StrictlySorted(key, primary) == true
      && Consistent(multiset(primary), indices, aggregates) == true
      && SearchCovers(search, key, indices) == true
    }

    /** The stored tuples are exactly those with a reference count, and it is positive. */
    ghost predicate Counted()
      reads this
    {
      CountsHold(primary, refCounts) == true  // kept folded
    }

    /** What is stored, by primary key. */
    ghost function Contents(): Contents
      reads this
    {
      ContentsOf(key, primary, refCounts)
    }

    constructor (key: Key)
      ensures Valid() && Counted() && this.key == key
      ensures primary == [] && indices == map[] && aggregates == []
    {
      this.key := key;
      primary, refCounts, indices, aggregates := [], map[], map[], [];
      search := [];
      new;
      EnlargeSearch(key);
    }

    /** `lookupSearchEntry`: pads the search tuple with nulls so that it has all fields of a key. */
    method EnlargeSearch(k: Key)
      modifies `search
      ensures Covers(search, k) && |search| >= |old(search)|
    {
      for i := 0 to |k|
        invariant |search| >= |old(search)|
        invariant forall j | 0 <= j < i :: k[j] < |search|
      {
        while k[i] + 1 > |search|
          invariant |search| >= |old(search)|
          invariant forall j | 0 <= j < i :: k[j] < |search|
          decreases k[i] + 1 - |search|
        {
          search := search + [Null];
        }
      }
    }

    /** `secondaryIndex`. */
    method SecondaryIndex(k: Key) returns (created: bool)
      requires Valid() && k != []
      modifies `indices, `search
      ensures Valid() && k in indices
      ensures created <==> k !in old(indices)
      ensures indices == old(indices)[k := indices[k]]
    {
      if k in indices {
        return false;
      }
      CreateIndex(k);
      return true;
    }

    /** `createSecondaryIndex`. */
    method CreateIndex(k: Key)
      requires Valid() && k != [] && k !in indices
      modifies `indices, `search
      ensures Valid() && k in indices
      ensures indices == old(indices)[k := indices[k]]
    {
      var index := BuildIndex(k, primary);
      IndexAdded(indices, k, index, aggregates, multiset(primary));
      EnlargeSearch(k);
      CoversMore(search, key, indices, k, index);
      indices := indices[k := index];
    }

    /** `aggregate`: starts a continuous aggregate on the given group-by fields. */
    method AddAggregate(groupBy: Key, aggField: nat, kind: AggKind)
      requires Valid() && groupBy != []
      requires forall t | t in primary :: Aggregate(groupBy, aggField, kind, map[], []).Accepts(t)
      modifies `indices, `search, `aggregates
      ensures Valid() && groupBy in indices && indices.Keys == old(indices.Keys) + {groupBy}
      ensures aggregates == old(aggregates) + [Aggregate(groupBy, aggField, kind, map[], [])]
    {
      var _ := SecondaryIndex(groupBy);
      AggregateAdded(aggregates, indices, multiset(primary), Aggregate(groupBy, aggField, kind, map[], []));
      aggregates := aggregates + [Aggregate(groupBy, aggField, kind, map[], [])];
    }

    /** `commonInsertTuple`: the tuple enters the primary index, all secondary ones and the aggregates. */
    method InsertTuple(t: Tuple, position: nat)
      requires Valid() && Bounds(key, primary, t, position, position) == true
      requires NewId(primary, t) == true
      requires AllAccept(aggregates, multiset{t})
      modifies `primary, `indices, `aggregates
      ensures Valid() && multiset(primary) == old(multiset(primary)) + multiset{t}
      ensures indices.Keys == old(indices.Keys)
      ensures aggregates == AllUpdated(old(aggregates), Change(t, multiset(primary)))
    {
      ghost var tuples := multiset(primary);
      InsertKeepsStrict(key, primary, t, position);
      primary := Sequences.Inserted(primary, position, t);
      indices, aggregates := AddEverywhere(indices, aggregates, t, tuples);
    }

    /** `removeTuple`: the entry leaves the secondary indices and the aggregates, then the primary index. */
    method RemoveTuple(position: nat)
      requires Valid() && position < |primary|
      modifies `primary, `indices, `aggregates
      ensures Valid() && multiset(primary) == old(multiset(primary)) - multiset{old(primary)[position]}
      ensures primary == Sequences.Erased(old(primary), position)
      ensures indices.Keys == old(indices.Keys)
      ensures aggregates == AllUpdated(old(aggregates), Change(old(primary)[position], multiset(primary)))
    {
      ghost var tuples := multiset(primary);
      var t := primary[position];
      indices, aggregates := DropEverywhere(indices, aggregates, t, tuples);
      EraseKeepsStrict(key, primary, position);
      primary := Sequences.Erased(primary, position);
    }

    /** The entry with the same primary key as `t`, if there is one. */
    method FindPrimary(t: Tuple) returns (found: bool, position: nat)
      requires Valid()
      ensures found ==> position < |primary| && Bounds(key, primary, t, position, position + 1)
      ensures !found ==> Bounds(key, primary, t, position, position)
    {
      StrictIsSorted(key, primary);
      var lo, hi := EqualRange(key, primary, t);
      AtMostOneTie(key, primary, t, lo, hi);
      return lo < hi, lo;
    }

    /**
     `insert` of a RefTable: an identical tuple is only counted; a different one with the same primary
     key is replaced.
     */
    method Insert(t: Tuple) returns (inserted: bool)
      requires Valid() && Counted()
      requires forall s | s in primary && s.id == t.id :: s == t
      requires AllAccept(aggregates, multiset{t})
      modifies `primary, `indices, `aggregates, `refCounts
      ensures Valid() && Counted() && indices.Keys == old(indices.Keys)
      ensures Contents() == AfterInsert(key, old(Contents()), t)
      ensures aggregates == AfterChanges(old(aggregates), InsertChanges(key, old(Contents()), t))
      ensures inserted <==> InsertChanges(key, old(Contents()), t) != []
      ensures !inserted ==>
                primary == old(primary) && indices == old(indices) && aggregates == old(aggregates)
    {
      var found, position := FindPrimary(t);
      if found {
        TieIsUnique(key, primary, t, position);
        inserted := InsertOver(t, position);
      } else {
        TieIsAbsent(key, primary, t, position);
        AbsentFromContents(key, primary, refCounts, SortKey(key, t));
        AddEntry(t, position);
        inserted := true;
      }
    }

    /** `insert` where there is an entry with the same primary key. */
    method InsertOver(t: Tuple, position: nat) returns (inserted: bool)
      requires Valid() && Counted() && position < |primary| && Bounds(key, primary, t, position, position + 1)
      requires forall s | s in primary && s.id == t.id :: s == t
      requires forall s | s in primary && SortKey(key, s) == SortKey(key, t) :: s == primary[position]
      requires AllAccept(aggregates, multiset{t})
      modifies `primary, `indices, `aggregates, `refCounts
      ensures Valid() && Counted() && indices.Keys == old(indices.Keys)
      ensures Contents() == AfterInsert(key, old(Contents()), t)
      ensures aggregates == AfterChanges(old(aggregates), InsertChanges(key, old(Contents()), t))
      ensures inserted <==> InsertChanges(key, old(Contents()), t) != []
      ensures !inserted ==>
                primary == old(primary) && indices == old(indices) && aggregates == old(aggregates)
    {
      var entry := primary[position];
      StoredAt(key, primary, refCounts, position);
      if entry.fields == t.fields {
        CountEntry(position, refCounts[entry.id] + 1);
        return false;
      }
      Replace(t, position);
      return true;
    }

    /** The reference count of an entry changes. */
    method CountEntry(position: nat, n: nat)
      requires Valid() && Counted() && position < |primary| && n > 0
      modifies `refCounts
      ensures Valid() && Counted()
      ensures Contents() == old(Contents())[SortKey(key, primary[position]) := Stored(primary[position], n)]
    {
      var entry := primary[position];
      CountsSet(key, primary, refCounts, position, n);
      refCounts := refCounts[entry.id := n];
    }

    /** A different tuple takes the place of the one with its primary key. */
    method Replace(t: Tuple, position: nat)
      requires Valid() && Counted() && position < |primary| && Bounds(key, primary, t, position, position + 1)
      requires forall s | s in primary :: s.id != t.id
      requires AllAccept(aggregates, multiset{t})
      modifies `primary, `indices, `aggregates, `refCounts
      ensures Valid() && Counted() && indices.Keys == old(indices.Keys)
      ensures var (g, entry) := (SortKey(key, t), old(primary)[position]);
              && Contents() == (old(Contents()) - {g})[g := Stored(t, 1)]
              && aggregates == AfterChanges(old(aggregates),
                                            [Change(entry, TuplesOf(old(Contents()) - {g})),
                                             Change(t, TuplesOf(Contents()))])
    {
      BoundsAfterErase(key, primary, t, position);
      assert forall s | s in Sequences.Erased(primary, position) :: s in primary;
      ghost var were := aggregates;
      var entry := primary[position];
      DropEntry(position);
      UpdatedShapes(were, Change(entry, TuplesOf(Contents())));
      AcceptBySame(were, aggregates, multiset{t});
      ghost var c := Change(entry, TuplesOf(Contents()));
      AddEntry(t, position);
      TwoChanges(were, c, Change(t, TuplesOf(Contents())));
    }

    /** A new entry, referred to once. */
    method AddEntry(t: Tuple, position: nat)
      requires Valid() && Counted() && Bounds(key, primary, t, position, position) == true
      requires NewId(primary, t) == true
      requires AllAccept(aggregates, multiset{t})
      modifies `primary, `indices, `aggregates, `refCounts
      ensures Valid() && Counted() && indices.Keys == old(indices.Keys)
      ensures Contents() == old(Contents())[SortKey(key, t) := Stored(t, 1)]
      ensures aggregates == AllUpdated(old(aggregates), Change(t, TuplesOf(Contents())))
    {
      ghost var before := primary;
      InsertTuple(t, position);
      CountsAdd(key, before, refCounts, primary, t, position);
      refCounts := refCounts[t.id := 1];
    }

    /** An entry goes away, whatever its count. */
    method DropEntry(position: nat)
      requires Valid() && Counted() && position < |primary|
      modifies `primary, `indices, `aggregates, `refCounts
      ensures Valid() && Counted() && indices.Keys == old(indices.Keys)
      ensures primary == Sequences.Erased(old(primary), position)
      ensures Contents() == old(Contents()) - {SortKey(key, old(primary)[position])}
      ensures aggregates == AllUpdated(old(aggregates), Change(old(primary)[position], TuplesOf(Contents())))
    {
      var entry := primary[position];
      EntryGoes(key, primary, refCounts, position, indices, aggregates);
      RemoveTuple(position);
      refCounts := refCounts - {entry.id};
    }

    /**
     `remove` of a RefTable: drops one reference to the entry with the same primary key, and the entry
     with the last one.
     */
    method Remove(t: Tuple) returns (removed: bool)
      requires Valid() && Counted()
      modifies `primary, `indices, `aggregates, `refCounts
      ensures Valid() && Counted() && indices.Keys == old(indices.Keys)
      ensures Contents() == AfterRemove(key, old(Contents()), t)
      ensures aggregates == AfterChanges(old(aggregates), RemoveChanges(key, old(Contents()), t))
      ensures removed <==> RemoveChanges(key, old(Contents()), t) != []
      ensures !removed ==>
                primary == old(primary) && indices == old(indices) && aggregates == old(aggregates)
    {
      var found, position := FindPrimary(t);
      if !found {
        TieIsAbsent(key, primary, t, position);
        AbsentFromContents(key, primary, refCounts, SortKey(key, t));
        return false;
      }
      removed := Release(position, t);
    }

    /** `remove` where there is an entry with the primary key. */
    method Release(position: nat, ghost t: Tuple) returns (removed: bool)
      requires Valid() && Counted() && position < |primary| && SortKey(key, primary[position]) == SortKey(key, t)
      modifies `primary, `indices, `aggregates, `refCounts
      ensures Valid() && Counted() && indices.Keys == old(indices.Keys)
      ensures Contents() == AfterRemove(key, old(Contents()), t)
      ensures aggregates == AfterChanges(old(aggregates), RemoveChanges(key, old(Contents()), t))
      ensures removed <==> RemoveChanges(key, old(Contents()), t) != []
      ensures !removed ==>
                primary == old(primary) && indices == old(indices) && aggregates == old(aggregates)
    {
      var entry := primary[position];
      StoredAt(key, primary, refCounts, position);
      if refCounts[entry.id] == 1 {
        ghost var were := aggregates;
        DropEntry(position);
        OneChange(were, Change(entry, TuplesOf(Contents())));
        return true;
      }
      CountEntry(position, refCounts[entry.id] - 1);
      return false;
    }

    /**
     `lookup`: projects the lookup tuple onto the search tuple and collects its ties in the index.  It
     finds exactly the stored tuples that agree with the lookup, in index order.
     */
    method Lookup(lookupKey: Key, indexKey: Key, t: Tuple) returns (r: Option<seq<Tuple>>)
      requires Valid() && indexKey != [] && |lookupKey| == |indexKey| && Covers(t.fields, lookupKey)
      modifies `search
      ensures Valid()
      ensures r.None? <==> indexKey != key && indexKey !in indices
      ensures r.Some? ==>
                var index := if indexKey == key then primary else indices[indexKey];
                r.value == Agreeing(index, indexKey, t.fields, lookupKey)
      ensures r.Some? ==> Selects(multiset(primary), indexKey, t.fields, lookupKey, multiset(r.value))
    {
      if indexKey != key && indexKey !in indices {
        return None;
      }
      search := ProjectOnto(t.fields, lookupKey, search, indexKey);
      var entry := Tuple(0, search);
      var index := if indexKey == key then primary else indices[indexKey];
      if indexKey == key {
        StrictIsSorted(key, primary);
      }
      var found := Spool(indexKey, index, entry);
      TiesAgree(index, indexKey, t.fields, lookupKey, entry);
      AgreeingExact(index, indexKey, t.fields, lookupKey);
      return Some(found);
    }

    /**
     `range1DLookup`: the stored tuples whose index fields lie between the values that the two keys pick
     from `t`, in index order; an empty key leaves its end unbounded.
     */
    method RangeLookup(lKey: Key, rKey: Key, indexKey: Key, openL: bool, openR: bool, t: Tuple)
      returns (r: Option<seq<Tuple>>)
      requires Valid() && indexKey in indices && DistinctFields(indexKey)
      requires (lKey == [] || |lKey| == |indexKey|) && (rKey == [] || |rKey| == |indexKey|)
      requires Covers(t.fields, lKey) && Covers(t.fields, rKey)
      ensures var lower := if lKey == [] then Unbounded else At(ValuesAt(t.fields, lKey), openL);
              var upper := if rKey == [] then Unbounded else At(ValuesAt(t.fields, rKey), openR);
              && (NotInverted(lower, upper) ==> r.Some?)
              && (r.Some? ==> r.value == InRange(indexKey, indices[indexKey], lower, upper))
              && (r.None? <==> exists i | 0 <= i < |indices[indexKey]| ::
                    Under(indexKey, lower, indices[indexKey][i]) && Over(indexKey, upper, indices[indexKey][i]))
    {
      var lb := MakeBound(t, lKey, indexKey);
      var rb := MakeBound(t, rKey, indexKey);
      r := RangeSpool(indexKey, indices[indexKey], lb, openL, rb, openR);
    }

    ghost function Now(): World
      reads this
    {
      World(Contents(), indices.Keys, aggregates)
    }

    /** One operation of a run. */
    method Apply(ops: seq<Op>, n: nat, width: nat)
      requires Valid() && Counted() && n < |ops| && WellFormedRun(ops, width) == true
      requires Within(aggregates, width) == true && StoredFrom(ops, n, Contents()) == true
      modifies this
      ensures Valid() && Counted() && Within(aggregates, width) == true && StoredFrom(ops, n + 1, Contents()) == true
      ensures Now() == Next(key, old(Now()), ops[n])
    {
      StoredNext(ops, n, key, Contents());
      match ops[n]
      case InsertOp(t) => ApplyInsert(ops, n, width);
      case RemoveOp(t) => ApplyRemove(t, width);
      case IndexOp(k) =>
        assert k != [];
        ApplyIndex(k);
      case AggregateOp(g, f, kind) => ApplyAggregate(ops, n, width);
    }

    method ApplyRemove(t: Tuple, width: nat)
      requires Valid() && Counted() && Within(aggregates, width)
      modifies this
      ensures Valid() && Counted() && Within(aggregates, width) == true
      ensures Now() == Next(key, old(Now()), RemoveOp(t))
    {
      ChangedWithin(aggregates, RemoveChanges(key, Contents(), t), width);
      var _ := Remove(t);
    }

    method ApplyIndex(k: Key)
      requires Valid() && Counted() && k != []
      modifies `indices, `search
      ensures Valid() && Counted() && Now() == Next(key, old(Now()), IndexOp(k))
    {
      ghost var before := indices;
      var _ := SecondaryIndex(k);
      KeysWith(before, k, indices[k]);
    }

    method ApplyAggregate(ops: seq<Op>, n: nat, width: nat)
      requires Valid() && Counted() && n < |ops| && WellFormedRun(ops, width) == true
      requires Within(aggregates, width) == true
      requires ops[n].AggregateOp? && StoredFrom(ops, n, Contents()) == true
      modifies this
      ensures Valid() && Counted() && Within(aggregates, width) == true
      ensures Now() == Next(key, old(Now()), ops[n])
    {
      var op := ops[n];
      StoredAreWide(ops, n, width, key, primary, refCounts);
      AddAggregate(op.groupBy, op.aggField, op.kind);
    }

    method ApplyInsert(ops: seq<Op>, n: nat, width: nat)
      requires Valid() && Counted() && n < |ops| && WellFormedRun(ops, width) == true
      requires Within(aggregates, width) == true
      requires ops[n].InsertOp? && StoredFrom(ops, n, Contents()) == true
      modifies this
      ensures Valid() && Counted() && Within(aggregates, width) == true
      ensures Now() == Next(key, old(Now()), ops[n])
    {
      var t := ops[n].t;
      SameIdSameTuple(ops, n, width, key, primary, refCounts, t);
      WideAccepted(aggregates, t, width);
      ChangedWithin(aggregates, InsertChanges(key, Contents(), t), width);
      var _ := Insert(t);
    }
  }

  /** Collects the ties of an entry. */
  method Spool(key: Key, index: seq<Tuple>, e: Tuple) returns (found: seq<Tuple>)
    requires Sorted(key, index)
    ensures found == Ties(key, index, SortKey(key, e))
  {
    var lo, hi := EqualRange(key, index, e);
    RangeIsTies(key, index, e, lo, hi);
    found := ReadSpool(index, lo, hi);
  }

  /** The values that a key picks from a tuple. */
  function ValuesAt(t: seq<Value>, key: Key): seq<Value>
    requires Covers(t, key)
  {
    seq(|key|, j requires 0 <= j < |key| => t[key[j]])
  }

  lemma {:induction false} ProjectAll(key: Key, fields: seq<Value>)
    requires Covers(fields, key)
    ensures Project(key, fields) == ValuesAt(fields, key)
  {
    if key != [] {
      ProjectAll(key[1..], fields);
      assert ValuesAt(fields, key) == [fields[key[0]]] + ValuesAt(fields, key[1..]);
    }
  }

  /** The bound that `range1DLookup` makes of a tuple: the values picked, at the fields of the index key. */
  method MakeBound(t: Tuple, key: Key, indexKey: Key) returns (bound: Option<Tuple>)
    requires indexKey != [] && DistinctFields(indexKey) && (key == [] || |key| == |indexKey|) && Covers(t.fields, key)
    ensures key == [] ==> bound == None
    ensures key != [] ==> bound.Some? && SortKey(indexKey, bound.value) == ValuesAt(t.fields, key)
  {
    if key == [] {
      return None;
    }
    var fields: seq<Value> := [];
    for i := 0 to |indexKey|
      invariant forall j | 0 <= j < i :: indexKey[j] < |fields|
    {
      while indexKey[i] + 1 > |fields|
        invariant forall j | 0 <= j < i :: indexKey[j] < |fields|
        decreases indexKey[i] + 1 - |fields|
      {
        fields := fields + [Null];
      }
    }
    fields := ProjectOnto(t.fields, key, fields, indexKey);
    ProjectAll(indexKey, fields);
    forall j: nat | j < |indexKey| ensures fields[indexKey[j]] == t.fields[key[j]] {
      assert LastUse(indexKey, j);
    }
    assert ValuesAt(fields, indexKey) == ValuesAt(t.fields, key);
    return Some(Tuple(0, fields));
  }

  lemma {:induction false} AgreeingExact(index: seq<Tuple>, indexKey: Key, t: seq<Value>, lookupKey: Key)
    requires |lookupKey| == |indexKey|
    ensures Selects(multiset(index), indexKey, t, lookupKey, multiset(Agreeing(index, indexKey, t, lookupKey)))
  {
    if index != [] {
      AgreeingExact(index[1..], indexKey, t, lookupKey);
      assert index == [index[0]] + index[1..];
    }
  }

  lemma {:induction false} TieIsUnique(key: Key, s: seq<Tuple>, t: Tuple, lo: nat)
    requires Bounds(key, s, t, lo, lo + 1)
    ensures forall u | u in s && SortKey(key, u) == SortKey(key, t) :: u == s[lo]
    ensures Ties(key, s, SortKey(key, t)) == [s[lo]]
  {
    RangeIsTies(key, s, t, lo, lo + 1);
    forall u | u in s && SortKey(key, u) == SortKey(key, t) ensures u == s[lo] {
      var k :| 0 <= k < |s| && s[k] == u;
      LexTotal(SortKey(key, u), SortKey(key, t));
    }
  }

  lemma {:induction false} TieIsAbsent(key: Key, s: seq<Tuple>, t: Tuple, lo: nat)
    requires Bounds(key, s, t, lo, lo)
    ensures forall u | u in s :: SortKey(key, u) != SortKey(key, t)
    ensures Ties(key, s, SortKey(key, t)) == []
  {
    RangeIsTies(key, s, t, lo, lo);
    forall u | u in s ensures SortKey(key, u) != SortKey(key, t) {
      var k :| 0 <= k < |s| && s[k] == u;
      LexTotal(SortKey(key, u), SortKey(key, t));
    }
  }

  ghost function IdsOf(s: seq<Tuple>): set<nat> {
    set t | t in s :: t.id
  }

  lemma {:induction false} IdsOfErase(s: seq<Tuple>, i: nat)
    requires DistinctTupleIds(multiset(s)) && i < |s|
    ensures IdsOf(Sequences.Erased(s, i)) == IdsOf(s) - {s[i].id}
  {
    var now := Sequences.Erased(s, i);
    assert s == s[..i] + [s[i]] + s[i + 1..];
    forall t | t in now ensures t.id != s[i].id {
      assert t in multiset(s) && s[i] in multiset(s);
      assert multiset(s) == multiset(now) + multiset{s[i]};
    }
  }

  lemma {:induction false} IdsOfInsert(s: seq<Tuple>, now: seq<Tuple>, t: Tuple)
    requires multiset(now) == multiset(s) + multiset{t}
    ensures IdsOf(now) == IdsOf(s) + {t.id}
  {
    forall u ensures u in now <==> u in s || u == t {
      assert u in now <==> u in multiset(now);
      assert u in s <==> u in multiset(s);
    }
  }

  lemma {:induction false} BoundsAfterErase(key: Key, s: seq<Tuple>, e: Tuple, lo: nat)
    requires Bounds(key, s, e, lo, lo + 1)
    ensures Bounds(key, Sequences.Erased(s, lo), e, lo, lo)
  {
  }

  ghost predicate SameShapes(before: seq<Aggregate>, now: seq<Aggregate>) {
    |now| == |before| && forall i | 0 <= i < |now| :: now[i].SameShape(before[i])
  }

  lemma {:induction false} UpdatedShapes(aggregates: seq<Aggregate>, c: Change)
    ensures SameShapes(aggregates, AllUpdated(aggregates, c))
  {
  }

  lemma {:induction false} ChangedShapes(aggregates: seq<Aggregate>, changes: seq<Change>)
    ensures SameShapes(aggregates, AfterChanges(aggregates, changes))
    decreases |changes|
  {
    if changes != [] {
      var now := AllUpdated(aggregates, changes[0]);
      UpdatedShapes(aggregates, changes[0]);
      ChangedShapes(now, changes[1..]);
      SameShapesTransitive(aggregates, now, AfterChanges(now, changes[1..]));
    }
  }

  lemma {:induction false} SameShapesTransitive(a: seq<Aggregate>, b: seq<Aggregate>, c: seq<Aggregate>)
    requires SameShapes(a, b) && SameShapes(b, c)
    ensures SameShapes(a, c)
  {
  }

  lemma {:induction false} AcceptBySame(were: seq<Aggregate>, now: seq<Aggregate>, tuples: multiset<Tuple>)
    requires AllAccept(were, tuples) && SameShapes(were, now)
    ensures AllAccept(now, tuples)
  {
    forall i, t | 0 <= i < |now| && t in tuples ensures now[i].Accepts(t) {
      assert were[i].Accepts(t);
    }
  }

  lemma {:induction false} AllAcceptOneMore(aggregates: seq<Aggregate>, tuples: multiset<Tuple>, t: Tuple)
    requires AllAccept(aggregates, tuples) && (AllAccept(aggregates, multiset{t}) || t in tuples)
    ensures AllAccept(aggregates, tuples + multiset{t})
  {
  }

  lemma {:induction false} DistinctOneMore(tuples: multiset<Tuple>, t: Tuple)
    requires DistinctTupleIds(tuples) && forall s | s in tuples :: s.id != t.id
    ensures DistinctTupleIds(tuples + multiset{t})
  {
  }

  lemma {:induction false} StillConsistent(accepted: multiset<Tuple>, tuples: multiset<Tuple>,
                                           indices: map<Key, seq<Tuple>>, were: seq<Aggregate>, now: seq<Aggregate>)
    requires tuples <= accepted && AllAccept(were, accepted) && SameShapes(were, now)
    requires DistinctTupleIds(tuples) && IndicesHold(indices, tuples) && AggregatesHold(now, indices)
    ensures Consistent(tuples, indices, now)
  {
    forall i, t | 0 <= i < |now| && t in tuples ensures now[i].Accepts(t) {
      assert t in accepted && were[i].Accepts(t);
    }
  }

  // ---------------------------------------------------------------------------------
  // What a reference-counted table stores
  // ---------------------------------------------------------------------------------

  datatype Stored = Stored(tuple: Tuple, count: nat)

  type Contents = map<seq<Value>, Stored>

  ghost function TuplesOf(c: Contents): multiset<Tuple> {
    multiset(set g | g in c :: c[g].tuple)
  }

  function AfterInsert(key: Key, c: Contents, t: Tuple): Contents {
    var g := SortKey(key, t);
    if g in c && c[g].tuple.fields == t.fields then c[g := Stored(c[g].tuple, c[g].count + 1)]
    else (c - {g})[g := Stored(t, 1)]
  }

  /** The tuples that an insertion moves: none, the new one, or the one it replaces and the new one. */
  ghost function InsertChanges(key: Key, c: Contents, t: Tuple): seq<Change> {
    var g := SortKey(key, t);
    var last := Change(t, TuplesOf(AfterInsert(key, c, t)));
    if g !in c then [last]
    else if c[g].tuple.fields == t.fields then []
    else [Change(c[g].tuple, TuplesOf(c - {g})), last]
  }

  function AfterRemove(key: Key, c: Contents, t: Tuple): Contents {
    var g := SortKey(key, t);
    if g !in c then c
    else if c[g].count > 1 then c[g := Stored(c[g].tuple, c[g].count - 1)]
    else c - {g}
  }

  ghost function RemoveChanges(key: Key, c: Contents, t: Tuple): seq<Change> {
    var g := SortKey(key, t);
    if g !in c || c[g].count > 1 then [] else [Change(c[g].tuple, TuplesOf(c - {g}))]
  }

  ghost predicate Represents(key: Key, primary: seq<Tuple>, refCounts: map<nat, nat>, c: Contents) {
    && (forall t | t in primary ::
          t.id in refCounts && SortKey(key, t) in c && c[SortKey(key, t)] == Stored(t, refCounts[t.id]))
    && (forall g | g in c :: c[g].tuple in primary && SortKey(key, c[g].tuple) == g)
  }

  /** The entries with their counts, by primary key. */
  ghost function ContentsOf(key: Key, primary: seq<Tuple>, refCounts: map<nat, nat>): Contents {
    if primary == [] then map[] else
      var t := primary[|primary| - 1];
      ContentsOf(key, primary[..|primary| - 1], refCounts)
        [SortKey(key, t) := Stored(t, if t.id in refCounts then refCounts[t.id] else 0)]
  }

  ghost predicate NewId(primary: seq<Tuple>, t: Tuple) {
    forall s | s in primary :: s.id != t.id
  }

  ghost predicate CountsHold(primary: seq<Tuple>, refCounts: map<nat, nat>) {
    refCounts.Keys == IdsOf(primary) && forall id | id in refCounts :: refCounts[id] > 0
  }

  /** Entries differ in their primary keys, so none hides another. */
  lemma {:induction false} ContentsExact(key: Key, primary: seq<Tuple>, refCounts: map<nat, nat>)
    requires StrictlySorted(key, primary) && forall t | t in primary :: t.id in refCounts
    ensures Represents(key, primary, refCounts, ContentsOf(key, primary, refCounts))
  {
    if primary != [] {
      var (rest, t) := (primary[..|primary| - 1], primary[|primary| - 1]);
      assert primary == rest + [t];
      ContentsExact(key, rest, refCounts);
      forall s | s in rest ensures SortKey(key, s) != SortKey(key, t) {
        var k :| 0 <= k < |rest| && rest[k] == s;
        assert Less(key, primary[k], t);
        LexTotal(SortKey(key, s), SortKey(key, t));
      }
    }
  }

  lemma {:induction false} RepresentsUnique(key: Key, primary: seq<Tuple>, refCounts: map<nat, nat>, c: Contents,
                                            d: Contents)
    requires Represents(key, primary, refCounts, c) && Represents(key, primary, refCounts, d)
    ensures c == d
  {
    forall g | g in c ensures g in d && d[g] == c[g] {
      assert c[g].tuple in primary;
    }
    forall g | g in d ensures g in c {
      assert d[g].tuple in primary;
    }
  }

  lemma {:induction false} CountsCover(primary: seq<Tuple>, refCounts: map<nat, nat>)
    requires CountsHold(primary, refCounts)
    ensures forall t | t in primary :: t.id in refCounts && refCounts[t.id] > 0
  {
    forall t | t in primary ensures t.id in refCounts {
      assert t.id in IdsOf(primary);
    }
  }

  lemma {:induction false} ContentsBag(key: Key, primary: seq<Tuple>, refCounts: map<nat, nat>)
    requires CountsHold(primary, refCounts) == true && StrictlySorted(key, primary) == true
    requires DistinctTupleIds(multiset(primary)) == true
    ensures multiset(primary) == TuplesOf(ContentsOf(key, primary, refCounts))
  {
    CountsCover(primary, refCounts);
    ContentsExact(key, primary, refCounts);
    RepresentsBag(key, primary, refCounts, ContentsOf(key, primary, refCounts));
  }

  lemma {:induction false} CountsAddHold(primary: seq<Tuple>, refCounts: map<nat, nat>, now: seq<Tuple>, t: Tuple)
    requires CountsHold(primary, refCounts) && multiset(now) == multiset(primary) + multiset{t}
    ensures CountsHold(now, refCounts[t.id := 1])
  {
    IdsOfInsert(primary, now, t);
  }

  lemma {:induction false} ContentsAdd(key: Key, primary: seq<Tuple>, refCounts: map<nat, nat>, now: seq<Tuple>,
                                       t: Tuple)
    requires CountsHold(primary, refCounts) && StrictlySorted(key, primary)
    requires CountsHold(now, refCounts[t.id := 1]) && StrictlySorted(key, now)
    requires multiset(now) == multiset(primary) + multiset{t} && NewId(primary, t)
    requires forall s | s in primary :: SortKey(key, s) != SortKey(key, t)
    ensures ContentsOf(key, now, refCounts[t.id := 1]) ==
            ContentsOf(key, primary, refCounts)[SortKey(key, t) := Stored(t, 1)]
  {
    var (c, counts) := (ContentsOf(key, primary, refCounts), refCounts[t.id := 1]);
    CountsCover(primary, refCounts);
    ContentsExact(key, primary, refCounts);
    RepresentsAdd(key, primary, refCounts, c, now, t);
    CountsCover(now, counts);
    ContentsExact(key, now, counts);
    RepresentsUnique(key, now, counts, ContentsOf(key, now, counts), c[SortKey(key, t) := Stored(t, 1)]);
  }

  lemma {:induction false} CountsAdd(key: Key, primary: seq<Tuple>, refCounts: map<nat, nat>, now: seq<Tuple>, t: Tuple,
                                     position: nat)
    requires CountsHold(primary, refCounts) == true
    requires StrictlySorted(key, primary) == true && StrictlySorted(key, now) == true
    requires Bounds(key, primary, t, position, position) == true && NewId(primary, t) == true
    requires multiset(now) == multiset(primary) + multiset{t} && DistinctTupleIds(multiset(now)) == true
    ensures CountsHold(now, refCounts[t.id := 1]) == true
    ensures multiset(now) == TuplesOf(ContentsOf(key, now, refCounts[t.id := 1]))
    ensures ContentsOf(key, now, refCounts[t.id := 1]) ==
            ContentsOf(key, primary, refCounts)[SortKey(key, t) := Stored(t, 1)]
  {
    TieIsAbsent(key, primary, t, position);
    CountsAddHold(primary, refCounts, now, t);
    ContentsAdd(key, primary, refCounts, now, t);
    ContentsBag(key, now, refCounts[t.id := 1]);
  }

  lemma {:induction false} CountsDrop(key: Key, primary: seq<Tuple>, refCounts: map<nat, nat>, i: nat)
    requires CountsHold(primary, refCounts) == true && StrictlySorted(key, primary) == true && i < |primary|
    requires DistinctTupleIds(multiset(primary)) == true
    ensures var (e, now) := (primary[i], Sequences.Erased(primary, i));
            && CountsHold(now, refCounts - {e.id}) == true
            && multiset(now) == TuplesOf(ContentsOf(key, now, refCounts - {e.id}))
            && ContentsOf(key, now, refCounts - {e.id}) == ContentsOf(key, primary, refCounts) - {SortKey(key, e)}
  {
    var (e, now, c) := (primary[i], Sequences.Erased(primary, i), ContentsOf(key, primary, refCounts));
    var counts := refCounts - {e.id};
    IdsOfErase(primary, i);
    EraseKeepsStrict(key, primary, i);
    CountsCover(primary, refCounts);
    ContentsExact(key, primary, refCounts);
    RepresentsDrop(key, primary, refCounts, c, i);
    CountsCover(now, counts);
    ContentsExact(key, now, counts);
    RepresentsUnique(key, now, counts, ContentsOf(key, now, counts), c - {SortKey(key, e)});
    RepresentsBag(key, now, counts, ContentsOf(key, now, counts));
  }

  /** `CountsDrop`, from what a table keeps true. */
  lemma {:induction false} EntryGoes(key: Key, primary: seq<Tuple>, refCounts: map<nat, nat>, i: nat,
                                     indices: map<Key, seq<Tuple>>, aggregates: seq<Aggregate>)
    requires CountsHold(primary, refCounts) == true && StrictlySorted(key, primary) == true && i < |primary|
    requires Consistent(multiset(primary), indices, aggregates) == true
    ensures var (e, now) := (primary[i], Sequences.Erased(primary, i));
            && CountsHold(now, refCounts - {e.id}) == true
            && multiset(now) == TuplesOf(ContentsOf(key, now, refCounts - {e.id}))
            && ContentsOf(key, now, refCounts - {e.id}) == ContentsOf(key, primary, refCounts) - {SortKey(key, e)}
  {
    CountsDrop(key, primary, refCounts, i);
  }

  lemma {:induction false} CountsSet(key: Key, primary: seq<Tuple>, refCounts: map<nat, nat>, i: nat, n: nat)
    requires CountsHold(primary, refCounts) == true && StrictlySorted(key, primary) == true && i < |primary| && n > 0
    requires DistinctTupleIds(multiset(primary)) == true
    ensures var e := primary[i];
            && CountsHold(primary, refCounts[e.id := n]) == true
            && ContentsOf(key, primary, refCounts[e.id := n]) ==
               ContentsOf(key, primary, refCounts)[SortKey(key, e) := Stored(e, n)]
  {
    var (e, c) := (primary[i], ContentsOf(key, primary, refCounts));
    var counts := refCounts[e.id := n];
    CountsCover(primary, refCounts);
    assert e in primary && e.id in IdsOf(primary);
    ContentsExact(key, primary, refCounts);
    RepresentsCount(key, primary, refCounts, c, i, n);
    ContentsExact(key, primary, counts);
    RepresentsUnique(key, primary, counts, ContentsOf(key, primary, counts), c[SortKey(key, e) := Stored(e, n)]);
  }

  lemma {:induction false} StoredAt(key: Key, primary: seq<Tuple>, refCounts: map<nat, nat>, i: nat)
    requires CountsHold(primary, refCounts) == true && StrictlySorted(key, primary) == true && i < |primary|
    ensures var (e, c) := (primary[i], ContentsOf(key, primary, refCounts));
            && e.id in refCounts && refCounts[e.id] > 0
            && SortKey(key, e) in c && c[SortKey(key, e)] == Stored(e, refCounts[e.id])
  {
    CountsCover(primary, refCounts);
    ContentsExact(key, primary, refCounts);
    assert primary[i] in primary;
  }

  lemma {:induction false} AbsentFromContents(key: Key, primary: seq<Tuple>, refCounts: map<nat, nat>, g: seq<Value>)
    requires CountsHold(primary, refCounts) == true && StrictlySorted(key, primary) == true
    requires forall t | t in primary :: SortKey(key, t) != g
    ensures g !in ContentsOf(key, primary, refCounts)
    ensures ContentsOf(key, primary, refCounts) - {g} == ContentsOf(key, primary, refCounts)
  {
    CountsCover(primary, refCounts);
    ContentsExact(key, primary, refCounts);
  }

  lemma {:induction false} RepresentsBag(key: Key, primary: seq<Tuple>, refCounts: map<nat, nat>, c: Contents)
    requires Represents(key, primary, refCounts, c) && DistinctTupleIds(multiset(primary))
    ensures multiset(primary) == TuplesOf(c)
  {
    var tuples := set g | g in c :: c[g].tuple;
    forall t ensures multiset(primary)[t] == multiset(tuples)[t] {
      assert t in primary <==> t in multiset(primary);
      if t in primary {
        assert c[SortKey(key, t)].tuple == t;
      }
    }
  }

  /** No two entries share a primary key or an ID. */
  lemma {:induction false} EntriesApart(key: Key, s: seq<Tuple>, i: nat, t: Tuple)
    requires StrictlySorted(key, s) && DistinctTupleIds(multiset(s)) && i < |s| && t in s && t != s[i]
    ensures SortKey(key, t) != SortKey(key, s[i]) && t.id != s[i].id
  {
    var k :| 0 <= k < |s| && s[k] == t;
    LexTotal(SortKey(key, t), SortKey(key, s[i]));
    assert t in multiset(s) && s[i] in multiset(s);
    assert k < i ==> Less(key, s[k], s[i]);
    assert i < k ==> Less(key, s[i], s[k]);
  }

  lemma {:induction false} RepresentsAdd(key: Key, primary: seq<Tuple>, refCounts: map<nat, nat>, c: Contents,
                                         now: seq<Tuple>, t: Tuple)
    requires Represents(key, primary, refCounts, c) && multiset(now) == multiset(primary) + multiset{t}
    requires forall s | s in primary :: s.id != t.id && SortKey(key, s) != SortKey(key, t)
    ensures Represents(key, now, refCounts[t.id := 1], c[SortKey(key, t) := Stored(t, 1)])
  {
    forall u ensures u in now <==> u in primary || u == t {
      assert u in now <==> u in multiset(now);
      assert u in primary <==> u in multiset(primary);
    }
  }

  lemma {:induction false} ErasedMembers(s: seq<Tuple>, i: nat)
    requires DistinctTupleIds(multiset(s)) && i < |s|
    ensures forall u :: u in Sequences.Erased(s, i) <==> u in s && u != s[i]
  {
    var now := Sequences.Erased(s, i);
    Sequences.ErasedContents(s, i);
    forall u ensures u in now <==> u in s && u != s[i] {
      assert u in now <==> u in multiset(now);
      assert u in s <==> u in multiset(s);
    }
  }

  lemma {:induction false} RepresentsDrop(key: Key, primary: seq<Tuple>, refCounts: map<nat, nat>, c: Contents, i: nat)
    requires Represents(key, primary, refCounts, c) && i < |primary|
    requires StrictlySorted(key, primary) && DistinctTupleIds(multiset(primary))
    ensures var e := primary[i];
            Represents(key, Sequences.Erased(primary, i), refCounts - {e.id}, c - {SortKey(key, e)})
  {
    var (e, now) := (primary[i], Sequences.Erased(primary, i));
    ErasedMembers(primary, i);
    forall u | u in now ensures SortKey(key, u) != SortKey(key, e) && u.id != e.id {
      EntriesApart(key, primary, i, u);
    }
  }

  lemma {:induction false} RepresentsCount(key: Key, primary: seq<Tuple>, refCounts: map<nat, nat>, c: Contents, i: nat,
                                           n: nat)
    requires Represents(key, primary, refCounts, c) && i < |primary|
    requires StrictlySorted(key, primary) && DistinctTupleIds(multiset(primary))
    ensures var e := primary[i];
            Represents(key, primary, refCounts[e.id := n], c[SortKey(key, e) := Stored(e, n)])
  {
    var e := primary[i];
    forall u | u in primary && u != e ensures SortKey(key, u) != SortKey(key, e) && u.id != e.id {
      EntriesApart(key, primary, i, u);
    }
  }

  lemma {:induction false} OneChange(aggregates: seq<Aggregate>, c: Change)
    ensures AfterChanges(aggregates, [c]) == AllUpdated(aggregates, c)
  {
    assert [c][1..] == [];
  }

  lemma {:induction false} TwoChanges(aggregates: seq<Aggregate>, c: Change, d: Change)
    ensures AfterChanges(aggregates, [c, d]) == AllUpdated(AllUpdated(aggregates, c), d)
  {
    OneChange(aggregates, c);
    OneChange(AllUpdated(aggregates, c), d);
    assert [c, d][1..] == [d];
  }

  // ---------------------------------------------------------------------------------
  // Whole runs
  // ---------------------------------------------------------------------------------

  datatype Op =
    | InsertOp(t: Tuple)
    | RemoveOp(t: Tuple)
    | IndexOp(k: Key)
    | AggregateOp(groupBy: Key, aggField: nat, kind: AggKind)

  /**
   Tuples of any length that have at least the first `width` fields, which are all that the aggregates
   look at; a tuple ID names one tuple.
   */
  ghost predicate WellFormedRun(ops: seq<Op>, width: nat) {
    && (forall i | 0 <= i < |ops| ::
          match ops[i]
          case InsertOp(t) => |t.fields| >= width
          case RemoveOp(t) => true
          case IndexOp(k) => k != []
          case AggregateOp(g, f, _) => g != [] && f < width && forall j | 0 <= j < |g| :: g[j] < width)
    && (forall i, j | 0 <= i < |ops| && 0 <= j < |ops| && ops[i].InsertOp? && ops[j].InsertOp?
                      && ops[i].t.id == ops[j].t.id :: ops[i].t == ops[j].t)
  }

  ghost predicate Inserted(ops: seq<Op>, n: nat, t: Tuple)
    requires n <= |ops|
  {
    exists i | 0 <= i < n :: ops[i] == InsertOp(t)
  }

  ghost predicate Within(aggregates: seq<Aggregate>, width: nat) {
    forall i | 0 <= i < |aggregates| ::
      aggregates[i].aggField < width && forall j | 0 <= j < |aggregates[i].groupBy| :: aggregates[i].groupBy[j] < width
  }

  /** Everything stored was inserted in the first `n` operations. */
  ghost predicate StoredFrom(ops: seq<Op>, n: nat, c: Contents)
    requires n <= |ops|
  {
    forall g | g in c :: Inserted(ops, n, c[g].tuple)
  }

  lemma {:induction false} StoredNext(ops: seq<Op>, n: nat, key: Key, c: Contents)
    requires n < |ops| && StoredFrom(ops, n, c)
    ensures StoredFrom(ops, n + 1, c) == true
    ensures ops[n].InsertOp? ==> StoredFrom(ops, n + 1, AfterInsert(key, c, ops[n].t)) == true
    ensures ops[n].RemoveOp? ==> StoredFrom(ops, n + 1, AfterRemove(key, c, ops[n].t)) == true
  {
  }

  lemma {:induction false} StoredWereInserted(ops: seq<Op>, n: nat, key: Key, primary: seq<Tuple>,
                                              refCounts: map<nat, nat>)
    requires n <= |ops| && CountsHold(primary, refCounts) && StrictlySorted(key, primary)
    requires StoredFrom(ops, n, ContentsOf(key, primary, refCounts))
    ensures forall s | s in primary :: Inserted(ops, n, s)
  {
    CountsCover(primary, refCounts);
    ContentsExact(key, primary, refCounts);
    forall s | s in primary ensures Inserted(ops, n, s) {
      assert SortKey(key, s) in ContentsOf(key, primary, refCounts);
    }
  }

  lemma {:induction false} SameIdSameTuple(ops: seq<Op>, n: nat, width: nat, key: Key, primary: seq<Tuple>,
                                           refCounts: map<nat, nat>, t: Tuple)
    requires WellFormedRun(ops, width) && n < |ops| && ops[n] == InsertOp(t)
    requires CountsHold(primary, refCounts) == true && StrictlySorted(key, primary) == true
    requires StoredFrom(ops, n, ContentsOf(key, primary, refCounts))
    ensures forall s | s in primary && s.id == t.id :: s == t
    ensures |t.fields| >= width
  {
    StoredWereInserted(ops, n, key, primary, refCounts);
  }

  lemma {:induction false} StoredAreWide(ops: seq<Op>, n: nat, width: nat, key: Key, primary: seq<Tuple>,
                                         refCounts: map<nat, nat>)
    requires WellFormedRun(ops, width) && n <= |ops|
    requires CountsHold(primary, refCounts) == true && StrictlySorted(key, primary) == true
    requires StoredFrom(ops, n, ContentsOf(key, primary, refCounts))
    ensures forall s | s in primary :: |s.fields| >= width
  {
    StoredWereInserted(ops, n, key, primary, refCounts);
  }

  lemma {:induction false} ChangedWithin(aggregates: seq<Aggregate>, changes: seq<Change>, width: nat)
    requires Within(aggregates, width)
    ensures Within(AfterChanges(aggregates, changes), width)
  {
    ChangedShapes(aggregates, changes);
    WithinBySame(aggregates, AfterChanges(aggregates, changes), width);
  }

  lemma {:induction false} WideAccepted(aggregates: seq<Aggregate>, t: Tuple, width: nat)
    requires Within(aggregates, width) && |t.fields| >= width
    ensures AllAccept(aggregates, multiset{t})
  {
  }

  lemma {:induction false} WithinBySame(were: seq<Aggregate>, now: seq<Aggregate>, width: nat)
    requires Within(were, width) && SameShapes(were, now)
    ensures Within(now, width)
  {
  }

  /** The contents, the indexed keys and the aggregates of a table. */
  datatype World = World(contents: Contents, keys: set<Key>, aggregates: seq<Aggregate>)

  /** What one operation does to them. */
  ghost function Next(key: Key, w: World, op: Op): World {
    match op
    case InsertOp(t) =>
      World(AfterInsert(key, w.contents, t), w.keys, AfterChanges(w.aggregates, InsertChanges(key, w.contents, t)))
    case RemoveOp(t) =>
      World(AfterRemove(key, w.contents, t), w.keys, AfterChanges(w.aggregates, RemoveChanges(key, w.contents, t)))
    case IndexOp(k) => w.(keys := w.keys + {k})
    case AggregateOp(g, _, _) => w.(keys := w.keys + {g}, aggregates := w.aggregates + [Created(op)])
  }

  /** The aggregate as `op` creates it. */
  ghost function Created(op: Op): Aggregate
    requires op.AggregateOp?
  {
    Aggregate(op.groupBy, op.aggField, op.kind, map[], [])
  }

  // What a run should lead to, one part at a time: the stored tuples, the indexed keys, and the
  // changes that an aggregate gets to see.

  ghost function ContentsAfter(key: Key, ops: seq<Op>, n: nat): Contents
    requires n <= |ops|
  {
    if n == 0 then map[] else
    match ops[n - 1]
    case InsertOp(t) => AfterInsert(key, ContentsAfter(key, ops, n - 1), t)
    case RemoveOp(t) => AfterRemove(key, ContentsAfter(key, ops, n - 1), t)
    case _ => ContentsAfter(key, ops, n - 1)
  }

  ghost function KeysAfter(ops: seq<Op>, n: nat): set<Key>
    requires n <= |ops|
  {
    (set i | 0 <= i < n && ops[i].IndexOp? :: ops[i].k) + (set i | 0 <= i < n && ops[i].AggregateOp? :: ops[i].groupBy)
  }

  ghost function ChangesBy(key: Key, c: Contents, op: Op): seq<Change> {
    match op
    case InsertOp(t) => InsertChanges(key, c, t)
    case RemoveOp(t) => RemoveChanges(key, c, t)
    case _ => []
  }

  /** The changes that the operations from `i` up to `n` make. */
  ghost function ChangesSince(key: Key, ops: seq<Op>, i: nat, n: nat): seq<Change>
    requires i <= n <= |ops|
    decreases n - i
  {
    if i == n then []
    else ChangesSince(key, ops, i, n - 1) + ChangesBy(key, ContentsAfter(key, ops, n - 1), ops[n - 1])
  }

  /** One aggregate, shown a list of changes. */
  ghost function Replayed(a: Aggregate, changes: seq<Change>): Aggregate
    decreases |changes|
  {
    if changes == [] then a
    else Replayed(Updated(a, changes[0].tuple, changes[0].tuples), changes[1..])
  }

  /** How many aggregates the first `n` operations create. */
  function AggregatesMade(ops: seq<Op>, n: nat): nat
    requires n <= |ops|
  {
    if n == 0 then 0 else AggregatesMade(ops, n - 1) + if ops[n - 1].AggregateOp? then 1 else 0
  }

  /** The aggregate of operation `i` is in its place, having been shown every change made since. */
  ghost predicate InPlace(key: Key, ops: seq<Op>, i: nat, n: nat, aggregates: seq<Aggregate>)
    requires i < n <= |ops| && ops[i].AggregateOp?
  {
    var j := AggregatesMade(ops, i);
    j < |aggregates| && aggregates[j] == Replayed(Created(ops[i]), ChangesSince(key, ops, i + 1, n))
  }

  ghost predicate AllInPlace(key: Key, ops: seq<Op>, n: nat, aggregates: seq<Aggregate>)
    requires n <= |ops|
  {
    && |aggregates| == AggregatesMade(ops, n)
    && forall i | 0 <= i < n && ops[i].AggregateOp? :: InPlace(key, ops, i, n, aggregates)
  }

  lemma {:induction false} AfterChangesAt(aggregates: seq<Aggregate>, changes: seq<Change>, i: nat)
    requires i < |aggregates|
    ensures |AfterChanges(aggregates, changes)| == |aggregates|
    ensures AfterChanges(aggregates, changes)[i] == Replayed(aggregates[i], changes)
    decreases |changes|
  {
    if changes != [] {
      AfterChangesAt(AllUpdated(aggregates, changes[0]), changes[1..], i);
    }
  }

  lemma {:induction false} ReplayedBoth(a: Aggregate, changes: seq<Change>, more: seq<Change>)
    ensures Replayed(a, changes + more) == Replayed(Replayed(a, changes), more)
    decreases |changes|
  {
    if changes == [] {
      assert changes + more == more;
    } else {
      assert (changes + more)[1..] == changes[1..] + more;
      ReplayedBoth(Updated(a, changes[0].tuple, changes[0].tuples), changes[1..], more);
    }
  }

  /** Aggregates that are there already see the changes of one operation, and keep their places. */
  lemma {:induction false} NextAt(key: Key, w: World, op: Op, j: nat)
    requires j < |w.aggregates|
    ensures var all := Next(key, w, op).aggregates;
            |all| >= |w.aggregates| && all[j] == Replayed(w.aggregates[j], ChangesBy(key, w.contents, op))
  {
    match op
    case InsertOp(t) => AfterChangesAt(w.aggregates, InsertChanges(key, w.contents, t), j);
    case RemoveOp(t) => AfterChangesAt(w.aggregates, RemoveChanges(key, w.contents, t), j);
    case _ =>
  }

  lemma {:induction false} NextCount(key: Key, w: World, op: Op)
    ensures |Next(key, w, op).aggregates| == |w.aggregates| + if op.AggregateOp? then 1 else 0
  {
    match op
    case InsertOp(t) => ChangedShapes(w.aggregates, InsertChanges(key, w.contents, t));
    case RemoveOp(t) => ChangedShapes(w.aggregates, RemoveChanges(key, w.contents, t));
    case _ =>
  }

  lemma {:induction false} InPlaceNext(key: Key, ops: seq<Op>, i: nat, n: nat, w: World)
    requires i < n < |ops| && ops[i].AggregateOp? && w.contents == ContentsAfter(key, ops, n)
    requires InPlace(key, ops, i, n, w.aggregates)
    ensures InPlace(key, ops, i, n + 1, Next(key, w, ops[n]).aggregates) == true
  {
    NextAt(key, w, ops[n], AggregatesMade(ops, i));
    ReplayedBoth(Created(ops[i]), ChangesSince(key, ops, i + 1, n), ChangesBy(key, w.contents, ops[n]));
  }

  lemma {:induction false} InPlaceAtFirst(key: Key, ops: seq<Op>, n: nat, w: World)
    requires n < |ops| && ops[n].AggregateOp? && |w.aggregates| == AggregatesMade(ops, n)
    ensures InPlace(key, ops, n, n + 1, Next(key, w, ops[n]).aggregates) == true
  {
  }

  lemma {:induction false} AllInPlaceNext(key: Key, ops: seq<Op>, n: nat, w: World)
    requires n < |ops| && w.contents == ContentsAfter(key, ops, n) && AllInPlace(key, ops, n, w.aggregates)
    ensures AllInPlace(key, ops, n + 1, Next(key, w, ops[n]).aggregates) == true
  {
    var all := Next(key, w, ops[n]).aggregates;
    NextCount(key, w, ops[n]);
    forall i | 0 <= i < n + 1 && ops[i].AggregateOp? ensures InPlace(key, ops, i, n + 1, all) == true {
      if i < n {
        InPlaceNext(key, ops, i, n, w);
      } else {
        InPlaceAtFirst(key, ops, n, w);
      }
    }
  }

  /** The first `n` operations have led to `w`. */
  ghost predicate LedTo(key: Key, ops: seq<Op>, n: nat, w: World)
    requires n <= |ops|
  {
    && w.contents == ContentsAfter(key, ops, n) && w.keys == KeysAfter(ops, n)
    && AllInPlace(key, ops, n, w.aggregates)
  }

  lemma {:induction false} KeysNext(key: Key, ops: seq<Op>, n: nat, w: World)
    requires n < |ops| && w.keys == KeysAfter(ops, n)
    ensures Next(key, w, ops[n]).keys == KeysAfter(ops, n + 1)
  {
  }

  lemma {:induction false} LedToNext(key: Key, ops: seq<Op>, n: nat, w: World)
    requires n < |ops| && LedTo(key, ops, n, w)
    ensures LedTo(key, ops, n + 1, Next(key, w, ops[n])) == true
  {
    KeysNext(key, ops, n, w);
    AllInPlaceNext(key, ops, n, w);
  }

  /**
   Any run leads where it should: the primary index holds exactly the stored tuples, in the order of the
   primary key; there is an index for every key asked for, and each holds the same tuples in its own
   order; and every aggregate remembers, and has told its listeners, exactly what it should: what an
   aggregate does that is shown, in order, all the changes made since it was created.
   */
  method RunTable(key: Key, ops: seq<Op>, width: nat)
    returns (primary: seq<Tuple>, counts: map<nat, nat>, indices: map<Key, seq<Tuple>>, aggregates: seq<Aggregate>)
    requires WellFormedRun(ops, width)
    ensures StrictlySorted(key, primary) && Consistent(multiset(primary), indices, aggregates)
    ensures multiset(primary) == TuplesOf(ContentsAfter(key, ops, |ops|))
    ensures Represents(key, primary, counts, ContentsAfter(key, ops, |ops|))
    ensures indices.Keys == KeysAfter(ops, |ops|)
    ensures AllInPlace(key, ops, |ops|, aggregates)
  {
    var table := new Table(key);
    for n := 0 to |ops|
      invariant fresh(table) && table.key == key && table.Valid() && table.Counted()
      invariant Within(table.aggregates, width) == true && StoredFrom(ops, n, table.Contents()) == true
      invariant LedTo(key, ops, n, table.Now()) == true
    {
      LedToNext(key, ops, n, table.Now());
      table.Apply(ops, n, width);
    }
    ContentsBag(key, table.primary, table.refCounts);
    CountsCover(table.primary, table.refCounts);
    ContentsExact(key, table.primary, table.refCounts);
    return table.primary, table.refCounts, table.indices, table.aggregates;
  }

  // ---------------------------------------------------------------------------------
  // Which groups an aggregate remembers
  // ---------------------------------------------------------------------------------

  /** The tuples that came or went. */
  ghost function MovedBy(changes: seq<Change>): set<Tuple> {
    set i | 0 <= i < |changes| :: changes[i].tuple
  }

  ghost function GroupsOf(groupBy: Key, tuples: set<Tuple>): set<seq<Value>> {
    set t | t in tuples :: SortKey(groupBy, t)
  }

  lemma {:induction false} MovedFirst(groupBy: Key, changes: seq<Change>)
    requires changes != []
    ensures GroupsOf(groupBy, MovedBy(changes)) ==
            {SortKey(groupBy, changes[0].tuple)} + GroupsOf(groupBy, MovedBy(changes[1..]))
  {
    assert changes == [changes[0]] + changes[1..];
    assert MovedBy(changes) == {changes[0].tuple} + MovedBy(changes[1..]);
  }

  /** An aggregate keeps its shape, and adds the groups of the tuples that moved to those it remembers. */
  lemma {:induction false} ReplayedRemembers(a: Aggregate, changes: seq<Change>)
    ensures var r := Replayed(a, changes);
            r.SameShape(a) && r.current.Keys == a.current.Keys + GroupsOf(a.groupBy, MovedBy(changes))
    decreases |changes|
  {
    if changes == [] {
      assert MovedBy(changes) == {};
    } else {
      ReplayedRemembers(Updated(a, changes[0].tuple, changes[0].tuples), changes[1..]);
      MovedFirst(a.groupBy, changes);
    }
  }

  /**
   The aggregate that operation `i` creates keeps its shape, and remembers exactly the groups of the
   tuples that came or went since.
   */
  lemma {:induction false} RemembersMovedGroups(key: Key, ops: seq<Op>, i: nat, n: nat, aggregates: seq<Aggregate>)
    requires i < n <= |ops| && ops[i].AggregateOp? && AllInPlace(key, ops, n, aggregates)
    ensures var j := AggregatesMade(ops, i);
            && j < |aggregates| && aggregates[j].SameShape(Created(ops[i]))
            && aggregates[j].current.Keys == GroupsOf(ops[i].groupBy, MovedBy(ChangesSince(key, ops, i + 1, n)))
  {
    assert InPlace(key, ops, i, n, aggregates);
    ReplayedRemembers(Created(ops[i]), ChangesSince(key, ops, i + 1, n));
  }
}
