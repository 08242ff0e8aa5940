/**
 Editing a running dataflow (p2core/dataflowEdit.C): new hookups displace old ones, and old elements
 that lost their connections are removed, transitively, before the edited dataflow is validated.
 */
module DataflowEdits {
  import Sequences
  import opened Dataflows

  /** An element, named by an identifier that survives removals; hookups refer to it. */
  datatype Element = Element(id: nat, ninputs: nat, noutputs: nat)

  ghost predicate DistinctIds(elements: seq<Element>) {
    forall i, j | 0 <= i < j < |elements| :: elements[i].id != elements[j].id
  }

  ghost function Ids(elements: seq<Element>): set<nat> {
    set e | e in elements :: e.id
  }

  // ---------------------------------------------------------------------------------
  // Which elements an edit keeps
  // ---------------------------------------------------------------------------------

  /** An element with inputs needs an incoming hookup; one with outputs only, an outgoing one. */
  ghost predicate Supported(e: Element, hookups: seq<Hookup>) {
    if e.ninputs > 0 then exists h :: h in hookups && h.to == e.id
    else e.noutputs > 0 && exists h :: h in hookups && h.from == e.id
  }

  predicate Touches(h: Hookup, removed: set<nat>) {
    h.from in removed || h.to in removed
  }

  /** The hookups none of whose ends was removed, in order. */
  function Surviving(hookups: seq<Hookup>, removed: set<nat>): (r: seq<Hookup>)
    ensures forall h :: h in r <==> h in hookups && !Touches(h, removed)
  {
    if hookups == [] then []
    else if Touches(hookups[0], removed) then Surviving(hookups[1..], removed)
    else [hookups[0]] + Surviving(hookups[1..], removed)
  }

  /** The elements that were not removed, in order. */
  function Kept(elements: seq<Element>, removed: set<nat>): (r: seq<Element>)
    ensures forall e :: e in r <==> e in elements && e.id !in removed
  {
    if elements == [] then []
    else if elements[0].id in removed then Kept(elements[1..], removed)
    else [elements[0]] + Kept(elements[1..], removed)
  }

  /** Removing just the old elements outside `keep` leaves every element of `keep` supported. */
  ghost predicate SelfSupporting(elements: seq<Element>, hookups: seq<Hookup>, keep: set<nat>) {
    && keep <= Ids(elements)
    && forall e | e in elements && e.id in keep :: Supported(e, Surviving(hookups, Ids(elements) - keep))
  }

  ghost predicate GreatestSupported(elements: seq<Element>, hookups: seq<Hookup>, keep: set<nat>) {
    && SelfSupporting(elements, hookups, keep)
    && forall other | SelfSupporting(elements, hookups, other) :: other <= keep
  }

  /** The kept set does not depend on the order in which elements and hookups are scanned. */
  lemma {:induction false} GreatestIgnoresOrder(elements: seq<Element>, hookups: seq<Hookup>, keep: set<nat>,
                                                elements': seq<Element>, hookups': seq<Hookup>, keep': set<nat>)
    requires forall e :: e in elements <==> e in elements'
    requires forall h :: h in hookups <==> h in hookups'
    requires GreatestSupported(elements, hookups, keep) && GreatestSupported(elements', hookups', keep')
    ensures keep == keep'
  {
    SupportIgnoresOrder(elements, hookups, keep, elements', hookups');
    SupportIgnoresOrder(elements', hookups', keep', elements, hookups);
  }

  lemma {:induction false} SupportIgnoresOrder(elements: seq<Element>, hookups: seq<Hookup>, keep: set<nat>,
                                               elements': seq<Element>, hookups': seq<Hookup>)
    requires forall e :: e in elements <==> e in elements'
    requires forall h :: h in hookups <==> h in hookups'
    requires SelfSupporting(elements, hookups, keep)
    ensures SelfSupporting(elements', hookups', keep)
  {
    assert Ids(elements) == Ids(elements');
    forall e | e in elements' && e.id in keep
      ensures Supported(e, Surviving(hookups', Ids(elements') - keep))
    {
      SupportMonotone(e, Surviving(hookups, Ids(elements) - keep), Surviving(hookups', Ids(elements') - keep));
    }
  }

  lemma {:induction false} SupportMonotone(e: Element, fewer: seq<Hookup>, more: seq<Hookup>)
    requires Supported(e, fewer) && forall h | h in fewer :: h in more
    ensures Supported(e, more)
  {
    if e.ninputs > 0 {
      var h :| h in fewer && h.to == e.id;
      assert h in more && h.to == e.id;
    } else {
      var h :| h in fewer && h.from == e.id;
      assert h in more && h.from == e.id;
    }
  }

  /** An element found unsupported while only unsupportable ones are gone is unsupportable itself. */
  lemma {:induction false} UnsupportedNeverKept(elements: seq<Element>, hookups: seq<Hookup>, removed: set<nat>,
                                                e: Element, keep: set<nat>)
    requires e in elements && removed <= Ids(elements)
    requires SelfSupporting(elements, hookups, keep) && keep !! removed
    requires !Supported(e, Surviving(hookups, removed))
    ensures e.id !in keep
  {
    if e.id in keep {
      SupportMonotone(e, Surviving(hookups, Ids(elements) - keep), Surviving(hookups, removed));
      assert false;
    }
  }

  lemma {:induction false} SurvivingTwice(hookups: seq<Hookup>, removed: set<nat>, more: set<nat>)
    ensures Surviving(Surviving(hookups, removed), more) == Surviving(hookups, removed + more)
  {
    if hookups != [] {
      SurvivingTwice(hookups[1..], removed, more);
      if !Touches(hookups[0], removed) {
        var s := [hookups[0]] + Surviving(hookups[1..], removed);
        assert s[0] == hookups[0] && s[1..] == Surviving(hookups[1..], removed);
      }
    }
  }

  lemma {:induction false} SurvivingAppend(s: seq<Hookup>, h: Hookup, removed: set<nat>)
    ensures Surviving(s + [h], removed) == Surviving(s, removed) + if Touches(h, removed) then [] else [h]
  {
    if s == [] {
      assert s + [h] == [h];
    } else {
      assert (s + [h])[0] == s[0] && (s + [h])[1..] == s[1..] + [h];
      SurvivingAppend(s[1..], h, removed);
    }
  }

  lemma {:induction false} SurvivingAll(hookups: seq<Hookup>)
    ensures Surviving(hookups, {}) == hookups
  {
    if hookups != [] {
      SurvivingAll(hookups[1..]);
    }
  }

  lemma {:induction false} KeptAll(elements: seq<Element>)
    ensures Kept(elements, {}) == elements
  {
    if elements != [] {
      KeptAll(elements[1..]);
    }
  }

  /** Removing the element at position `i` of the kept ones. */
  lemma {:induction false} KeptErase(elements: seq<Element>, removed: set<nat>, i: nat)
    requires DistinctIds(elements) && i < |Kept(elements, removed)|
    ensures var k := Kept(elements, removed);
            Kept(elements, removed + {k[i].id}) == Sequences.Erased(k, i)
  {
    var k := Kept(elements, removed);
    var id := k[i].id;
    var rest := elements[1..];
    assert DistinctIds(rest);
    assert forall e | e in rest :: e.id != elements[0].id;
    if elements[0].id in removed {
      KeptErase(rest, removed, i);
    } else if i == 0 {
      KeptWithout(rest, removed, id);
      assert k[1..] == Kept(rest, removed);
    } else {
      var k' := Kept(rest, removed);
      assert k == [elements[0]] + k';
      assert k'[i - 1] in rest;
      KeptErase(rest, removed, i - 1);
      assert Sequences.Erased(k, i) == [elements[0]] + (k'[..i - 1] + k'[i..]);
    }
  }

  lemma {:induction false} KeptWithout(elements: seq<Element>, removed: set<nat>, id: nat)
    requires forall e | e in elements :: e.id != id
    ensures Kept(elements, removed + {id}) == Kept(elements, removed)
  {
    if elements != [] {
      KeptWithout(elements[1..], removed, id);
    }
  }

  // ---------------------------------------------------------------------------------
  // Displacing old hookups
  // ---------------------------------------------------------------------------------

  /** Erases the first hookup that uses port `p`, if there is one. */
  function EraseFirst(hookups: seq<Hookup>, p: PortRef): seq<Hookup> {
    if hookups == [] then []
    else if OutputOf(hookups[0]) == p || InputOf(hookups[0]) == p then hookups[1..]
    else [hookups[0]] + EraseFirst(hookups[1..], p)
  }

  lemma {:induction false} EraseFirstAt(hookups: seq<Hookup>, p: PortRef, i: nat)
    requires i <= |hookups|
    requires forall k | 0 <= k < i :: !Uses(hookups[k], p)
    requires i < |hookups| ==> Uses(hookups[i], p)
    ensures EraseFirst(hookups, p) == if i < |hookups| then Sequences.Erased(hookups, i) else hookups
  {
    if i > 0 {
      EraseFirstAt(hookups[1..], p, i - 1);
    }
  }

  /** Where every port is used once, erasing the first user of a port erases all its users. */
  lemma {:induction false} EraseFirstErasesAll(hookups: seq<Hookup>, p: PortRef)
    requires PortsUsedOnce(hookups)
    ensures PortsUsedOnce(EraseFirst(hookups, p))
    ensures forall h :: h in EraseFirst(hookups, p) <==> h in hookups && !Uses(h, p)
  {
    if hookups != [] {
      var (h, rest) := (hookups[0], hookups[1..]);
      assert PortsUsedOnce(rest) by {
        forall j, k | 0 <= j < k < |rest|
          ensures OutputOf(rest[j]) != OutputOf(rest[k]) && InputOf(rest[j]) != InputOf(rest[k])
        {
          assert rest[j] == hookups[j + 1] && rest[k] == hookups[k + 1];
        }
      }
      forall g | g in rest ensures OutputOf(g) != OutputOf(h) && InputOf(g) != InputOf(h) {
        var k :| 0 <= k < |rest| && rest[k] == g;
        assert hookups[k + 1] == g;
      }
      if !Uses(h, p) {
        EraseFirstErasesAll(rest, p);
      }
    }
  }

  /** No hookup of `s` shares a port with a hookup of `t`. */
  ghost predicate DisjointPorts(s: seq<Hookup>, t: seq<Hookup>) {
    forall g, h | g in s && h in t :: OutputOf(g) != OutputOf(h) && InputOf(g) != InputOf(h)
  }

  lemma {:induction false} Displaced(olds: seq<Hookup>, news: seq<Hookup>, h: Hookup)
    requires PortsUsedOnce(olds) && DisjointPorts(olds, news)
    ensures var r := EraseFirst(EraseFirst(olds, OutputOf(h)), InputOf(h));
            && PortsUsedOnce(r) && DisjointPorts(r, news + [h])
            && forall g :: g in r <==> g in olds && !Uses(g, OutputOf(h)) && !Uses(g, InputOf(h))
  {
    EraseFirstErasesAll(olds, OutputOf(h));
    EraseFirstErasesAll(EraseFirst(olds, OutputOf(h)), InputOf(h));
    DisjointMore(olds, EraseFirst(EraseFirst(olds, OutputOf(h)), InputOf(h)), news, h);
  }

  lemma {:induction false} DisjointMore(olds: seq<Hookup>, r: seq<Hookup>, news: seq<Hookup>, h: Hookup)
    requires DisjointPorts(olds, news)
    requires forall g | g in r :: g in olds && !Uses(g, OutputOf(h)) && !Uses(g, InputOf(h))
    ensures DisjointPorts(r, news + [h])
  {
  }

  /** Once the old hookups are out of the way, only the new ones can use a port twice. */
  lemma {:induction false} OnlyNewCanCollide(olds: seq<Hookup>, news: seq<Hookup>)
    requires PortsUsedOnce(olds) && DisjointPorts(olds, news)
    ensures PortsUsedOnce(olds + news) <==> PortsUsedOnce(news)
  {
    var all := olds + news;
    if PortsUsedOnce(all) {
      forall j, k | 0 <= j < k < |news|
        ensures OutputOf(news[j]) != OutputOf(news[k]) && InputOf(news[j]) != InputOf(news[k])
      {
        assert all[|olds| + j] == news[j] && all[|olds| + k] == news[k];
      }
    }
  }

  lemma {:induction false} SurvivorsUseOnce(hookups: seq<Hookup>, removed: set<nat>)
    requires PortsUsedOnce(hookups)
    ensures PortsUsedOnce(Surviving(hookups, removed))
  {
    if hookups != [] {
      var (h, rest) := (hookups[0], hookups[1..]);
      assert PortsUsedOnce(rest) by {
        forall j, k | 0 <= j < k < |rest|
          ensures OutputOf(rest[j]) != OutputOf(rest[k]) && InputOf(rest[j]) != InputOf(rest[k])
        {
          assert rest[j] == hookups[j + 1] && rest[k] == hookups[k + 1];
        }
      }
      SurvivorsUseOnce(rest, removed);
      forall g | g in rest ensures OutputOf(g) != OutputOf(h) && InputOf(g) != InputOf(h) {
        var k :| 0 <= k < |rest| && rest[k] == g;
        assert hookups[k + 1] == g;
      }
    }
  }

  /** The state of the removal loop after removing `removed` from the given elements and hookups. */
  ghost predicate Pruned(all: seq<Element>, links: seq<Hookup>, trash: seq<Element>, removed: set<nat>,
                         elements: seq<Element>, hookups: seq<Hookup>, garbage: seq<Element>)
  {
    && removed <= Ids(all)
    && elements == Kept(all, removed)
    && hookups == Surviving(links, removed)
    && multiset(elements) + multiset(garbage) == multiset(all) + multiset(trash)
    && (forall keep | SelfSupporting(all, links, keep) :: keep !! removed)
  }

  lemma {:induction false} DiscardStep(all: seq<Element>, links: seq<Hookup>, trash: seq<Element>,
                                       removed: set<nat>, elements: seq<Element>, hookups: seq<Hookup>,
                                       garbage: seq<Element>, i: nat)
    requires DistinctIds(all) && Pruned(all, links, trash, removed, elements, hookups, garbage)
    requires i < |elements| && !Supported(elements[i], hookups)
    ensures var e := elements[i];
            Pruned(all, links, trash, removed + {e.id}, Sequences.Erased(elements, i),
                   Surviving(hookups, {e.id}), garbage + [e])
  {
    var e := elements[i];
    forall keep | SelfSupporting(all, links, keep) ensures keep !! removed + {e.id} {
      UnsupportedNeverKept(all, links, removed, e, keep);
    }
    SurvivingTwice(links, removed, {e.id});
    KeptErase(all, removed, i);
    assert multiset(elements) == multiset(Sequences.Erased(elements, i)) + multiset{e} by {
      assert elements == elements[..i] + [e] + elements[i + 1..];
    }
  }

  /** `seen` was scanned, leaving the first `i` hookups; the rest is still to come. */
  ghost predicate Dropping(all: seq<Hookup>, seen: seq<Hookup>, hookups: seq<Hookup>, i: nat, id: nat) {
    i <= |hookups| && seen + hookups[i..] == all && hookups[..i] == Surviving(seen, {id})
  }

  lemma {:induction false} DroppingErase(all: seq<Hookup>, seen: seq<Hookup>, hookups: seq<Hookup>, i: nat, id: nat)
    requires Dropping(all, seen, hookups, i, id) && i < |hookups| && Touches(hookups[i], {id})
    ensures Dropping(all, seen + [hookups[i]], Sequences.Erased(hookups, i), i, id)
  {
    var now := Sequences.Erased(hookups, i);
    SurvivingAppend(seen, hookups[i], {id});
    assert now[i..] == hookups[i + 1..] && now[..i] == hookups[..i];
    assert seen + [hookups[i]] + hookups[i + 1..] == all;
  }

  lemma {:induction false} DroppingKeep(all: seq<Hookup>, seen: seq<Hookup>, hookups: seq<Hookup>, i: nat, id: nat)
    requires Dropping(all, seen, hookups, i, id) && i < |hookups| && !Touches(hookups[i], {id})
    ensures Dropping(all, seen + [hookups[i]], hookups, i + 1, id)
  {
    SurvivingAppend(seen, hookups[i], {id});
    assert hookups[..i + 1] == hookups[..i] + [hookups[i]];
    assert seen + [hookups[i]] + hookups[i + 1..] == all;
  }

  class DataflowEdit {
    var elements: seq<Element>
    var hookups: seq<Hookup>
    var newElements: seq<Element>
    var newHookups: seq<Hookup>
    var garbage: seq<Element>

    /** The old dataflow was valid, and no old hookup holds a port that a new one took over. */
    ghost predicate Valid()
      reads this
    {
      && DistinctIds(elements)
      && PortsUsedOnce(hookups)
      && DisjointPorts(hookups, newHookups)
    }

    constructor (elements: seq<Element>, hookups: seq<Hookup>)
      requires DistinctIds(elements) && PortsUsedOnce(hookups)
      ensures Valid()
      ensures this.elements == elements && this.hookups == hookups
      ensures newElements == [] && newHookups == [] && garbage == []
    {
      this.elements, this.hookups := elements, hookups;
      newElements, newHookups, garbage := [], [], [];
    }

    /** `hookUp`: records a new hookup; whatever held its two ports before is dropped. */
    method HookUp(h: Hookup)
      requires Valid()
      modifies `hookups, `newHookups
      ensures Valid()
      ensures newHookups == old(newHookups) + [h]
      ensures forall g :: g in hookups <==> g in old(hookups) && !Uses(g, OutputOf(h)) && !Uses(g, InputOf(h))
    {
      Displaced(hookups, newHookups, h);
      newHookups := newHookups + [h];
      RemoveOldHookup(OutputOf(h));
      RemoveOldHookup(InputOf(h));
    }

    /** One of the two loops of `remove_old_hookups`. */
    method RemoveOldHookup(p: PortRef)
      modifies `hookups
      ensures hookups == EraseFirst(old(hookups), p)
    {
      var i := 0;
      while i < |hookups|
        invariant i <= |hookups| && hookups == old(hookups)
        invariant forall k | 0 <= k < i :: !Uses(hookups[k], p)
      {
        if OutputOf(hookups[i]) == p || InputOf(hookups[i]) == p {
          EraseFirstAt(hookups, p, i);
          hookups := Sequences.Erased(hookups, i);
          return;
        }
        i := i + 1;
      }
      EraseFirstAt(hookups, p, i);
    }

    /** The two search loops of `validate`: does a hookup that matters refer to this element? */
    method IsReferenced(e: Element) returns (referenced: bool)
      ensures referenced <==> Supported(e, hookups)
    {
      referenced := false;
      for i := 0 to |hookups|
        invariant !referenced && !Supported(e, hookups[..i])
      {
        assert hookups[..i + 1] == hookups[..i] + [hookups[i]];
        if e.ninputs > 0 && hookups[i].to == e.id {
          assert hookups[i] in hookups;
          return true;
        }
        if e.ninputs == 0 && e.noutputs > 0 && hookups[i].from == e.id {
          assert hookups[i] in hookups;
          return true;
        }
      }
      assert hookups[..|hookups|] == hookups;
    }

    /** Drops every hookup that involves a removed element. */
    method DropHookupsOf(id: nat)
      modifies `hookups
      ensures hookups == Surviving(old(hookups), {id})
    {
      var i: nat := 0;
      ghost var seen := [];
      ghost var all := hookups;
      while i < |hookups|
        invariant Dropping(all, seen, hookups, i, id) == true  // kept folded
        decreases |hookups| - i
      {
        var h := hookups[i];
        if h.to == id || h.from == id {
          DroppingErase(all, seen, hookups, i, id);
          hookups := Sequences.Erased(hookups, i);
        } else {
          DroppingKeep(all, seen, hookups, i, id);
          i := i + 1;
        }
        seen := seen + [h];
      }
      assert seen == all && hookups[..i] == hookups;
    }

    ghost predicate PrunedFrom(all: seq<Element>, links: seq<Hookup>, trash: seq<Element>, removed: set<nat>)
      reads this
    {
      Pruned(all, links, trash, removed, elements, hookups, garbage)
    }

    /** Moves the unsupported element at position `i` to the garbage, with its hookups. */
    method Discard(i: nat, ghost all: seq<Element>, ghost links: seq<Hookup>, ghost trash: seq<Element>,
                   ghost removed: set<nat>)
      requires DistinctIds(all) && PrunedFrom(all, links, trash, removed)
      requires i < |elements| && !Supported(elements[i], hookups)
      modifies this
      ensures PrunedFrom(all, links, trash, removed + {old(elements)[i].id})
      ensures elements == old(elements)[..i] + old(elements)[i + 1..]
      ensures newElements == old(newElements) && newHookups == old(newHookups)
    {
      var e := elements[i];
      DiscardStep(all, links, trash, removed, elements, hookups, garbage, i);
      DropHookupsOf(e.id);
      garbage := garbage + [e];
      elements := Sequences.Erased(elements, i);
    }

    /** One pass of the removal loop; an element discarded makes another pass necessary. */
    method Sweep(ghost all: seq<Element>, ghost links: seq<Hookup>, ghost trash: seq<Element>, ghost before: set<nat>)
      returns (fullyConnected: bool, ghost removed: set<nat>)
      requires DistinctIds(all) && PrunedFrom(all, links, trash, before)
      modifies this
      ensures PrunedFrom(all, links, trash, removed) == true
      ensures newElements == old(newElements) && newHookups == old(newHookups)
      ensures fullyConnected ==> forall e | e in elements :: Supported(e, hookups)
      ensures |elements| <= old(|elements|) && (!fullyConnected ==> |elements| < old(|elements|))
    {
      fullyConnected, removed := true, before;
      var i := 0;
      while i < |elements|
        invariant i <= |elements| <= old(|elements|)
        invariant PrunedFrom(all, links, trash, removed) == true
        invariant newElements == old(newElements) && newHookups == old(newHookups)
        invariant fullyConnected ==> forall k | 0 <= k < i :: Supported(elements[k], hookups)
        invariant !fullyConnected ==> |elements| < old(|elements|)
        decreases |elements| - i
      {
        var referenced := IsReferenced(elements[i]);
        if referenced {
          i := i + 1;
        } else {
          fullyConnected := false;
          ghost var id := elements[i].id;
          Discard(i, all, links, trash, removed);
          removed := removed + {id};
        }
      }
    }

    /**
     The removal loop of `validate`.  It keeps exactly the greatest self-supporting set of the old
     elements, with exactly the hookups between elements that were not removed; what it removes
     goes to the garbage.
     */
    method RemoveDisconnected() returns (ghost removed: set<nat>)
      requires DistinctIds(elements)
      modifies this
      ensures PrunedFrom(old(elements), old(hookups), old(garbage), removed)
      ensures GreatestSupported(old(elements), old(hookups), Ids(old(elements)) - removed)
      ensures newElements == old(newElements) && newHookups == old(newHookups)
    {
      ghost var (all, links, trash) := (elements, hookups, garbage);
      removed := {};
      KeptAll(all);
      SurvivingAll(links);
      var fullyConnected := false;
      while !fullyConnected
        invariant PrunedFrom(all, links, trash, removed)
        invariant newElements == old(newElements) && newHookups == old(newHookups)
        invariant fullyConnected ==> forall e | e in elements :: Supported(e, hookups)
        decreases |elements|, if fullyConnected then 0 else 1
      {
        fullyConnected, removed := Sweep(all, links, trash, removed);
      }
      AllSupported(all, links, removed);
    }

    /**
     `validate` up to the checks inherited from Dataflow: throws in the new hookups, removes what
     lost its connections and adds the new elements.
     */
    method ApplyEdit() returns (ghost removed: set<nat>)
      requires Valid()
      modifies this
      ensures GreatestSupported(old(elements), old(hookups) + newHookups, Ids(old(elements)) - removed)
      ensures elements == Kept(old(elements), removed) + newElements
      ensures hookups == Surviving(old(hookups) + newHookups, removed)
      ensures newElements == old(newElements) && newHookups == old(newHookups)
      ensures PortsUsedOnce(newHookups) ==> PortsUsedOnce(hookups)
    {
      OnlyNewCanCollide(hookups, newHookups);
      hookups := hookups + newHookups;
      ghost var all := hookups;
      removed := RemoveDisconnected();
      elements := elements + newElements;
      if PortsUsedOnce(newHookups) {
        SurvivorsUseOnce(all, removed);
      }
    }
  }

  lemma {:induction false} AllSupported(all: seq<Element>, links: seq<Hookup>, removed: set<nat>)
    requires removed <= Ids(all) && DistinctIds(all)
    requires forall keep | SelfSupporting(all, links, keep) :: keep !! removed
    requires forall e | e in Kept(all, removed) :: Supported(e, Surviving(links, removed))
    ensures GreatestSupported(all, links, Ids(all) - removed)
  {
    assert Ids(all) - (Ids(all) - removed) == removed;
  }
}
