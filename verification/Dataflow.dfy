/**
 Push/pull checking of a flat dataflow (p2core/dataflow.C): personalities spread along hookups and
 through flow groups until nothing changes.  The check is shown to decide whether the personalities
 that the declarations force on other ports are free of contradiction.
 */
module Dataflows {
  import opened Options
  import opened ElementSpecs

  /** A hookup between two elements, each named by its position in the dataflow. */
  datatype Hookup = Hookup(from: nat, fromPort: nat, to: nat, toPort: nat)

  /** The current personalities of the ports of one element. */
  datatype Ports = Ports(inputs: seq<Processing>, outputs: seq<Processing>) {
    ghost function On(side: Side): seq<Processing> {
      if side.Input? then inputs else outputs
    }
  }

  ghost predicate InRange(decls: seq<ElementDecl>, h: Hookup) {
    && h.from < |decls| && decls[h.from].HasPort(Output, h.fromPort)
    && h.to < |decls| && decls[h.to].HasPort(Input, h.toPort)
  }

  // ---------------------------------------------------------------------------------
  // What a consistent dataflow is
  // ---------------------------------------------------------------------------------

  /** What each port is taken to be; `Agnostic` leaves a port open. */
  type Assignment = (nat, Side, nat) -> Processing

  ghost predicate Extends(decls: seq<ElementDecl>, a: Assignment) {
    forall e: nat, s, i: nat | e < |decls| && decls[e].HasPort(s, i) && decls[e].Ports(s)[i].processing != Agnostic ::
      a(e, s, i) == decls[e].Ports(s)[i].processing
  }

  /** A port declared agnostic that is given a personality passes it to its whole flow group. */
  ghost predicate RespectsGroups(decls: seq<ElementDecl>, a: Assignment) {
    forall e: nat, s, i: nat, t, j: nat | e < |decls| && decls[e].SameGroup(s, i, t, j) ::
      decls[e].Ports(s)[i].processing.Agnostic? && a(e, s, i) != Agnostic ==> a(e, t, j) == a(e, s, i)
  }

  /** `a` gives both ends of every hookup the same personality. */
  ghost predicate RespectsHookups(hookups: seq<Hookup>, a: Assignment) {
    forall h | h in hookups :: a(h.from, Output, h.fromPort) == a(h.to, Input, h.toPort)
  }

  ghost predicate Consistent(decls: seq<ElementDecl>, hookups: seq<Hookup>, a: Assignment) {
    Extends(decls, a) && RespectsGroups(decls, a) && RespectsHookups(hookups, a)
  }

  /** What the declarations force does not contradict itself. */
  ghost predicate Compatible(decls: seq<ElementDecl>, hookups: seq<Hookup>) {
    exists a: Assignment :: Consistent(decls, hookups, a)
  }

  /** `a` leaves no port open and keeps the declared personalities. */
  ghost predicate Completes(decls: seq<ElementDecl>, a: Assignment) {
    Extends(decls, a) && forall e: nat, s, i: nat | e < |decls| && decls[e].HasPort(s, i) :: a(e, s, i) != Agnostic
  }

  /** `a` gives the members of every wholly agnostic flow group the same personality. */
  ghost predicate AgnosticGroupsAgree(decls: seq<ElementDecl>, a: Assignment) {
    forall e: nat, s, i: nat, t, j: nat | e < |decls| && decls[e].SameGroup(s, i, t, j) ::
      decls[e].AgnosticGroup(decls[e].Ports(s)[i].group.value) ==> a(e, s, i) == a(e, t, j)
  }

  ghost predicate Solves(decls: seq<ElementDecl>, hookups: seq<Hookup>, a: Assignment) {
    Completes(decls, a) && AgnosticGroupsAgree(decls, a) && RespectsHookups(hookups, a)
  }

  /** The declarations can be completed to a total assignment. */
  ghost predicate Satisfiable(decls: seq<ElementDecl>, hookups: seq<Hookup>) {
    exists a: Assignment :: Solves(decls, hookups, a)
  }

  ghost predicate AllUniform(decls: seq<ElementDecl>) {
    forall e | 0 <= e < |decls| :: decls[e].UniformGroups()
  }

  /** Ports left open can all be made push. */
  lemma {:induction false} CompatibleIsSatisfiable(decls: seq<ElementDecl>, hookups: seq<Hookup>)
    requires Compatible(decls, hookups)
    ensures Satisfiable(decls, hookups)
  {
    var a: Assignment :| Consistent(decls, hookups, a);
    var b: Assignment := (e: nat, s: Side, i: nat) => if a(e, s, i).Agnostic? then Push else a(e, s, i);
    forall e: nat, s, i: nat, t, j: nat | e < |decls| && decls[e].SameGroup(s, i, t, j)
                                          && decls[e].AgnosticGroup(decls[e].Ports(s)[i].group.value)
      ensures b(e, s, i) == b(e, t, j)
    {
      assert decls[e].SameGroup(t, j, s, i);
      assert decls[e].Ports(s)[i].processing.Agnostic? && decls[e].Ports(t)[j].processing.Agnostic?;
    }
    assert Solves(decls, hookups, b);
  }

  lemma {:induction false} UniformGroupIsAgnostic(decl: ElementDecl, s: Side, i: nat, t: Side, j: nat)
    requires decl.UniformGroups() && decl.SameGroup(s, i, t, j) && decl.Ports(s)[i].processing.Agnostic?
    ensures decl.AgnosticGroup(decl.Ports(s)[i].group.value)
  {
    var c := decl.Ports(s)[i].group.value;
    forall u, k: nat | decl.HasPort(u, k) && decl.Ports(u)[k].group == Some(c)
      ensures decl.Ports(u)[k].processing.Agnostic?
    {
      assert decl.SameGroup(s, i, u, k);
    }
  }

  /** With uniform groups the two readings are the same ... */
  lemma {:induction false} UniformReadings(decls: seq<ElementDecl>, hookups: seq<Hookup>)
    requires AllUniform(decls)
    ensures Compatible(decls, hookups) <==> Satisfiable(decls, hookups)
  {
    if Compatible(decls, hookups) {
      CompatibleIsSatisfiable(decls, hookups);
    } else if Satisfiable(decls, hookups) {
      var a: Assignment :| Solves(decls, hookups, a);
      forall e: nat, s, i: nat, t, j: nat | e < |decls| && decls[e].SameGroup(s, i, t, j)
                                            && decls[e].Ports(s)[i].processing.Agnostic?
        ensures a(e, t, j) == a(e, s, i)
      {
        UniformGroupIsAgnostic(decls[e], s, i, t, j);
      }
      assert Consistent(decls, hookups, a);
    }
  }

  function Opposite(p: Processing): Processing {
    if p.Push? then Pull else Push
  }

  /** A neighbour with a single port, on the given side. */
  function Neighbour(side: Side, p: Processing): ElementDecl {
    var ports := [PortDecl(p, None)];
    if side.Input? then ElementDecl(ports, []) else ElementDecl([], ports)
  }

  function JoinTo(side: Side, i: nat): Hookup {
    if side.Input? then Hookup(1, 0, 0, i) else Hookup(0, i, 1, 0)
  }

  /**
   ... and with a mixed group they are not: some neighbour of the agnostic member can be satisfied
   but is refused.  So uniform groups are exactly the ones that every dataflow treats as documented.
   */
  lemma {:induction false} MixedGroupRefused(decl: ElementDecl, s: Side, i: nat, t: Side, j: nat)
    requires decl.SameGroup(s, i, t, j)
    requires decl.Ports(s)[i].processing.Agnostic? && !decl.Ports(t)[j].processing.Agnostic?
    ensures var decls := [decl, Neighbour(Other(s), Opposite(decl.Ports(t)[j].processing))];
            Satisfiable(decls, [JoinTo(s, i)]) && !Compatible(decls, [JoinTo(s, i)])
  {
    var p := Opposite(decl.Ports(t)[j].processing);
    var (decls, hookups) := ([decl, Neighbour(Other(s), p)], [JoinTo(s, i)]);
    MixedSatisfiable(decl, s, i, t, j, p);
    assert decls[1].HasPort(Other(s), 0) && decls[0].SameGroup(s, i, t, j) && hookups[0] in hookups;
    forall a: Assignment ensures !Consistent(decls, hookups, a) {
    }
  }

  /** The ports of `decl` as declared, or push, but `p` for port `i` and the neighbour. */
  ghost function MixedAssigned(decl: ElementDecl, s: Side, i: nat, p: Processing): Assignment {
    (e: nat, u: Side, k: nat) =>
      if e == 1 || (u == s && k == i) then p
      else if e == 0 && k < |decl.Ports(u)| && decl.Ports(u)[k].processing != Agnostic then decl.Ports(u)[k].processing
      else Push
  }

  lemma {:induction false} MixedCompletes(decl: ElementDecl, s: Side, i: nat, p: Processing)
    requires decl.HasPort(s, i) && decl.Ports(s)[i].processing.Agnostic? && p != Agnostic
    ensures Completes([decl, Neighbour(Other(s), p)], MixedAssigned(decl, s, i, p)) == true
  {
  }

  lemma {:induction false} MixedGroupsAgree(decl: ElementDecl, s: Side, i: nat, t: Side, j: nat, p: Processing)
    requires decl.SameGroup(s, i, t, j) && !decl.Ports(t)[j].processing.Agnostic?
    ensures AgnosticGroupsAgree([decl, Neighbour(Other(s), p)], MixedAssigned(decl, s, i, p)) == true
  {
    var (decls, a) := ([decl, Neighbour(Other(s), p)], MixedAssigned(decl, s, i, p));
    forall e: nat, u, k: nat, v, l: nat | e < |decls| && decls[e].SameGroup(u, k, v, l)
                                          && decls[e].AgnosticGroup(decls[e].Ports(u)[k].group.value)
      ensures a(e, u, k) == a(e, v, l)
    {
      if e == 0 {
        MixedOutside(decl, s, i, t, j, p, u, k, v, l);
      }
    }
  }

  /** A wholly agnostic group has no port of the mixed one. */
  lemma {:induction false} MixedOutside(decl: ElementDecl, s: Side, i: nat, t: Side, j: nat, p: Processing, u: Side,
                                        k: nat, v: Side, l: nat)
    requires decl.SameGroup(s, i, t, j) && !decl.Ports(t)[j].processing.Agnostic?
    requires decl.SameGroup(u, k, v, l) && decl.AgnosticGroup(decl.Ports(u)[k].group.value)
    ensures MixedAssigned(decl, s, i, p)(0, u, k) == MixedAssigned(decl, s, i, p)(0, v, l)
  {
    assert decl.Ports(s)[i].group != decl.Ports(u)[k].group;
  }

  lemma {:induction false} MixedSatisfiable(decl: ElementDecl, s: Side, i: nat, t: Side, j: nat, p: Processing)
    requires decl.SameGroup(s, i, t, j) && p != Agnostic
    requires decl.Ports(s)[i].processing.Agnostic? && !decl.Ports(t)[j].processing.Agnostic?
    ensures Satisfiable([decl, Neighbour(Other(s), p)], [JoinTo(s, i)])
  {
    MixedCompletes(decl, s, i, p);
    MixedGroupsAgree(decl, s, i, t, j, p);
    assert RespectsHookups([JoinTo(s, i)], MixedAssigned(decl, s, i, p));
    assert Solves([decl, Neighbour(Other(s), p)], [JoinTo(s, i)], MixedAssigned(decl, s, i, p));
  }

  // ---------------------------------------------------------------------------------
  // The state of the check
  // ---------------------------------------------------------------------------------

  /** Declared personalities are kept. */
  ghost predicate ElementInv(decl: ElementDecl, ports: Ports) {
    && |ports.inputs| == |decl.inputs|
    && |ports.outputs| == |decl.outputs|
    && (forall s, i: nat | decl.HasPort(s, i) && decl.Ports(s)[i].processing != Agnostic ::
          ports.On(s)[i] == decl.Ports(s)[i].processing)
  }

  /** Personalities settled so far have reached the whole group. */
  ghost predicate Stable(decl: ElementDecl, ports: Ports)
    requires ElementInv(decl, ports)
  {
    forall s, i: nat, t, j: nat | decl.SameGroup(s, i, t, j) ::
      decl.Ports(s)[i].processing.Agnostic? && ports.On(s)[i] != Agnostic ==> ports.On(t)[j] == ports.On(s)[i]
  }

  ghost predicate StateInv(decls: seq<ElementDecl>, state: seq<Ports>) {
    && |state| == |decls|
    && forall e: nat | e < |decls| :: ElementInv(decls[e], state[e])
  }

  ghost predicate AllStable(decls: seq<ElementDecl>, state: seq<Ports>)
    requires StateInv(decls, state)
  {
    forall e: nat | e < |decls| :: Stable(decls[e], state[e])
  }

  /** Every personality settled so far is forced: `a` agrees with it. */
  ghost predicate Below(state: seq<Ports>, a: Assignment) {
    forall e: nat, s, i: nat | e < |state| && i < |state[e].On(s)| && state[e].On(s)[i] != Agnostic ::
      a(e, s, i) == state[e].On(s)[i]
  }

  ghost function AgnosticPorts(state: seq<Ports>): set<(nat, Side, nat)> {
    set e: nat, s, i: nat | e < |state| && s in {Input, Output} && i < |state[e].On(s)|
                            && state[e].On(s)[i].Agnostic? :: (e, s, i)
  }

  /** Some member of the group of port `i` already has another personality than `p`. */
  ghost predicate Clashing(decl: ElementDecl, before: Ports, side: Side, i: nat, p: Processing)
    requires ElementInv(decl, before)
  {
    exists s, j: nat | decl.SameGroup(side, i, s, j) :: Clashes(before.On(s)[j], p)
  }

  /** Port `i` takes personality `p`, and so do some agnostic members of its group; all unless one clashes. */
  ghost predicate Settled(decl: ElementDecl, before: Ports, side: Side, i: nat, p: Processing, now: Ports)
    requires ElementInv(decl, before) && decl.HasPort(side, i)
  {
    && |now.inputs| == |before.inputs| && |now.outputs| == |before.outputs|
    && now.On(side)[i] == p
    && (forall s, j: nat | decl.HasPort(s, j) && !(s == side && j == i) && !decl.SameGroup(side, i, s, j) ::
          now.On(s)[j] == before.On(s)[j])
    && (forall s, j: nat | decl.SameGroup(side, i, s, j) ::
          now.On(s)[j] == before.On(s)[j] || (before.On(s)[j].Agnostic? && now.On(s)[j] == p))
    && (!Clashing(decl, before, side, i, p) ==>
          forall s, j: nat | decl.SameGroup(side, i, s, j) :: now.On(s)[j] == p)
  }

  lemma {:induction false} SettledKeepsInv(decl: ElementDecl, before: Ports, side: Side, i: nat, p: Processing,
                                           now: Ports)
    requires ElementInv(decl, before) && decl.HasPort(side, i) && before.On(side)[i].Agnostic?
    requires Settled(decl, before, side, i, p, now)
    ensures ElementInv(decl, now)
  {
    forall s, j: nat | decl.HasPort(s, j) && decl.Ports(s)[j].processing != Agnostic
      ensures now.On(s)[j] == decl.Ports(s)[j].processing
    {
      assert decl.SameGroup(side, i, s, j) || !decl.SameGroup(side, i, s, j);
    }
  }

  lemma {:induction false} SettledKeepsStable(decl: ElementDecl, before: Ports, side: Side, i: nat, p: Processing,
                                              now: Ports)
    requires ElementInv(decl, before) && decl.HasPort(side, i) && before.On(side)[i].Agnostic?
    requires Settled(decl, before, side, i, p, now) && ElementInv(decl, now)
    requires Stable(decl, before) && !Clashing(decl, before, side, i, p)
    ensures Stable(decl, now)
  {
    forall s, j: nat, t, k: nat | decl.SameGroup(s, j, t, k)
                                  && decl.Ports(s)[j].processing.Agnostic? && now.On(s)[j] != Agnostic
      ensures now.On(t)[k] == now.On(s)[j]
    {
      assert decl.SameGroup(side, i, s, j) <==> decl.SameGroup(side, i, t, k);
    }
  }

  /** If `a` agrees with the state and with the new personality, the group has no clash and `a` still agrees. */
  lemma {:induction false} SettledKeepsBelow(decls: seq<ElementDecl>, hookups: seq<Hookup>, a: Assignment,
                          before: seq<Ports>, e: nat, side: Side, i: nat, p: Processing, now: seq<Ports>)
    requires Consistent(decls, hookups, a) && StateInv(decls, before) && Below(before, a)
    requires e < |decls| && decls[e].HasPort(side, i)
    requires before[e].On(side)[i].Agnostic? && p == a(e, side, i) && p != Agnostic
    requires |now| == |before| && now == before[e := now[e]]
    requires Settled(decls[e], before[e], side, i, p, now[e])
    ensures Below(now, a) && !Clashing(decls[e], before[e], side, i, p)
  {
    var decl := decls[e];
    assert ElementInv(decl, before[e]);
    assert decl.Ports(side)[i].processing.Agnostic?;
    forall s, j: nat | decl.SameGroup(side, i, s, j) ensures a(e, s, j) == p {
    }
    forall s, j: nat | decl.HasPort(s, j) && now[e].On(s)[j] != Agnostic ensures a(e, s, j) == now[e].On(s)[j] {
      assert decl.SameGroup(side, i, s, j) || !decl.SameGroup(side, i, s, j);
    }
  }

  lemma {:induction false} SettledShrinks(decls: seq<ElementDecl>, before: seq<Ports>, e: nat, side: Side, i: nat,
                                          p: Processing,
                       now: seq<Ports>)
    requires StateInv(decls, before)
    requires e < |decls| && decls[e].HasPort(side, i) && before[e].On(side)[i].Agnostic? && p != Agnostic
    requires |now| == |before| && now == before[e := now[e]]
    requires Settled(decls[e], before[e], side, i, p, now[e])
    ensures AgnosticPorts(now) < AgnosticPorts(before)
  {
    assert (e, side, i) in AgnosticPorts(before) && (e, side, i) !in AgnosticPorts(now);
    forall s, j: nat | decls[e].HasPort(s, j) && now[e].On(s)[j].Agnostic? ensures before[e].On(s)[j].Agnostic? {
      assert decls[e].SameGroup(side, i, s, j) || !decls[e].SameGroup(side, i, s, j);
    }
  }

  /** The personalities of a state, as an assignment. */
  ghost function Reading(state: seq<Ports>): Assignment {
    (e: nat, s: Side, i: nat) => if e < |state| && i < |state[e].On(s)| then state[e].On(s)[i] else Agnostic
  }

  /** A stable state in which all hookups agree is itself a consistent assignment. */
  lemma {:induction false} AgreementSuffices(decls: seq<ElementDecl>, hookups: seq<Hookup>, state: seq<Ports>)
    requires forall h | h in hookups :: InRange(decls, h)
    requires StateInv(decls, state) && AllStable(decls, state)
    requires forall h | h in hookups :: Agree(decls, state, h)
    ensures Consistent(decls, hookups, Reading(state))
  {
    var a := Reading(state);
    assert Extends(decls, a);
    forall e: nat | e < |decls| ensures Stable(decls[e], state[e]) {
    }
    assert RespectsGroups(decls, a);
    forall h | h in hookups ensures a(h.from, Output, h.fromPort) == a(h.to, Input, h.toPort) {
      assert InRange(decls, h) && Agree(decls, state, h);
      assert ElementInv(decls[h.from], state[h.from]) && ElementInv(decls[h.to], state[h.to]);
      assert state[h.from].On(Output) == state[h.from].outputs && state[h.to].On(Input) == state[h.to].inputs;
    }
  }

  ghost predicate Agree(decls: seq<ElementDecl>, state: seq<Ports>, h: Hookup)
    requires StateInv(decls, state) && InRange(decls, h)
  {
    state[h.from].outputs[h.fromPort] == state[h.to].inputs[h.toPort]
  }

  /**
   The check went from `before` to `now`, without an error if `clean`: what it settled is forced, and it
   settled something if there was progress.
   */
  ghost predicate Carries(decls: seq<ElementDecl>, hookups: seq<Hookup>, before: seq<Ports>, now: seq<Ports>,
                          clean: bool, progress: bool)
  {
    && StateInv(decls, before) && StateInv(decls, now)
    && (clean && AllStable(decls, before) ==> AllStable(decls, now))
    && (if progress then AgnosticPorts(now) < AgnosticPorts(before) else now == before)
    && forall a: Assignment | Consistent(decls, hookups, a) && Below(before, a) :: clean && Below(now, a)
  }

  lemma {:induction false} CarriesOn(decls: seq<ElementDecl>, hookups: seq<Hookup>, before: seq<Ports>,
                                     mid: seq<Ports>, now: seq<Ports>, clean: bool, progress: bool,
                                     clean': bool, progress': bool)
    requires Carries(decls, hookups, before, mid, clean, progress)
    requires Carries(decls, hookups, mid, now, clean', progress')
    ensures Carries(decls, hookups, before, now, clean && clean', progress || progress') == true
  {
  }

  lemma {:induction false} CarriesNothing(decls: seq<ElementDecl>, hookups: seq<Hookup>, state: seq<Ports>)
    requires StateInv(decls, state)
    ensures Carries(decls, hookups, state, state, true, false) == true
  {
  }

  lemma {:induction false} Carried(decls: seq<ElementDecl>, hookups: seq<Hookup>, before: seq<Ports>,
                                   now: seq<Ports>, clean: bool, progress: bool)
    requires Carries(decls, hookups, before, now, clean, progress)
    ensures StateInv(decls, before) && StateInv(decls, now)
    ensures clean && AllStable(decls, before) ==> AllStable(decls, now)
    ensures progress ==> AgnosticPorts(now) < AgnosticPorts(before)
    ensures forall a: Assignment | Consistent(decls, hookups, a) && Below(before, a) :: clean && Below(now, a)
  {
  }

  lemma {:induction false} AllAgree(decls: seq<ElementDecl>, state: seq<Ports>, hookups: seq<Hookup>)
    requires AgreeUpTo(decls, state, hookups, |hookups|)
    ensures StateInv(decls, state) && forall h | h in hookups :: InRange(decls, h) && Agree(decls, state, h)
  {
  }

  /** Two ends settled differently rule out every assignment. */
  lemma {:induction false} CarriesConflict(decls: seq<ElementDecl>, hookups: seq<Hookup>, state: seq<Ports>, h: Hookup)
    requires StateInv(decls, state) && h in hookups && InRange(decls, h) && !Agree(decls, state, h)
    requires state[h.from].outputs[h.fromPort] != Agnostic && state[h.to].inputs[h.toPort] != Agnostic
    ensures Carries(decls, hookups, state, state, false, false) == true
  {
    assert state[h.from].On(Output)[h.fromPort] == state[h.from].outputs[h.fromPort];
    assert state[h.to].On(Input)[h.toPort] == state[h.to].inputs[h.toPort];
  }

  /** The first `n` hookups agree. */
  ghost predicate AgreeUpTo(decls: seq<ElementDecl>, state: seq<Ports>, hookups: seq<Hookup>, n: nat) {
    && StateInv(decls, state) && n <= |hookups| && (forall h | h in hookups :: InRange(decls, h))
    && forall k | 0 <= k < n :: Agree(decls, state, hookups[k])
  }

  lemma {:induction false} AgreeMore(decls: seq<ElementDecl>, state: seq<Ports>, hookups: seq<Hookup>, n: nat)
    requires AgreeUpTo(decls, state, hookups, n) && n < |hookups| && Agree(decls, state, hookups[n])
    ensures AgreeUpTo(decls, state, hookups, n + 1) == true
  {
  }

  // ---------------------------------------------------------------------------------
  // Port use
  // ---------------------------------------------------------------------------------

  datatype PortRef = PortRef(element: nat, side: Side, port: nat)

  function OutputOf(h: Hookup): PortRef {
    PortRef(h.from, Output, h.fromPort)
  }

  function InputOf(h: Hookup): PortRef {
    PortRef(h.to, Input, h.toPort)
  }

  ghost predicate Uses(h: Hookup, p: PortRef) {
    OutputOf(h) == p || InputOf(h) == p
  }

  /** Some hookup joins port `p` to element `e`. */
  ghost predicate FarEnd(hookups: seq<Hookup>, p: PortRef, e: nat) {
    exists h | h in hookups :: (OutputOf(h) == p && h.to == e) || (InputOf(h) == p && h.from == e)
  }

  ghost predicate Used(hookups: seq<Hookup>, p: PortRef) {
    exists h | h in hookups :: Uses(h, p)
  }

  /** No port occurs in two hookups. */
  ghost predicate PortsUsedOnce(hookups: seq<Hookup>) {
    forall j, k | 0 <= j < k < |hookups| ::
      OutputOf(hookups[j]) != OutputOf(hookups[k]) && InputOf(hookups[j]) != InputOf(hookups[k])
  }

  /** The counterparts after the hookups `done`, and whether a port was met twice. */
  ghost predicate Recorded(done: seq<Hookup>, counterparts: map<PortRef, nat>, duplicates: nat) {
    && (forall p :: p in counterparts <==> Used(done, p))
    && (forall p | p in counterparts :: FarEnd(done, p, counterparts[p]))
    && (duplicates == 0 <==> PortsUsedOnce(done))
  }

  lemma {:induction false} NothingRecorded()
    ensures Recorded([], map[], 0) == true
  {
  }

  lemma {:induction false} FarEndStays(done: seq<Hookup>, h: Hookup, p: PortRef, e: nat)
    requires FarEnd(done, p, e)
    ensures FarEnd(done + [h], p, e)
  {
    var g :| g in done && ((OutputOf(g) == p && g.to == e) || (InputOf(g) == p && g.from == e));
    assert g in done + [h];
  }

  lemma {:induction false} RecordedNext(done: seq<Hookup>, h: Hookup, before: map<PortRef, nat>, found: nat,
                                        now: map<PortRef, nat>, duplicates: nat)
    requires Recorded(done, before, found)
    requires var mid := if OutputOf(h) in before then before else before[OutputOf(h) := h.to];
             now == if InputOf(h) in mid then mid else mid[InputOf(h) := h.from]
    requires duplicates == found + (if OutputOf(h) in before then 1 else 0) + (if InputOf(h) in before then 1 else 0)
    ensures Recorded(done + [h], now, duplicates) == true
  {
    UsedOnceStep(done, h);
    forall p | p in now ensures FarEnd(done + [h], p, now[p]) {
      if p in before {
        FarEndStays(done, h, p, before[p]);
      } else {
        assert h in done + [h];
      }
    }
  }

  /** Every hookup is known at both its ends. */
  ghost predicate JoinedUp(hookups: seq<Hookup>, counterparts: map<PortRef, nat>) {
    forall h | h in hookups ::
      && OutputOf(h) in counterparts && counterparts[OutputOf(h)] == h.to
      && InputOf(h) in counterparts && counterparts[InputOf(h)] == h.from
  }

  lemma {:induction false} EachJoined(hookups: seq<Hookup>, counterparts: map<PortRef, nat>)
    requires PortsUsedOnce(hookups) && forall p :: p in counterparts <==> Used(hookups, p)
    requires forall p | p in counterparts :: FarEnd(hookups, p, counterparts[p])
    ensures JoinedUp(hookups, counterparts) == true
  {
    forall h | h in hookups
      ensures OutputOf(h) in counterparts && counterparts[OutputOf(h)] == h.to
      ensures InputOf(h) in counterparts && counterparts[InputOf(h)] == h.from
    {
      assert Uses(h, OutputOf(h)) && Uses(h, InputOf(h));
      assert forall g | g in hookups && (OutputOf(g) == OutputOf(h) || InputOf(g) == InputOf(h)) :: g == h;
    }
  }

  ghost predicate AllPortsUsed(decls: seq<ElementDecl>, hookups: seq<Hookup>) {
    forall e: nat, s, i: nat | e < |decls| && decls[e].HasPort(s, i) :: Used(hookups, PortRef(e, s, i))
  }

  /** A dataflow that validation should let through. */
  ghost predicate Acceptable(decls: seq<ElementDecl>, hookups: seq<Hookup>) {
    && (forall h | h in hookups :: InRange(decls, h))
    && Compatible(decls, hookups)
    && PortsUsedOnce(hookups)
    && AllPortsUsed(decls, hookups)
  }

  lemma {:induction false} UsedOnceStep(s: seq<Hookup>, h: Hookup)
    ensures forall p :: Used(s + [h], p) <==> Used(s, p) || Uses(h, p)
    ensures PortsUsedOnce(s + [h]) <==>
              PortsUsedOnce(s) && !Used(s, OutputOf(h)) && !Used(s, InputOf(h))
  {
    var t := s + [h];
    assert forall g :: g in t <==> g in s || g == h;
    forall p ensures Used(t, p) <==> Used(s, p) || Uses(h, p) {
      assert h in t;
    }
    if Used(s, OutputOf(h)) || Used(s, InputOf(h)) {
      var j :| 0 <= j < |s| && (OutputOf(s[j]) == OutputOf(h) || InputOf(s[j]) == InputOf(h));
      assert t[j] == s[j] && t[|s|] == h;
    }
    if PortsUsedOnce(t) {
      forall j, k | 0 <= j < k < |s|
        ensures OutputOf(s[j]) != OutputOf(s[k]) && InputOf(s[j]) != InputOf(s[k])
      {
        assert t[j] == s[j] && t[k] == s[k];
      }
    } else if PortsUsedOnce(s) {
      var j, k :| 0 <= j < k < |t| && (OutputOf(t[j]) == OutputOf(t[k]) || InputOf(t[j]) == InputOf(t[k]));
      assert t[j] in s && (Uses(t[j], OutputOf(h)) || Uses(t[j], InputOf(h)));
    }
  }

  class Dataflow {
    const elements: seq<ElementSpec>
    const hookups: seq<Hookup>
    /** The element on the other end of every connected port. */
    var counterparts: map<PortRef, nat>

    ghost predicate Distinct() {
      forall i, j | 0 <= i < j < |elements| :: elements[i] != elements[j]
    }

    ghost function Decls(): seq<ElementDecl> {
      seq(|elements|, e requires 0 <= e < |elements| => elements[e].decl)
    }

    ghost function State(): seq<Ports>
      reads elements
    {
      seq(|elements|, e requires 0 <= e < |elements| reads elements =>
        Ports(elements[e].inputs, elements[e].outputs))
    }

    /** The flow groups are such as unification can walk. */
    ghost predicate Unifiable() {
      && Distinct()
      && (forall e | 0 <= e < |elements| ::
            && elements[e].GroupsFiled()
            && elements[e].decl.SelfIndexed())
    }

    ghost predicate Checkable() {
      Unifiable() && forall h | h in hookups :: InRange(Decls(), h)
    }

    constructor (elements: seq<ElementSpec>, hookups: seq<Hookup>)
      ensures this.elements == elements && this.hookups == hookups
      ensures counterparts == map[]
    {
      this.elements, this.hookups := elements, hookups;
      counterparts := map[];
    }

    /** Gives an agnostic port a personality and unifies its group. */
    method Settle(e: nat, side: Side, i: nat, p: Processing) returns (r: UnificationResult)
      requires Checkable() && StateInv(Decls(), State())
      requires e < |elements| && elements[e].decl.HasPort(side, i)
      requires State()[e].On(side)[i].Agnostic? && p != Agnostic
      modifies elements[e]
      ensures Settled(elements[e].decl, old(State())[e], side, i, p,
                      Ports(elements[e].inputs, elements[e].outputs))
      ensures r.Conflict? <==> Clashing(elements[e].decl, old(State())[e], side, i, p)
    {
      var spec := elements[e];
      ghost var before := Ports(spec.inputs, spec.outputs);
      assert State()[e] == before && ElementInv(spec.decl, before);
      if side.Input? {
        spec.inputs := spec.inputs[i := p];
      } else {
        spec.outputs := spec.outputs[i := p];
      }
      UnificationWalks(spec, side, i);
      r := spec.Unify(side, i);
      UnificationSettles(spec.decl, before, side, i, p, Ports(spec.inputs, spec.outputs), r);
    }

    /** The body of the hookup loop: compares the two ends and settles an agnostic one. */
    method Visit(h: Hookup) returns (error: bool, progress: bool)
      requires Checkable() && StateInv(Decls(), State()) && h in hookups
      modifies elements
      ensures Carries(Decls(), hookups, old(State()), State(), !error, progress) == true
      ensures !progress && !error ==> StateInv(Decls(), State()) && Agree(Decls(), State(), h)
    {
      error, progress := false, false;
      ghost var before := State();
      assert InRange(Decls(), h);
      assert ElementInv(Decls()[h.from], before[h.from]) && ElementInv(Decls()[h.to], before[h.to]);
      var source := elements[h.from].outputs[h.fromPort];
      var target := elements[h.to].inputs[h.toPort];
      assert source == before[h.from].On(Output)[h.fromPort];
      assert target == before[h.to].On(Input)[h.toPort];
      if source != Agnostic && target != Agnostic {
        error := source != target;
        if error {
          CarriesConflict(Decls(), hookups, before, h);
        } else {
          CarriesNothing(Decls(), hookups, before);
        }
      } else if source != Agnostic {
        progress := true;
        error := SettleEnd(h, h.to, Input, h.toPort, source);
      } else if target != Agnostic {
        progress := true;
        error := SettleEnd(h, h.from, Output, h.fromPort, target);
      } else {
        CarriesNothing(Decls(), hookups, before);
      }
    }

    /** Settles the agnostic end of a hookup by the other one. */
    method SettleEnd(h: Hookup, e: nat, side: Side, i: nat, p: Processing) returns (error: bool)
      requires Checkable() && h in hookups && TakesOver(Decls(), h, State(), e, side, i, p)
      modifies elements
      ensures Carries(Decls(), hookups, old(State()), State(), !error, true) == true
    {
      ghost var before := State();
      var r := Settle(e, side, i, p);
      assert State() == before[e := Ports(elements[e].inputs, elements[e].outputs)];
      VisitSettles(Decls(), hookups, h, before, e, side, i, p, State());
      return r.Conflict?;
    }

    /** One pass over all hookups. */
    method Pass() returns (errors: nat, progress: bool)
      requires Checkable() && StateInv(Decls(), State())
      modifies elements
      ensures Carries(Decls(), hookups, old(State()), State(), errors == 0, progress) == true
      ensures !progress && errors == 0 ==> AgreeUpTo(Decls(), State(), hookups, |hookups|) == true
    {
      errors, progress := 0, false;
      CarriesNothing(Decls(), hookups, State());
      for i := 0 to |hookups|
        invariant StateInv(Decls(), State())
        invariant Carries(Decls(), hookups, old(State()), State(), errors == 0, progress) == true
        invariant !progress && errors == 0 ==> AgreeUpTo(Decls(), State(), hookups, i) == true
      {
        ghost var (mid, clean, moving) := (State(), errors == 0, progress);
        var error, moved := Visit(hookups[i]);
        if error {
          errors := errors + 1;
        }
        if moved {
          progress := true;
        }
        PassOn(Decls(), hookups, old(State()), mid, State(), clean, moving, !error, moved, i);
      }
    }

    /**
     `check_push_and_pull`: passes over the hookups until a pass makes no progress.  It returns 0
     exactly when what the declarations force, along hookups and through flow groups, is free of
     contradiction; every personality it settled on is then forced.  A dataflow it accepts can be
     completed, and with uniform groups it accepts every dataflow that can.
     */
    method CheckPushAndPull() returns (result: int)
      requires Checkable() && StateInv(Decls(), State()) && AsDeclared(Decls(), State())
      modifies elements
      ensures result == 0 || result == -1
      ensures result == 0 <==> Compatible(Decls(), hookups)
      ensures result == 0 ==> Satisfiable(Decls(), hookups)
      ensures AllUniform(Decls()) ==> (result == 0 <==> Satisfiable(Decls(), hookups))
      ensures StateInv(Decls(), State())
      ensures forall a: Assignment | Consistent(Decls(), hookups, a) :: Below(State(), a)
      ensures result == 0 ==> forall h | h in hookups :: Agree(Decls(), State(), h)
    {
      result := Propagate();
      if result == 0 {
        CompatibleIsSatisfiable(Decls(), hookups);
      }
      if AllUniform(Decls()) {
        UniformReadings(Decls(), hookups);
      }
    }

    method Propagate() returns (result: int)
      requires Checkable() && StateInv(Decls(), State()) && AsDeclared(Decls(), State())
      modifies elements
      ensures result == 0 || result == -1
      ensures result == 0 <==> Compatible(Decls(), hookups)
      ensures StateInv(Decls(), State())
      ensures forall a: Assignment | Consistent(Decls(), hookups, a) :: Below(State(), a)
      ensures result == 0 ==> forall h | h in hookups :: Agree(Decls(), State(), h)
    {
      var errors := 0;
      DeclaredIsStable(Decls(), State());
      assert forall a: Assignment | Consistent(Decls(), hookups, a) :: Below(State(), a);
      while true
        invariant errors >= 0
        invariant StateInv(Decls(), State())
        invariant errors == 0 ==> AllStable(Decls(), State())
        invariant forall a: Assignment | Consistent(Decls(), hookups, a) :: errors == 0 && Below(State(), a)
        decreases AgnosticPorts(State())
      {
        ghost var before := State();
        var found, progress := Pass();
        Carried(Decls(), hookups, before, State(), found == 0, progress);
        errors := errors + found;
        if !progress {
          if errors == 0 {
            AllAgree(Decls(), State(), hookups);
            AgreementSuffices(Decls(), hookups, State());
            return 0;
          }
          return -1;
        }
      }
    }

    /** `check_hookup_elements` and `check_hookup_range`: hookups join existing ports. */
    method CheckRange() returns (result: int)
      ensures result == 0 || result == -1
      ensures result == 0 <==> forall h | h in hookups :: InRange(Decls(), h)
    {
      var errors: nat := 0;
      for n := 0 to |hookups|
        invariant errors == 0 <==> forall k | 0 <= k < n :: InRange(Decls(), hookups[k])
      {
        var h := hookups[n];
        if h.from >= |elements| || h.fromPort >= |elements[h.from].decl.outputs| {
          errors := errors + 1;
        }
        if h.to >= |elements| || h.toPort >= |elements[h.to].decl.inputs| {
          errors := errors + 1;
        }
      }
      return if errors > 0 then -1 else 0;
    }

    /** `validate`, for a dataflow that has not been validated before. */
    method Validate() returns (result: int)
      requires Unifiable() && StateInv(Decls(), State()) && AsDeclared(Decls(), State())
      requires counterparts == map[]
      modifies elements, `counterparts
      ensures result == 0 || result == -1
      ensures result == 0 <==> Acceptable(Decls(), hookups)
      ensures result == 0 ==> JoinedUp(hookups, counterparts)
    {
      var r := CheckRange();
      if r < 0 {
        return -1;
      }
      r := CheckPushAndPull();
      if r < 0 {
        return -1;
      }
      r := EvalHookups();
      if r < 0 {
        return -1;
      }
      EachJoined(hookups, counterparts);
      r := CheckCompleteness();
      if r < 0 {
        return -1;
      }
      return 0;
    }

    /** Port::counterpart: records the other end of a port, or reports 1 if it has one already. */
    method SetCounterpart(p: PortRef, other: nat) returns (duplicate: nat)
      modifies `counterparts
      ensures duplicate == if p in old(counterparts) then 1 else 0
      ensures counterparts == if p in old(counterparts) then old(counterparts) else old(counterparts)[p := other]
    {
      if p !in counterparts {
        counterparts := counterparts[p := other];
        duplicate := 0;
      } else {
        duplicate := 1;
      }
    }

    /** `eval_hookups`: fails exactly when some port is used by two hookups. */
    method EvalHookups() returns (result: int)
      requires counterparts == map[]
      modifies `counterparts
      ensures result == 0 || result == -1
      ensures result == 0 <==> PortsUsedOnce(hookups)
      ensures forall p :: p in counterparts <==> Used(hookups, p)
      ensures forall p | p in counterparts :: FarEnd(hookups, p, counterparts[p])
    {
      var duplicates: nat := 0;
      ghost var done := [];
      NothingRecorded();
      for n := 0 to |hookups|
        invariant done == hookups[..n] && Recorded(done, counterparts, duplicates) == true  // kept folded
      {
        var h := hookups[n];
        ghost var before := counterparts;
        ghost var found := duplicates;
        var d := SetCounterpart(OutputOf(h), h.to);
        duplicates := duplicates + d;
        d := SetCounterpart(InputOf(h), h.from);
        duplicates := duplicates + d;
        RecordedNext(done, h, before, found, counterparts, duplicates);
        done := done + [h];
      }
      assert done == hookups;
      return if duplicates > 0 then -1 else 0;
    }

    /** `check_hookup_completeness`, for a dataflow without inputs and outputs of its own. */
    method CheckCompleteness() returns (result: int)
      requires forall p :: p in counterparts <==> Used(hookups, p)
      ensures result == 0 || result == -1
      ensures result == 0 <==> AllPortsUsed(Decls(), hookups)
    {
      var total: nat := 0;
      for e := 0 to |elements|
        invariant total == 0 <==> forall k: nat, s, i: nat |
            k < e && Decls()[k].HasPort(s, i) :: Used(hookups, PortRef(k, s, i))
      {
        var ins := CountUnused(e, Input);
        var outs := CountUnused(e, Output);
        total := total + ins + outs;
      }
      return if total > 0 then -1 else 0;
    }

    /** The ports of one side of an element that no hookup uses. */
    method CountUnused(e: nat, side: Side) returns (unused: nat)
      requires e < |elements|
      requires forall p :: p in counterparts <==> Used(hookups, p)
      ensures unused == 0 <==> forall i: nat | elements[e].decl.HasPort(side, i) :: Used(hookups, PortRef(e, side, i))
    {
      unused := 0;
      for i := 0 to |elements[e].decl.Ports(side)|
        invariant unused == 0 <==> forall k: nat | k < i :: Used(hookups, PortRef(e, side, k))
      {
        if PortRef(e, side, i) !in counterparts {
          unused := unused + 1;
        }
      }
    }
  }

  /** An element as its author describes it: processing and flow codes, and port counts. */
  datatype ElementCode = ElementCode(processing: string, flow: string, ninputs: nat, noutputs: nat) {
    predicate WellFormedCode() {
      && WellFormed(processing, ninputs) && WellFormed(flow, ninputs)
      && forall k | 0 <= k < |processing| && processing[k] != '/' :: IsPersonality(processing[k])
    }

    function Decl(): ElementDecl
      requires WellFormedCode()
    {
      DeclOf(processing, flow, ninputs, noutputs)
    }
  }

  ghost function DeclsOf(codes: seq<ElementCode>): (decls: seq<ElementDecl>)
    requires forall e | 0 <= e < |codes| :: codes[e].WellFormedCode()
  {
    seq(|codes|, e requires 0 <= e < |codes| => codes[e].Decl())
  }

  /**
   From codes to verdict: builds the elements of a flat dataflow, hooks them up and validates.
   The verdict is 0 exactly for the acceptable dataflows.
   */
  method ValidateFlat(codes: seq<ElementCode>, hookups: seq<Hookup>) returns (result: int)
    requires forall e | 0 <= e < |codes| ::
               codes[e].WellFormedCode() && codes[e].Decl().SelfIndexed()
    ensures result == 0 || result == -1
    ensures result == 0 <==> Acceptable(DeclsOf(codes), hookups)
    ensures result == 0 ==> Satisfiable(DeclsOf(codes), hookups)
  {
    var elements: seq<ElementSpec> := [];
    for e := 0 to |codes|
      invariant |elements| == e
      invariant forall i, j | 0 <= i < j < e :: elements[i] != elements[j]
      invariant forall i | 0 <= i < e ::
          && fresh(elements[i])
          && elements[i].Valid()
          && elements[i].decl == codes[i].Decl()
          && (forall s, k: nat | elements[i].decl.HasPort(s, k) ::
                elements[i].Current(s)[k] == elements[i].decl.Ports(s)[k].processing)
    {
      var c := codes[e];
      var spec := new ElementSpec(c.processing, c.flow, c.ninputs, c.noutputs);
      elements := elements + [spec];
    }
    var dataflow := new Dataflow(elements, hookups);
    assert dataflow.Decls() == DeclsOf(codes);
    result := dataflow.Validate();
    if Compatible(DeclsOf(codes), hookups) {
      CompatibleIsSatisfiable(DeclsOf(codes), hookups);
    }
  }

  lemma {:induction false} PassOn(decls: seq<ElementDecl>, hookups: seq<Hookup>, before: seq<Ports>,
                                  mid: seq<Ports>, now: seq<Ports>, clean: bool, progress: bool,
                                  clean': bool, progress': bool, n: nat)
    requires Carries(decls, hookups, before, mid, clean, progress) == true
    requires Carries(decls, hookups, mid, now, clean', progress') == true
    requires !progress && clean ==> AgreeUpTo(decls, mid, hookups, n) == true
    requires n < |hookups| && forall h | h in hookups :: InRange(decls, h)
    requires !progress' && clean' ==> StateInv(decls, now) && Agree(decls, now, hookups[n])
    ensures Carries(decls, hookups, before, now, clean && clean', progress || progress') == true
    ensures StateInv(decls, now)
    ensures !progress && !progress' && clean && clean' ==> AgreeUpTo(decls, now, hookups, n + 1) == true
  {
    CarriesOn(decls, hookups, before, mid, now, clean, progress, clean', progress');
    if !progress && !progress' && clean && clean' {
      AgreeMore(decls, now, hookups, n);
    }
  }

  /** Nothing has been settled beyond the declarations. */
  ghost predicate AsDeclared(decls: seq<ElementDecl>, state: seq<Ports>)
    requires StateInv(decls, state)
  {
    forall e: nat, s, i: nat | e < |decls| && decls[e].HasPort(s, i) ::
      state[e].On(s)[i] == decls[e].Ports(s)[i].processing
  }

  lemma {:induction false} DeclaredIsStable(decls: seq<ElementDecl>, state: seq<Ports>)
    requires StateInv(decls, state) && AsDeclared(decls, state)
    ensures AllStable(decls, state)
  {
  }

  /** End `i` of element `e` takes the personality that the other end of the hookup has. */
  ghost predicate TakesOver(decls: seq<ElementDecl>, h: Hookup, before: seq<Ports>, e: nat, side: Side, i: nat,
                            p: Processing)
  {
    && StateInv(decls, before) && InRange(decls, h) && e < |decls| && decls[e].HasPort(side, i)
    && before[e].On(side)[i].Agnostic? && p != Agnostic
    && (|| (e == h.to && side == Input && i == h.toPort && p == before[h.from].On(Output)[h.fromPort])
        || (e == h.from && side == Output && i == h.fromPort && p == before[h.to].On(Input)[h.toPort]))
  }

  lemma {:induction false} VisitSettles(decls: seq<ElementDecl>, hookups: seq<Hookup>, h: Hookup, before: seq<Ports>,
                                        e: nat, side: Side, i: nat, p: Processing, now: seq<Ports>)
    requires h in hookups && TakesOver(decls, h, before, e, side, i, p)
    requires |now| == |before| && now == before[e := now[e]]
    requires Settled(decls[e], before[e], side, i, p, now[e])
    ensures Carries(decls, hookups, before, now, !Clashing(decls[e], before[e], side, i, p), true) == true
  {
    SettledKeepsInv(decls[e], before[e], side, i, p, now[e]);
    OneMoved(decls, before, now, e);
    if AllStable(decls, before) && !Clashing(decls[e], before[e], side, i, p) {
      SettledKeepsStable(decls[e], before[e], side, i, p, now[e]);
    }
    SettledShrinks(decls, before, e, side, i, p, now);
    SettledIsForced(decls, hookups, h, before, e, side, i, p, now);
  }

  /** Where just element `e` changed, the rest keeps what it had. */
  lemma {:induction false} OneMoved(decls: seq<ElementDecl>, before: seq<Ports>, now: seq<Ports>, e: nat)
    requires StateInv(decls, before) && |now| == |before| && e < |decls| && now == before[e := now[e]]
    requires ElementInv(decls[e], now[e])
    ensures StateInv(decls, now)
    ensures AllStable(decls, before) && Stable(decls[e], now[e]) ==> AllStable(decls, now)
  {
  }

  lemma {:induction false} SettledIsForced(decls: seq<ElementDecl>, hookups: seq<Hookup>, h: Hookup,
                                           before: seq<Ports>, e: nat, side: Side, i: nat, p: Processing,
                                           now: seq<Ports>)
    requires h in hookups && TakesOver(decls, h, before, e, side, i, p)
    requires |now| == |before| && now == before[e := now[e]]
    requires Settled(decls[e], before[e], side, i, p, now[e])
    ensures forall a: Assignment | Consistent(decls, hookups, a) && Below(before, a) ::
              Below(now, a) && !Clashing(decls[e], before[e], side, i, p)
  {
    forall a: Assignment | Consistent(decls, hookups, a) && Below(before, a)
      ensures Below(now, a) && !Clashing(decls[e], before[e], side, i, p)
    {
      TakenIsForced(decls, hookups, h, before, e, side, i, p, a);
      SettledKeepsBelow(decls, hookups, a, before, e, side, i, p, now);
    }
  }

  lemma {:induction false} TakenIsForced(decls: seq<ElementDecl>, hookups: seq<Hookup>, h: Hookup, before: seq<Ports>,
                                         e: nat, side: Side, i: nat, p: Processing, a: Assignment)
    requires h in hookups && TakesOver(decls, h, before, e, side, i, p)
    requires Consistent(decls, hookups, a) && Below(before, a)
    ensures a(e, side, i) == p
  {
    assert a(h.from, Output, h.fromPort) == a(h.to, Input, h.toPort);
  }

  lemma {:induction false} UnificationWalks(spec: ElementSpec, side: Side, i: nat)
    requires spec.decl.HasPort(side, i) && spec.decl.SelfIndexed()
    requires spec.GroupsFiled()
    ensures spec.Walkable(side, i)
  {
    var g := spec.decl.Ports(side)[i].group;
    if g.Some? {
      var (ins, outs) := (spec.decl.inputs, spec.decl.outputs);
      MembersExact(ins, g.value, |ins|);
      MembersExact(outs, g.value, |outs|);
      FiledGroup(spec.groups, ins, outs, g.value);
      assert i in Members(spec.decl.Ports(side), g.value, |spec.decl.Ports(side)|);
    }
  }

  lemma {:induction false} FiledGroup(groups: map<char, UniGroup>, ins: seq<PortDecl>, outs: seq<PortDecl>, c: char)
    requires ElementSpec.Filed(groups, ins, outs, |ins|, |outs|)
    requires Members(ins, c, |ins|) != [] || Members(outs, c, |outs|) != []
    ensures c in groups && groups[c] == UniGroup(Members(ins, c, |ins|), Members(outs, c, |outs|))
  {
  }

  // Unification of one side, seen from the group letter rather than from the member list.

  ghost predicate SideClash(ports: seq<PortDecl>, c: char, before: seq<Processing>, p: Processing)
    requires |ports| == |before|
  {
    exists j: nat | j < |ports| :: ports[j].group == Some(c) && Clashes(before[j], p)
  }

  ghost predicate SideMoved(ports: seq<PortDecl>, c: char, before: seq<Processing>, now: seq<Processing>, p: Processing)
    requires |ports| == |before|
  {
    && |now| == |before|
    && forall j: nat | j < |ports| ::
         now[j] == before[j] || (ports[j].group == Some(c) && before[j].Agnostic? && now[j] == p)
  }

  ghost predicate SideDone(ports: seq<PortDecl>, c: char, now: seq<Processing>, p: Processing)
    requires |ports| == |now|
  {
    forall j: nat | j < |ports| && ports[j].group == Some(c) :: now[j] == p
  }

  lemma {:induction false} SideClashes(ports: seq<PortDecl>, c: char, before: seq<Processing>, skip: nat, p: Processing)
    requires |ports| == |before|
    requires var m := Members(ports, c, |ports|);
             && (forall k | 0 <= k < |m| :: m[k] < |ports|)
             && (skip < |m| ==> before[m[skip]] == p)
    ensures var m := Members(ports, c, |ports|);
            (exists k :: 0 <= k < |m| && k != skip && Clashes(before[m[k]], p)) <==> SideClash(ports, c, before, p)
  {
    var m := Members(ports, c, |ports|);
    MembersExact(ports, c, |ports|);
    if j: nat :| j < |ports| && ports[j].group == Some(c) && Clashes(before[j], p) {
      assert j in m;
      var k :| 0 <= k < |m| && m[k] == j;
    }
  }

  lemma {:induction false} SideSpread(ports: seq<PortDecl>, c: char, before: seq<Processing>, now: seq<Processing>,
                                      p: Processing)
    requires |ports| == |before| && Spread(before, now, Members(ports, c, |ports|), p)
    ensures SideMoved(ports, c, before, now, p)
  {
    forall j: nat | j < |ports| && now[j] != before[j] ensures ports[j].group == Some(c) {
      MemberIsOf(ports, c, |ports|, j);
    }
  }

  lemma {:induction false} MemberIsOf(ports: seq<PortDecl>, c: char, n: nat, j: nat)
    requires n <= |ports| && j in Members(ports, c, n)
    ensures j < n && ports[j].group == Some(c)
  {
    if n > 0 && ports[n - 1].group == Some(c) {
      assert j == n - 1 || j in Members(ports, c, n - 1);
      if j in Members(ports, c, n - 1) {
        MemberIsOf(ports, c, n - 1, j);
      }
    } else if n > 0 {
      MemberIsOf(ports, c, n - 1, j);
    }
  }

  lemma {:induction false} SideReached(ports: seq<PortDecl>, c: char, before: seq<Processing>, now: seq<Processing>,
                                       skip: nat, p: Processing)
    requires |ports| == |before| && p != Agnostic
    requires var m := Members(ports, c, |ports|);
             && Spread(before, now, m, p)
             && (forall k | 0 <= k < |m| :: m[k] < |ports|)
             && (skip < |m| ==> before[m[skip]] == p)
             && (forall k | 0 <= k < |m| && k != skip :: now[m[k]] == p)
    ensures SideDone(ports, c, now, p)
  {
    var m := Members(ports, c, |ports|);
    MembersExact(ports, c, |ports|);
    forall j: nat | j < |ports| && ports[j].group == Some(c) ensures now[j] == p {
      assert j in m;
      var k :| 0 <= k < |m| && m[k] == j;
    }
  }

  ghost predicate GroupEffect(decl: ElementDecl, c: char, own: seq<Processing>, before: Ports, side: Side, i: nat,
                              p: Processing, now: Ports, r: UnificationResult)
  {
    var m := Members(decl.Ports(side), c, |decl.Ports(side)|);
    var o := Members(decl.Ports(Other(side)), c, |decl.Ports(Other(side))|);
    && (forall k | 0 <= k < |m| :: m[k] < |own|)
    && (forall k | 0 <= k < |o| :: o[k] < |before.On(Other(side))|)
    && ElementSpec.GroupUnified(own, now.On(side), m, i,
                                before.On(Other(side)), now.On(Other(side)), o, p, r)
  }

  ghost predicate BySides(own: seq<PortDecl>, far: seq<PortDecl>, c: char, mine: seq<Processing>,
                          mine': seq<Processing>,
                          theirs: seq<Processing>, theirs': seq<Processing>, p: Processing, r: UnificationResult)
    requires |own| == |mine| && |far| == |theirs|
  {
    && SideMoved(own, c, mine, mine', p) && SideMoved(far, c, theirs, theirs', p)
    && (r.Conflict? <==> SideClash(own, c, mine, p) || SideClash(far, c, theirs, p))
    && (!r.Conflict? ==> SideDone(own, c, mine', p) && SideDone(far, c, theirs', p))
  }

  lemma {:induction false} GroupBySides(own: seq<PortDecl>, far: seq<PortDecl>, c: char, i: nat,
                                        mine: seq<Processing>, mine': seq<Processing>,
                                        theirs: seq<Processing>, theirs': seq<Processing>, p: Processing,
                                        r: UnificationResult)
    requires |own| == |mine| && |far| == |theirs| && p != Agnostic
    requires var (m, o) := (Members(own, c, |own|), Members(far, c, |far|));
             && (forall k | 0 <= k < |m| :: m[k] < |own|)
             && (forall k | 0 <= k < |o| :: o[k] < |far|)
             && (i < |m| ==> mine[m[i]] == p)
             && ElementSpec.GroupUnified(mine, mine', m, i, theirs, theirs', o, p, r)
    ensures BySides(own, far, c, mine, mine', theirs, theirs', p, r)
  {
    var o := Members(far, c, |far|);
    SideClashes(own, c, mine, i, p);
    SideClashes(far, c, theirs, |o|, p);
    SideSpread(own, c, mine, mine', p);
    SideSpread(far, c, theirs, theirs', p);
    if !r.Conflict? {
      SideReached(own, c, mine, mine', i, p);
      SideReached(far, c, theirs, theirs', |o|, p);
    }
  }

  /** Setting one port and unifying its group has exactly the effect of `Settled`. */
  lemma {:induction false} UnificationSettles(decl: ElementDecl, before: Ports, side: Side, i: nat, p: Processing,
                                              now: Ports,
                           r: UnificationResult)
    requires decl.SelfIndexed() && ElementInv(decl, before)
    requires decl.HasPort(side, i) && before.On(side)[i].Agnostic? && p != Agnostic
    requires decl.Ports(side)[i].group.None? ==>
               && r.Unchanged?
               && now.On(side) == before.On(side)[i := p] && now.On(Other(side)) == before.On(Other(side))
    requires decl.Ports(side)[i].group.Some? ==>
               GroupEffect(decl, decl.Ports(side)[i].group.value, before.On(side)[i := p], before, side, i, p, now, r)
    ensures Settled(decl, before, side, i, p, now)
    ensures r.Conflict? <==> Clashing(decl, before, side, i, p)
  {
    var g := decl.Ports(side)[i].group;
    if g.Some? {
      var m := Members(decl.Ports(side), g.value, |decl.Ports(side)|);
      assert i < |m| ==> m[i] == i;
      var (mine, theirs) := (before.On(side)[i := p], before.On(Other(side)));
      GroupBySides(decl.Ports(side), decl.Ports(Other(side)), g.value, i,
                   mine, now.On(side), theirs, now.On(Other(side)), p, r);
      SidesClash(decl, g.value, before, side, i, p);
      SidesSettle(decl, g.value, before, side, i, p, now, r);
    }
  }

  lemma {:induction false} ClashOnSide(decl: ElementDecl, c: char, before: Ports, side: Side, i: nat, p: Processing)
    requires ElementInv(decl, before) && Clashing(decl, before, side, i, p)
    requires decl.HasPort(side, i) && decl.Ports(side)[i].group == Some(c) && before.On(side)[i].Agnostic?
    ensures || SideClash(decl.Ports(side), c, before.On(side)[i := p], p)
            || SideClash(decl.Ports(Other(side)), c, before.On(Other(side)), p)
  {
    var s, j: nat :| decl.SameGroup(side, i, s, j) && Clashes(before.On(s)[j], p);
    assert decl.Ports(s)[j].group == Some(c);
    if s == side {
      assert before.On(side)[i := p][j] == before.On(side)[j];
    } else {
      assert s == Other(side);
    }
  }

  lemma {:induction false} SidesClash(decl: ElementDecl, c: char, before: Ports, side: Side, i: nat, p: Processing)
    requires ElementInv(decl, before)
    requires decl.HasPort(side, i) && decl.Ports(side)[i].group == Some(c) && before.On(side)[i].Agnostic?
    ensures Clashing(decl, before, side, i, p) <==>
              || SideClash(decl.Ports(side), c, before.On(side)[i := p], p)
              || SideClash(decl.Ports(Other(side)), c, before.On(Other(side)), p)
  {
    var (own, far) := (decl.Ports(side), decl.Ports(Other(side)));
    var mine := before.On(side)[i := p];
    if Clashing(decl, before, side, i, p) {
      ClashOnSide(decl, c, before, side, i, p);
    }
    if j: nat :| j < |own| && own[j].group == Some(c) && Clashes(mine[j], p) {
      assert decl.SameGroup(side, i, side, j) && Clashes(before.On(side)[j], p);
    }
    if j: nat :| j < |far| && far[j].group == Some(c) && Clashes(before.On(Other(side))[j], p) {
      assert decl.SameGroup(side, i, Other(side), j);
    }
  }

  lemma {:induction false} SidesSettle(decl: ElementDecl, c: char, before: Ports, side: Side, i: nat,
                                       p: Processing, now: Ports, r: UnificationResult)
    requires ElementInv(decl, before) && p != Agnostic
    requires decl.HasPort(side, i) && decl.Ports(side)[i].group == Some(c) && before.On(side)[i].Agnostic?
    requires BySides(decl.Ports(side), decl.Ports(Other(side)), c, before.On(side)[i := p], now.On(side),
                     before.On(Other(side)), now.On(Other(side)), p, r)
    requires r.Conflict? <==> Clashing(decl, before, side, i, p)
    ensures Settled(decl, before, side, i, p, now)
  {
    forall s, j: nat | decl.HasPort(s, j) ensures s == side || s == Other(side) {
    }
  }
}
