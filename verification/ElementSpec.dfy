/**
 The static description of a dataflow element (p2core/elementSpec.C): its ports, their
 push/pull personalities and the unification groups spelled out by its flow code.
 */
module ElementSpecs {
  import opened Options

  datatype Processing = Agnostic | Push | Pull

  datatype UnificationResult = Progress | Unchanged | Conflict

  datatype Side = Input | Output

  /** A port as declared: its personality, and the flow-code letter of its group (if any). */
  datatype PortDecl = PortDecl(processing: Processing, group: Option<char>)

  datatype ElementDecl = ElementDecl(inputs: seq<PortDecl>, outputs: seq<PortDecl>) {
    function Ports(side: Side): seq<PortDecl> {
      if side.Input? then inputs else outputs
    }

    ghost predicate HasPort(side: Side, i: nat) {
      i < |Ports(side)|
    }

    ghost predicate SameGroup(s: Side, i: nat, t: Side, j: nat) {
      && HasPort(s, i)
      && HasPort(t, j)
      && Ports(s)[i].group.Some?
      && Ports(s)[i].group == Ports(t)[j].group
    }

    /** A group none of whose members was given a personality. */
    ghost predicate AgnosticGroup(c: char) {
      forall s, i: nat | HasPort(s, i) && Ports(s)[i].group == Some(c) ::
        Ports(s)[i].processing.Agnostic?
    }

    /** Every group is declared either wholly agnostic or wholly fixed. */
    ghost predicate UniformGroups() {
      forall s, i: nat, t, j: nat | SameGroup(s, i, t, j) ::
        Ports(s)[i].processing.Agnostic? <==> Ports(t)[j].processing.Agnostic?
    }

    /**
     The unification loops skip the group member stored at position `portNumber`, taking it
     to be the port itself.  That is so exactly when the groups are self-indexed.
     */
    ghost predicate SelfIndexed() {
      forall s, i: nat | HasPort(s, i) && Ports(s)[i].group.Some? ::
        var m := Members(Ports(s), Ports(s)[i].group.value, |Ports(s)|);
        && i <= |m|
        && (i < |m| ==> m[i] == i)
    }
  }

  datatype UniGroup = UniGroup(inputs: seq<nat>, outputs: seq<nat>) {
    function On(side: Side): seq<nat> {
      if side.Input? then inputs else outputs
    }
  }

  function Other(side: Side): Side {
    if side.Input? then Output else Input
  }

  /** The ports below `n` that carry flow letter `c`, in increasing order. */
  function Members(ports: seq<PortDecl>, c: char, n: nat): seq<nat>
    requires n <= |ports|
  {
    if n == 0 then []
    else if ports[n - 1].group == Some(c) then Members(ports, c, n - 1) + [n - 1]
    else Members(ports, c, n - 1)
  }

  lemma {:induction false} MembersExact(ports: seq<PortDecl>, c: char, n: nat)
    requires n <= |ports|
    ensures var m := Members(ports, c, n);
            && (forall k | 0 <= k < |m| :: m[k] < n && ports[m[k]].group == Some(c))
            && (forall i: nat | i < n && ports[i].group == Some(c) :: i in m)
            && (forall j, k | 0 <= j < k < |m| :: m[j] < m[k])
  {
    if n > 0 {
      MembersExact(ports, c, n - 1);
    }
  }

  // ---------------------------------------------------------------------------------
  // Reading processing and flow-code strings such as "h/l" and "x-/x"
  // ---------------------------------------------------------------------------------

  function SlashAt(s: string): (k: nat)
    ensures k <= |s| && '/' !in s[..k]
    ensures k < |s| ==> s[k] == '/'
  {
    if s == "" || s[0] == '/' then 0 else 1 + SlashAt(s[1..])
  }

  /** The part of a specification that describes one side. */
  function Part(s: string, side: Side): string
    requires SlashAt(s) < |s|
  {
    if side.Input? then s[..SlashAt(s)] else s[SlashAt(s) + 1..]
  }

  /** The code of port `i`: the last character repeats, and an empty part means `default`. */
  function CodeAt(part: string, i: nat, default: char): char {
    if part == "" then default
    else if i < |part| then part[i]
    else part[|part| - 1]
  }

  function Least(x: nat, y: nat): nat {
    if x < y then x else y
  }

  /** The code read last, before port `i`. */
  function LastCode(part: string, i: nat, default: char): char {
    if i == 0 then default else CodeAt(part, i - 1, default)
  }

  lemma {:induction false} LastCodeStep(part: string, i: nat, default: char)
    ensures LastCode(part, i + 1, default) == if i < |part| then part[i] else LastCode(part, i, default)
  {
  }

  predicate IsPersonality(c: char) {
    c == 'a' || c == 'h' || c == 'l'
  }

  function Personality(c: char): Processing {
    if c == 'h' then Push else if c == 'l' then Pull else Agnostic
  }

  function GroupOf(c: char): Option<char> {
    if c == '-' then None else Some(c)
  }

  /** What the assertions in `initializePorts` demand of a specification string. */
  predicate WellFormed(s: string, ninputs: nat) {
    SlashAt(s) < |s| && SlashAt(s) <= ninputs
  }

  function DeclOfSide(processing: string, flow: string, side: Side, n: nat): (ports: seq<PortDecl>)
    requires SlashAt(processing) < |processing| && SlashAt(flow) < |flow|
    ensures |ports| == n
  {
    seq(n, i requires 0 <= i < n => PortAt(Part(processing, side), Part(flow, side), i))
  }

  /** The port described at place `i` of the parts of a side. */
  function PortAt(processing: string, flow: string, i: nat): PortDecl {
    PortDecl(Personality(CodeAt(processing, i, 'a')), GroupOf(CodeAt(flow, i, '-')))
  }

  function DeclOf(processing: string, flow: string, ninputs: nat, noutputs: nat): ElementDecl
    requires SlashAt(processing) < |processing| && SlashAt(flow) < |flow|
  {
    ElementDecl(DeclOfSide(processing, flow, Input, ninputs),
                DeclOfSide(processing, flow, Output, noutputs))
  }

  class ElementSpec {
    const decl: ElementDecl
    const groups: map<char, UniGroup>
    var inputs: seq<Processing>
    var outputs: seq<Processing>

    ghost function Current(side: Side): seq<Processing>
      reads this
    {
      if side.Input? then inputs else outputs
    }

    ghost predicate Valid()
      reads this
    {
      && |inputs| == |decl.inputs|
      && |outputs| == |decl.outputs|
      && GroupsFiled()
    }

    ghost predicate GroupsFiled() {
      Filed(groups, decl.inputs, decl.outputs, |decl.inputs|, |decl.outputs|)
    }


    /** Builds the ports of an element from its processing and flow-code strings. */
    constructor (processing: string, flow: string, ninputs: nat, noutputs: nat)
      requires WellFormed(processing, ninputs) && WellFormed(flow, ninputs)
      requires forall k | 0 <= k < |processing| && processing[k] != '/' :: IsPersonality(processing[k])
      ensures Valid()
      ensures decl == DeclOf(processing, flow, ninputs, noutputs)
      ensures forall s, i: nat | decl.HasPort(s, i) ::
                Current(s)[i] == decl.Ports(s)[i].processing
    {
      var ins := ReadSide(processing, flow, 0, 0, Input, ninputs);
      var outs := ReadSide(processing, flow, SlashAt(processing) + 1, SlashAt(flow) + 1,
                           Output, noutputs);
      var g := FileGroups(ins, outs);
      decl := ElementDecl(ins, outs);
      groups := g;
      inputs := seq(ninputs, i requires 0 <= i < ninputs => ins[i].processing);
      outputs := seq(noutputs, i requires 0 <= i < noutputs => outs[i].processing);
    }

    /**
     The port-building part of `initializePorts`, for one side: walks a personality pointer and
     a flow pointer, leaving each in place once its part is used up.
     */
    static method ReadSide(processing: string, flow: string, p0: nat, f0: nat, side: Side, n: nat)
      returns (ports: seq<PortDecl>)
      requires SlashAt(processing) < |processing| && SlashAt(flow) < |flow|
      requires p0 == if side.Input? then 0 else SlashAt(processing) + 1
      requires f0 == if side.Input? then 0 else SlashAt(flow) + 1
      ensures ports == DeclOfSide(processing, flow, side, n)
    {
      ports := [];
      var pEnd := if side.Input? then SlashAt(processing) else |processing|;
      var fEnd := if side.Input? then SlashAt(flow) else |flow|;
      var p, f := p0, f0;
      var pCurrent, fCurrent := 'a', '-';
      ghost var (pPart, fPart) := (Part(processing, side), Part(flow, side));
      assert pPart == processing[p0..pEnd] && fPart == flow[f0..fEnd];
      for i := 0 to n
        invariant CursorAt(processing, pPart, p0, pEnd, p, pCurrent, i, 'a') == true  // kept folded
        invariant CursorAt(flow, fPart, f0, fEnd, f, fCurrent, i, '-') == true
        invariant |ports| == i && forall k | 0 <= k < i :: ports[k] == PortAt(pPart, fPart, k)
      {
        p, pCurrent := ReadCode(processing, pPart, p0, pEnd, p, pCurrent, i, 'a');
        f, fCurrent := ReadCode(flow, fPart, f0, fEnd, f, fCurrent, i, '-');
        ports := ports + [PortDecl(Personality(pCurrent), GroupOf(fCurrent))];
      }
    }

    /** The pointer into the part has passed the codes of the first `i` ports, `current` being the last. */
    static ghost predicate CursorAt(s: string, part: string, from: nat, to: nat, at: nat, current: char, i: nat,
                                    default: char)
    {
      && from <= to <= |s| && part == s[from..to] && at == from + Least(i, |part|)
      && current == LastCode(part, i, default)
    }

    /** One pointer, at one port: takes the next code unless the part is used up. */
    static method ReadCode(s: string, ghost part: string, ghost from: nat, to: nat, at: nat, current: char,
                           ghost i: nat, ghost default: char)
      returns (at': nat, current': char)
      requires CursorAt(s, part, from, to, at, current, i, default)
      ensures CursorAt(s, part, from, to, at', current', i + 1, default) == true
      ensures current' == CodeAt(part, i, default)
    {
      at', current' := at, current;
      LastCodeStep(part, i, default);
      if at < to {
        current' := s[at];
        at' := at + 1;
      }
    }

    /** The group-filing part of `initializePorts`: each port joins the group of its letter. */
    static method FileGroups(ins: seq<PortDecl>, outs: seq<PortDecl>) returns (g: map<char, UniGroup>)
      ensures Filed(g, ins, outs, |ins|, |outs|)
    {
      g := map[];
      for i := 0 to |ins|
        invariant Filed(g, ins, outs, i, 0)
      {
        if ins[i].group.Some? {
          var c := ins[i].group.value;
          var u := if c in g then g[c] else UniGroup([], []);
          g := g[c := u.(inputs := u.inputs + [i])];
        }
      }
      for i := 0 to |outs|
        invariant Filed(g, ins, outs, |ins|, i)
      {
        if outs[i].group.Some? {
          var c := outs[i].group.value;
          var u := if c in g then g[c] else UniGroup([], []);
          g := g[c := u.(outputs := u.outputs + [i])];
        }
      }
    }

    /** Every letter's group holds exactly the ports read so far that carry it. */
    static ghost predicate Filed(g: map<char, UniGroup>, ins: seq<PortDecl>, outs: seq<PortDecl>,
                                 i: nat, o: nat)
      requires i <= |ins| && o <= |outs|
    {
      forall c: char ::
        (if c in g then g[c] else UniGroup([], [])) == UniGroup(Members(ins, c, i), Members(outs, c, o))
    }

    /** Port::unify, on the port at position `i`. */
    static method UnifyPort(ports: seq<Processing>, i: nat, p: Processing)
      returns (now: seq<Processing>, r: UnificationResult)
      requires i < |ports| && !p.Agnostic?
      ensures r.Conflict? <==> Clashes(ports[i], p)
      ensures r.Progress? <==> ports[i].Agnostic?
      ensures now == if r.Progress? then ports[i := p] else ports
    {
      now := ports;
      if ports[i] == Agnostic {
        now := ports[i := p];
        r := Progress;
      } else if ports[i] == p {
        r := Unchanged;
      } else {
        r := Conflict;
      }
    }

    /** One loop of `unifyInput`/`unifyOutput`: the group members at positions `lo` to `hi`. */
    static method UnifySpan(ports: seq<Processing>, members: seq<nat>, lo: nat, hi: nat, p: Processing)
      returns (now: seq<Processing>, r: UnificationResult)
      requires !p.Agnostic? && lo <= hi <= |members|
      requires forall k | 0 <= k < |members| :: members[k] < |ports|
      ensures Spread(ports, now, members, p)
      ensures r.Conflict? <==> exists k | lo <= k < hi :: Clashes(ports[members[k]], p)
      ensures !r.Conflict? ==> forall k | lo <= k < hi :: now[members[k]] == p
      ensures r.Progress? ==> now != ports
      ensures r.Unchanged? ==> now == ports
    {
      now, r := ports, Unchanged;
      var k := lo;
      while k < hi
        invariant lo <= k <= hi && !r.Conflict?
        invariant Spread(ports, now, members, p)
        invariant forall j | lo <= j < k :: now[members[j]] == p
        invariant forall j | lo <= j < k :: !Clashes(ports[members[j]], p)
        invariant r.Progress? ==> now != ports
        invariant r.Unchanged? ==> now == ports
      {
        var one;
        now, one := UnifyPort(now, members[k], p);
        if one.Conflict? {
          return now, Conflict;
        } else if one.Progress? {
          r := Progress;
        }
        k := k + 1;
      }
    }

    /** Can the group of this port be walked without running off the member list? */
    ghost predicate Walkable(side: Side, portNumber: nat)
      requires decl.HasPort(side, portNumber)
    {
      var g := decl.Ports(side)[portNumber].group;
      g.Some? ==>
        && g.value in groups
        && portNumber <= |groups[g.value].On(side)|
        && (forall s, k | 0 <= k < |groups[g.value].On(s)| :: groups[g.value].On(s)[k] < |decl.Ports(s)|)
    }

    /**
     What unifying personality `p` over a group does to the ports of the own and of the far side.
     The own member at position `skip` is passed over.
     */
    static ghost predicate GroupUnified(own: seq<Processing>, own': seq<Processing>, m: seq<nat>, skip: nat,
                                        far: seq<Processing>, far': seq<Processing>, o: seq<nat>,
                                        p: Processing, r: UnificationResult)
      requires forall k | 0 <= k < |m| :: m[k] < |own|
      requires forall k | 0 <= k < |o| :: o[k] < |far|
    {
      && Spread(own, own', m, p)
      && Spread(far, far', o, p)
      && (r.Conflict? <==>
            || (exists k :: 0 <= k < |m| && k != skip && Clashes(own[m[k]], p))
            || (exists k :: 0 <= k < |o| && Clashes(far[o[k]], p)))
      && (!r.Conflict? ==>
            && (forall k | 0 <= k < |m| && k != skip :: own'[m[k]] == p)
            && (forall k | 0 <= k < |o| :: far'[o[k]] == p))
      && (r.Unchanged? ==> own' == own && far' == far)
    }

    /** The three loops over one group, own side first; the first conflict ends the walk. */
    static method UnifyGroup(own: seq<Processing>, m: seq<nat>, portNumber: nat,
                             far: seq<Processing>, o: seq<nat>, p: Processing)
      returns (own': seq<Processing>, far': seq<Processing>, r: UnificationResult)
      requires !p.Agnostic? && portNumber <= |m|
      requires forall k | 0 <= k < |m| :: m[k] < |own|
      requires forall k | 0 <= k < |o| :: o[k] < |far|
      ensures GroupUnified(own, own', m, portNumber, far, far', o, p, r)
    {
      far' := far;
      var first;
      own', first := UnifySpan(own, m, 0, portNumber, p);
      if first.Conflict? {
        return own', far', Conflict;
      }
      ghost var half := own';
      var from := if portNumber < |m| then portNumber + 1 else |m|;
      var second;
      own', second := UnifySpan(own', m, from, |m|, p);
      assert forall k | 0 <= k < |m| :: Clashes(own[m[k]], p) <==> Clashes(half[m[k]], p);
      if second.Conflict? {
        return own', far', Conflict;
      }
      var third;
      far', third := UnifySpan(far, o, 0, |o|, p);
      if third.Conflict? {
        return own', far', Conflict;
      }
      r := if first.Progress? || second.Progress? || third.Progress? then Progress else Unchanged;
    }

    /**
     `unifyInput` (side Input) and `unifyOutput` (side Output), which mirror each other: spreads
     the personality of a port over its group.
     */
    method Unify(side: Side, portNumber: nat) returns (r: UnificationResult)
      requires |inputs| == |decl.inputs| && |outputs| == |decl.outputs|
      requires decl.HasPort(side, portNumber) && Walkable(side, portNumber)
      modifies `inputs, `outputs
      ensures old(Current(side))[portNumber].Agnostic? || decl.Ports(side)[portNumber].group.None? ==>
                r.Unchanged? && inputs == old(inputs) && outputs == old(outputs)
      ensures decl.Ports(side)[portNumber].group.Some? && !old(Current(side))[portNumber].Agnostic? ==>
                var g := groups[decl.Ports(side)[portNumber].group.value];
                GroupUnified(old(Current(side)), Current(side), g.On(side), portNumber,
                             old(Current(Other(side))), Current(Other(side)), g.On(Other(side)),
                             old(Current(side))[portNumber], r)
    {
      r := Unchanged;
      var own := if side.Input? then inputs else outputs;
      var far := if side.Input? then outputs else inputs;
      var group := decl.Ports(side)[portNumber].group;
      if own[portNumber] == Agnostic || group.None? {
        return;
      }
      var g := groups[group.value];
      own, far, r := UnifyGroup(own, g.On(side), portNumber, far, g.On(Other(side)), own[portNumber]);
      if side.Input? {
        inputs, outputs := own, far;
      } else {
        inputs, outputs := far, own;
      }
    }
  }

  /** The members that the own-side loops of port `i` read, or None if they read past the end of the list. */
  function OwnVisits(m: seq<nat>, i: nat): Option<seq<nat>> {
    if i > |m| then None else Some(m[..i] + if i < |m| then m[i + 1..] else [])
  }

  /** The two loops, as far as the members they read are concerned. */
  method WalkOwn(m: seq<nat>, i: nat) returns (visits: Option<seq<nat>>)
    ensures visits == OwnVisits(m, i)
  {
    var read: seq<nat> := [];
    for k := 0 to i
      invariant k <= |m| && read == m[..k]
    {
      if k >= |m| {
        return None;
      }
      read := read + [m[k]];
    }
    var k := i + 1;
    while k < |m|
      invariant i + 1 <= k && read == m[..i] + if i < |m| then m[i + 1..if k < |m| then k else |m|] else []
    {
      read := read + [m[k]];
      k := k + 1;
    }
    assert i < |m| ==> m[i + 1..|m|] == m[i + 1..];
    assert i == |m| ==> read == m[..i] + [];
    return Some(read);
  }

  lemma {:induction false} VisitsAllBut(m: seq<nat>, i: nat)
    requires i < |m| && forall j, k | 0 <= j < k < |m| :: m[j] < m[k]
    ensures forall j :: j in OwnVisits(m, i).value <==> j in m && j != m[i]
  {
    var v := OwnVisits(m, i).value;
    assert forall k | 0 <= k < |v| :: v[k] == m[if k < i then k else k + 1];
    forall j | j in m && j != m[i] ensures j in v {
      var k :| 0 <= k < |m| && m[k] == j;
      assert v[if k < i then k else k - 1] == j;
    }
  }

  /**
   The own-side loops of port `i` stay within the member list and visit every other member of its group
   exactly when the list reaches up to `i` and the member they pass over, if any, is the port itself.
   */
  lemma {:induction false} VisitsWholeGroup(ports: seq<PortDecl>, i: nat)
    requires i < |ports| && ports[i].group.Some?
    ensures var m := Members(ports, ports[i].group.value, |ports|);
            (OwnVisits(m, i).Some? &&
             forall j: nat | j < |ports| && j != i && ports[j].group == ports[i].group :: j in OwnVisits(m, i).value)
            <==> i <= |m| && (i < |m| ==> m[i] == i)
  {
    var c := ports[i].group.value;
    var m := Members(ports, c, |ports|);
    MembersExact(ports, c, |ports|);
    if i < |m| {
      VisitsAllBut(m, i);
      assert m[i] in m;
    } else if i == |m| {
      assert OwnVisits(m, i).value == m;
    }
  }

  /** The groups of flow codes "-xx/", where port 1 skips port 2, and "--x/", where port 2 runs off the list. */
  lemma {:induction false} BadFlowCodes()
    ensures var (none, x) := (PortDecl(Agnostic, None), PortDecl(Agnostic, Some('x')));
            && Members([none, x, x], 'x', 3) == [1, 2] && OwnVisits([1, 2], 1) == Some([1])
            && Members([none, none, x], 'x', 3) == [2] && OwnVisits([2], 2) == None
            && !ElementDecl([none, x, x], []).SelfIndexed() && !ElementDecl([none, none, x], []).SelfIndexed()
  {
    var (none, x) := (PortDecl(Agnostic, None), PortDecl(Agnostic, Some('x')));
    var (skips, runsOff) := ([none, x, x], [none, none, x]);
    assert Members(skips, 'x', 1) == [];
    assert Members(skips, 'x', 2) == [1];
    assert Members(runsOff, 'x', 1) == [];
    assert Members(runsOff, 'x', 2) == [];
    var m: seq<nat> := [1, 2];
    assert m[..1] + m[2..] == [1];
    assert ElementDecl(skips, []).HasPort(Input, 1) && ElementDecl(runsOff, []).HasPort(Input, 2);
  }

  predicate Clashes(now: Processing, p: Processing) {
    now != Agnostic && now != p
  }

  /** `now` arises from `before` by giving personality `p` to some agnostic `members`. */
  ghost predicate Spread(before: seq<Processing>, now: seq<Processing>, members: seq<nat>, p: Processing) {
    && |before| == |now|
    && forall i | 0 <= i < |now| :: now[i] == before[i] || (before[i].Agnostic? && now[i] == p && i in members)
  }
}
