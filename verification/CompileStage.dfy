/**
 The compile stages a program goes through (elements/compileStage.C).  The rewrite table holds the
 successor of each stage; installing a program can splice a new stage into it while others compile.
 */
module CompileStages {
  import opened Options

  type Stage = string

  datatype Link = Link(input: Stage, output: Stage)

  // ---------------------------------------------------------------------------------
  // The table as a path
  // ---------------------------------------------------------------------------------

  /** The link from place `i` of a chain to the next. */
  function LinkFrom(chain: seq<Stage>, i: nat): Link
    requires i < |chain| - 1
  {
    Link(chain[i], chain[i + 1])
  }

  ghost function Links(chain: seq<Stage>): set<Link> {
    set i: nat | i < |chain| - 1 :: LinkFrom(chain, i)
  }

  ghost predicate Distinct(chain: seq<Stage>) {
    forall i, j | 0 <= i < j < |chain| :: chain[i] != chain[j]
  }

  /** The table is one simple path from "compile" to "installed". */
  ghost predicate IsPath(rewrite: set<Link>, chain: seq<Stage>) {
    && |chain| >= 2 && chain[0] == "compile" && chain[|chain| - 1] == "installed"
    && Distinct(chain) && rewrite == Links(chain)
  }

  /** `first` comes before `later`. */
  ghost predicate Before(chain: seq<Stage>, first: Stage, later: Stage) {
    exists i, j | 0 <= i < j < |chain| :: chain[i] == first && chain[j] == later
  }

  lemma {:induction false} LinkAt(rewrite: set<Link>, chain: seq<Stage>, l: Link) returns (i: nat)
    requires IsPath(rewrite, chain) && l in rewrite
    ensures i < |chain| - 1 && l == LinkFrom(chain, i)
  {
    i :| i < |chain| - 1 && l == LinkFrom(chain, i);
  }

  /** The successor of a stage is unique, and "installed" alone has none. */
  lemma {:induction false} SuccessorUnique(rewrite: set<Link>, chain: seq<Stage>, i: nat, l: Link)
    requires IsPath(rewrite, chain) && i < |chain| && l in rewrite && l.input == chain[i]
    ensures i < |chain| - 1 && l.output == chain[i + 1]
  {
    var j := LinkAt(rewrite, chain, l);
    assert i == j;
  }

  function Spliced(chain: seq<Stage>, i: nat, name: Stage): seq<Stage>
    requires i < |chain|
  {
    chain[..i + 1] + [name] + chain[i + 1..]
  }

  /** What the action does to the table: two links in, one out. */
  function Splice(rewrite: set<Link>, prev: Link, name: Stage): set<Link> {
    rewrite + {Link(prev.input, name)} + {Link(name, prev.output)} - {prev}
  }

  lemma {:induction false} SplicedFrom(chain: seq<Stage>, i: nat, name: Stage)
    requires i < |chain| - 1
    ensures var c := Spliced(chain, i, name);
            && (forall k: nat | k < i :: LinkFrom(c, k) == LinkFrom(chain, k))
            && LinkFrom(c, i) == Link(chain[i], name) && LinkFrom(c, i + 1) == Link(name, chain[i + 1])
            && (forall k: nat | i < k < |chain| - 1 :: LinkFrom(c, k + 1) == LinkFrom(chain, k))
  {
  }

  lemma {:induction false} SplicedHas(chain: seq<Stage>, i: nat, name: Stage, l: Link)
    requires i < |chain| - 1 && l in Splice(Links(chain), LinkFrom(chain, i), name)
    ensures l in Links(Spliced(chain, i, name))
  {
    var c := Spliced(chain, i, name);
    SplicedFrom(chain, i, name);
    if l in Links(chain) {
      var k: nat :| k < |chain| - 1 && l == LinkFrom(chain, k);
      assert l == LinkFrom(c, if k < i then k else k + 1);
    } else {
      assert l == LinkFrom(c, i) || l == LinkFrom(c, i + 1);
    }
  }

  lemma {:induction false} SplicedOnly(chain: seq<Stage>, i: nat, name: Stage, l: Link)
    requires i < |chain| - 1 && Distinct(chain) && name !in chain
    requires l in Links(Spliced(chain, i, name))
    ensures l in Splice(Links(chain), LinkFrom(chain, i), name)
  {
    var c := Spliced(chain, i, name);
    SplicedFrom(chain, i, name);
    var k: nat :| k < |c| - 1 && l == LinkFrom(c, k);
    if k < i {
      assert l == LinkFrom(chain, k) && chain[k] != chain[i];
    } else if k > i + 1 {
      assert LinkFrom(c, (k - 1) + 1) == LinkFrom(chain, k - 1);
      assert l == LinkFrom(chain, k - 1) && chain[k - 1] != chain[i];
    } else {
      assert name != chain[i] && name != chain[i + 1];
    }
  }

  /** A fresh name keeps the table one simple path ... */
  lemma {:induction false} SpliceKeepsPath(rewrite: set<Link>, chain: seq<Stage>, i: nat, name: Stage)
    requires IsPath(rewrite, chain) && i < |chain| - 1 && name !in chain
    ensures IsPath(Splice(rewrite, LinkFrom(chain, i), name), Spliced(chain, i, name))
  {
    var (c, after) := (Spliced(chain, i, name), Splice(rewrite, LinkFrom(chain, i), name));
    assert after == Links(c) by {
      forall l | l in after ensures l in Links(c) {
        SplicedHas(chain, i, name, l);
      }
      forall l | l in Links(c) ensures l in after {
        SplicedOnly(chain, i, name, l);
      }
    }
    SplicedDistinct(chain, i, name);
  }

  lemma {:induction false} SplicedDistinct(chain: seq<Stage>, i: nat, name: Stage)
    requires i < |chain| && Distinct(chain) && name !in chain
    ensures Distinct(Spliced(chain, i, name))
  {
  }

  /** ... and a name already in use does not, whatever path one looks for. */
  lemma {:induction false} SpliceNeedsFreshName(rewrite: set<Link>, chain: seq<Stage>, i: nat, name: Stage,
                                                other: seq<Stage>)
    requires IsPath(rewrite, chain) && i < |chain| - 1
    requires IsPath(Splice(rewrite, LinkFrom(chain, i), name), other)
    ensures name !in chain
  {
    var (prev, after) := (LinkFrom(chain, i), Splice(rewrite, LinkFrom(chain, i), name));
    if q :| 0 <= q < |chain| && chain[q] == name {
      assert name == prev.input <==> q == i;
      if q == i {
        SelfLink(after, other, name);
      } else {
        UsedTwice(rewrite, chain, i, q, other);
      }
    }
  }

  /** A stage that already has a place gets a second successor, or "installed" gets one. */
  lemma {:induction false} UsedTwice(rewrite: set<Link>, chain: seq<Stage>, i: nat, q: nat, other: seq<Stage>)
    requires IsPath(rewrite, chain) && i < |chain| - 1 && q < |chain| && q != i
    ensures !IsPath(Splice(rewrite, LinkFrom(chain, i), chain[q]), other)
  {
    var (prev, after) := (LinkFrom(chain, i), Splice(rewrite, LinkFrom(chain, i), chain[q]));
    var added := Link(chain[q], prev.output);
    assert chain[q] != prev.input;
    assert added in after;
    if IsPath(after, other) {
      var k := LinkAt(after, other, added);
      if q < |chain| - 1 {
        var kept := LinkFrom(chain, q);
        assert kept in Links(chain) && kept in after;
        SuccessorUnique(after, other, k, kept);
      }
    }
  }

  lemma {:induction false} SelfLink(rewrite: set<Link>, chain: seq<Stage>, name: Stage)
    requires IsPath(rewrite, chain)
    ensures Link(name, name) !in rewrite
  {
    if Link(name, name) in rewrite {
      var k := LinkAt(rewrite, chain, Link(name, name));
    }
  }

  /** Earlier stages keep their order. */
  lemma {:induction false} SpliceKeepsOrder(chain: seq<Stage>, i: nat, name: Stage, first: Stage, later: Stage)
    requires i < |chain| && Before(chain, first, later)
    ensures Before(Spliced(chain, i, name), first, later)
  {
    var a, b :| 0 <= a < b < |chain| && chain[a] == first && chain[b] == later;
    var c := Spliced(chain, i, name);
    var a' := if a <= i then a else a + 1;
    var b' := if b <= i then b else b + 1;
    assert c[a'] == first && c[b'] == later;
  }

  // ---------------------------------------------------------------------------------
  // The element
  // ---------------------------------------------------------------------------------

  /** A program on its way; `rewriteAfter` is the stage after which it wants to become a stage itself. */
  datatype Program = Program(name: Stage, rewriteAfter: Option<Stage>, status: Stage)

  predicate HasInput(rewrite: set<Link>, s: Stage) {
    exists l | l in rewrite :: l.input == s
  }

  /** The program moves on to `next`; a program that becomes installed may splice itself in. */
  ghost predicate Moves(rewrite: set<Link>, p: Program, next: Stage, rewrite': set<Link>, r: Option<Program>) {
    if next != "installed" || p.rewriteAfter.None? then
      rewrite' == rewrite && r == Some(p.(status := next))
    else if !HasInput(rewrite, p.rewriteAfter.value) then
      rewrite' == rewrite && r == None
    else
      && r == Some(p.(status := next))
      && exists prev | prev in rewrite ::
           prev.input == p.rewriteAfter.value && rewrite' == Splice(rewrite, prev, p.name)
  }

  /** One action, on any table. */
  ghost predicate Acts(rewrite: set<Link>, p: Program, rewrite': set<Link>, r: Option<Program>) {
    if p.status == "installed" || !HasInput(rewrite, p.status) then
      rewrite' == rewrite && r == None
    else
      exists l | l in rewrite :: l.input == p.status && Moves(rewrite, p, l.output, rewrite', r)
  }

  lemma {:induction false} LinksGrow(chain: seq<Stage>, s: Stage)
    requires chain != []
    ensures Links(chain + [s]) == Links(chain) + {Link(chain[|chain| - 1], s)}
  {
    var (c, n) := (chain + [s], |chain| - 1);
    assert LinkFrom(c, n) == Link(chain[n], s);
    assert forall k: nat | k < n :: LinkFrom(c, k) == LinkFrom(chain, k);
    assert Links(c) == (set k: nat | k < n :: LinkFrom(c, k)) + {LinkFrom(c, n)};
  }

  function Initial(): (stages: seq<Stage>) {
    ["compile", "parse", "debug", "eca", "planner", "p2dl", "installed"]
  }

  lemma {:induction false} InitialDistinct()
    ensures Distinct(Initial())
  {
    var c := Initial();
    assert |c[0]| == 7 && |c[1]| == 5 && |c[2]| == 5 && |c[3]| == 3 && |c[4]| == 7 && |c[5]| == 4 && |c[6]| == 9;
    assert c[0][0] == 'c' && c[4][0] == 'p' && c[1][0] == 'p' && c[2][0] == 'd';
  }

  /** What follows each stage. */
  function InitialLinks(): set<Link> {
    {Link("compile", "parse"), Link("parse", "debug"), Link("debug", "eca"), Link("eca", "planner"),
     Link("planner", "p2dl"), Link("p2dl", "installed")}
  }

  lemma {:induction false} InitialInOrder()
    ensures Links(Initial()) == InitialLinks()
  {
    var c := Initial();
    assert forall i: nat | i < 6 :: LinkFrom(c, i) in InitialLinks();
    assert LinkFrom(c, 0) == Link("compile", "parse") && LinkFrom(c, 1) == Link("parse", "debug");
    assert LinkFrom(c, 2) == Link("debug", "eca") && LinkFrom(c, 3) == Link("eca", "planner");
    assert LinkFrom(c, 4) == Link("planner", "p2dl") && LinkFrom(c, 5) == Link("p2dl", "installed");
  }

  class CompileStage {
    var rewrite: set<Link>
    var compileStatus: Option<Stage>

    /** An empty table, then `initialize`. */
    constructor ()
      ensures IsPath(rewrite, Initial()) && compileStatus == None
    {
      rewrite, compileStatus := {}, None;
      new;
      var stages := Initial();
      for i := 0 to |stages| - 1
        invariant rewrite == Links(stages[..i + 1])
        invariant compileStatus == None
      {
        LinksGrow(stages[..i + 1], stages[i + 1]);
        assert stages[..i + 2] == stages[..i + 1] + [stages[i + 1]];
        rewrite := rewrite + {Link(stages[i], stages[i + 1])};
      }
      assert stages[..|stages|] == stages;
      InitialDistinct();
    }

    /** A lookup in the index on inputs; which of several links comes first is left open. */
    method Lookup(s: Stage) returns (found: Option<Link>)
      ensures found.None? <==> !HasInput(rewrite, s)
      ensures found.Some? ==> found.value in rewrite && found.value.input == s
    {
      if l :| l in rewrite && l.input == s {
        found := Some(l);
      } else {
        found := None;
      }
    }

    /** `simple_action`. */
    method Act(p: Program) returns (r: Option<Program>)
      modifies this
      ensures Acts(old(rewrite), p, rewrite, r)
      ensures r.Some? ==> compileStatus == Some(r.value.status)
      ensures r.None? ==>
                compileStatus == if p.status == "installed" || !HasInput(old(rewrite), p.status) then old(compileStatus)
                                 else Some("installed")
    {
      if p.status == "installed" {
        return None;
      }
      var stage := Lookup(p.status);
      if stage.None? {
        return None;
      }
      var next := stage.value.output;
      compileStatus := Some(next);
      if next == "installed" && p.rewriteAfter.Some? {
        var prev := Lookup(p.rewriteAfter.value);
        if prev.None? {
          assert Moves(rewrite, p, next, rewrite, None);
          return None;
        }
        rewrite := rewrite + {Link(prev.value.input, p.name)};
        rewrite := rewrite + {Link(p.name, prev.value.output)};
        rewrite := rewrite - {prev.value};
      }
      r := Some(p.(status := next));
      assert Moves(old(rewrite), p, next, rewrite, r);
    }

    /** Along a fixed chain a program visits each stage left exactly once, in order, and ends. */
    method Compile(p: Program, ghost chain: seq<Stage>, ghost k: nat) returns (visited: seq<Stage>)
      requires IsPath(rewrite, chain) && k < |chain| && p.status == chain[k] && p.rewriteAfter == None
      modifies this
      ensures rewrite == old(rewrite) && visited == chain[k + 1..]
    {
      visited := [];
      var q := Some(p);
      ghost var at := k;
      while q.Some? && q.value.status != "installed"
        invariant rewrite == old(rewrite) && q.Some? && q.value.rewriteAfter == None
        invariant k <= at < |chain| && q.value.status == chain[at] && visited == chain[k + 1..at + 1]
        decreases |chain| - at
      {
        ghost var before := q.value;
        q := Act(q.value);
        ActsOnPath(old(rewrite), chain, at, before, rewrite, q);
        visited := visited + [q.value.status];
        at := at + 1;
      }
    }
  }

  lemma {:induction false} OnPath(rewrite: set<Link>, chain: seq<Stage>, k: nat)
    requires IsPath(rewrite, chain) && k < |chain|
    ensures HasInput(rewrite, chain[k]) <==> k < |chain| - 1
    ensures chain[k] == "installed" <==> k == |chain| - 1
  {
    if k < |chain| - 1 {
      var l := LinkFrom(chain, k);
      assert l in rewrite && l.input == chain[k];
    } else {
      forall l | l in rewrite ensures l.input != chain[k] {
        var j := LinkAt(rewrite, chain, l);
      }
    }
  }

  /** Where a program stands decides where it goes; without a wish to be a stage it leaves the table alone. */
  lemma {:induction false} ActsOnPath(rewrite: set<Link>, chain: seq<Stage>, k: nat, p: Program,
                                      rewrite': set<Link>, r: Option<Program>)
    requires IsPath(rewrite, chain) && k < |chain| && p.status == chain[k] && Acts(rewrite, p, rewrite', r)
    ensures k == |chain| - 1 ==> rewrite' == rewrite && r == None
    ensures k < |chain| - 1 ==> Moves(rewrite, p, chain[k + 1], rewrite', r)
  {
    OnPath(rewrite, chain, k);
    if k < |chain| - 1 {
      var l :| l in rewrite && l.input == p.status && Moves(rewrite, p, l.output, rewrite', r);
      SuccessorUnique(rewrite, chain, k, l);
    }
  }

  // ---------------------------------------------------------------------------------
  // Many programs at once
  // ---------------------------------------------------------------------------------

  /** The stages of `h` lie on the chain, in the order of the chain and without repetition. */
  ghost predicate InOrder(chain: seq<Stage>, h: seq<Stage>) {
    && (forall a | 0 <= a < |h| :: h[a] in chain)
    && (forall a, b | 0 <= a < b < |h| :: Before(chain, h[a], h[b]))
  }

  lemma {:induction false} InOrderSpliced(chain: seq<Stage>, i: nat, name: Stage, h: seq<Stage>)
    requires i < |chain| && InOrder(chain, h)
    ensures InOrder(Spliced(chain, i, name), h)
  {
    var c := Spliced(chain, i, name);
    forall a, b | 0 <= a < b < |h| ensures Before(c, h[a], h[b]) {
      SpliceKeepsOrder(chain, i, name, h[a], h[b]);
    }
    SplicedMembers(chain, i, name);
  }

  lemma {:induction false} SplicedMembers(chain: seq<Stage>, i: nat, name: Stage)
    requires i < |chain|
    ensures forall x :: x in Spliced(chain, i, name) <==> x in chain || x == name
  {
    assert chain == chain[..i + 1] + chain[i + 1..];
  }

  lemma {:induction false} InOrderExtend(chain: seq<Stage>, k: nat, h: seq<Stage>)
    requires k + 1 < |chain| && Distinct(chain) && InOrder(chain, h) && h != [] && h[|h| - 1] == chain[k]
    ensures InOrder(chain, h + [chain[k + 1]])
  {
    var n := |h| - 1;
    forall a | 0 <= a <= n ensures Before(chain, h[a], chain[k + 1]) {
      if a < n {
        assert Before(chain, h[a], h[n]);
        var i, j :| 0 <= i < j < |chain| && chain[i] == h[a] && chain[j] == h[n];
        assert j == k;
        assert chain[i] == h[a] && chain[k + 1] == chain[k + 1];
      }
    }
  }

  /** So a program takes no more steps than the chain is long, even one that grows under way. */
  lemma {:induction false} InOrderBounded(chain: seq<Stage>, h: seq<Stage>, a: nat) returns (i: nat)
    requires Distinct(chain) && InOrder(chain, h) && a < |h|
    ensures a <= i < |chain| && chain[i] == h[a]
  {
    if a == 0 {
      i :| 0 <= i < |chain| && chain[i] == h[0];
    } else {
      var p := InOrderBounded(chain, h, a - 1);
      assert Before(chain, h[a - 1], h[a]);
      var q, j :| 0 <= q < j < |chain| && chain[q] == h[a - 1] && chain[j] == h[a];
      assert p == q;
      i := j;
    }
  }

  /** Program names are fresh: pairwise different, and no initial stages. */
  ghost predicate FreshNames(programs: seq<Program>) {
    && (forall i, j | 0 <= i < j < |programs| :: programs[i].name != programs[j].name)
    && (forall i | 0 <= i < |programs| :: programs[i].name !in Initial())
  }

  /** A program and the stages it has been in. */
  ghost predicate Journey(chain: seq<Stage>, p: Program, h: seq<Stage>) {
    && InOrder(chain, h) && h != [] && h[0] == "compile" && h[|h| - 1] == p.status
    && (p.name in chain ==> p.status == "installed")
  }

  ghost predicate Journeys(chain: seq<Stage>, programs: seq<Program>, histories: seq<seq<Stage>>) {
    && |histories| == |programs| && FreshNames(programs) && InOrder(chain, Initial())
    && (forall i | 0 <= i < |programs| :: Journey(chain, programs[i], histories[i]))
  }

  lemma {:induction false} JourneysSpliced(chain: seq<Stage>, programs: seq<Program>, histories: seq<seq<Stage>>,
                                           j: nat, i: nat)
    requires Journeys(chain, programs, histories) && j < |chain| && i < |programs|
    requires programs[i].status == "installed"
    ensures Journeys(Spliced(chain, j, programs[i].name), programs, histories)
  {
    var (c, name) := (Spliced(chain, j, programs[i].name), programs[i].name);
    SplicedMembers(chain, j, name);
    InOrderSpliced(chain, j, name, Initial());
    forall k | 0 <= k < |programs| ensures Journey(c, programs[k], histories[k]) {
      InOrderSpliced(chain, j, name, histories[k]);
      assert k != i ==> programs[k].name != name;
    }
  }

  lemma {:induction false} JourneysAdvance(chain: seq<Stage>, programs: seq<Program>, histories: seq<seq<Stage>>,
                                           i: nat, k: nat)
    requires Journeys(chain, programs, histories) && Distinct(chain) && i < |programs|
    requires k + 1 < |chain| && programs[i].status == chain[k] && chain[k] != "installed"
    ensures Journeys(chain, programs[i := programs[i].(status := chain[k + 1])],
                     histories[i := histories[i] + [chain[k + 1]]])
  {
    InOrderExtend(chain, k, histories[i]);
    assert Journey(chain, programs[i], histories[i]);
    var ps := programs[i := programs[i].(status := chain[k + 1])];
    var hs := histories[i := histories[i] + [chain[k + 1]]];
    assert forall j | 0 <= j < |ps| :: ps[j].name == programs[j].name;
    forall j | 0 <= j < |ps| ensures Journey(chain, ps[j], hs[j]) {
      assert Journey(chain, programs[j], histories[j]);
    }
  }

  /** One action of one program keeps the table a path and every journey in its order. */
  lemma {:induction false} JourneysAct(rewrite: set<Link>, chain: seq<Stage>, programs: seq<Program>,
                                       histories: seq<seq<Stage>>, i: nat, rewrite': set<Link>, q: Program)
    returns (chain': seq<Stage>)
    requires IsPath(rewrite, chain) && Journeys(chain, programs, histories) && i < |programs|
    requires Acts(rewrite, programs[i], rewrite', Some(q))
    ensures IsPath(rewrite', chain')
    ensures Journeys(chain', programs[i := q], histories[i := histories[i] + [q.status]])
  {
    var p := programs[i];
    assert Journey(chain, p, histories[i]);
    assert p.status in chain;
    var k: nat :| k < |chain| && chain[k] == p.status;
    ActsOnPath(rewrite, chain, k, p, rewrite', Some(q));
    OnPath(rewrite, chain, k);
    JourneysAdvance(chain, programs, histories, i, k);
    assert q == p.(status := chain[k + 1]);
    if chain[k + 1] == "installed" && p.rewriteAfter.Some? {
      var prev :| prev in rewrite && prev.input == p.rewriteAfter.value && rewrite' == Splice(rewrite, prev, p.name);
      var j := LinkAt(rewrite, chain, prev);
      SpliceKeepsPath(rewrite, chain, j, p.name);
      JourneysSpliced(chain, programs[i := q], histories[i := histories[i] + [q.status]], j, i);
      chain' := Spliced(chain, j, p.name);
    } else {
      chain' := chain;
    }
  }

  lemma {:induction false} JourneysAtStart(programs: seq<Program>, histories: seq<seq<Stage>>)
    requires FreshNames(programs) && |histories| == |programs|
    requires forall i | 0 <= i < |programs| :: programs[i].status == "compile" && histories[i] == ["compile"]
    ensures Journeys(Initial(), programs, histories)
  {
    var c := Initial();
    forall a, b | 0 <= a < b < |c| ensures Before(c, c[a], c[b]) {
    }
    assert c[0] == "compile";
  }

  /** The table is a path, and every program went along it. */
  ghost predicate Orderly(rewrite: set<Link>, programs: seq<Program>, histories: seq<seq<Stage>>) {
    exists chain :: IsPath(rewrite, chain) && Journeys(chain, programs, histories)
  }

  /**
   Any number of programs with fresh names, acted on in any order, each splicing itself in when it is
   installed: the table stays one simple path that keeps the initial stages in order, and each program
   has gone through stages in the order of that path, from "compile" and never twice through one.
   */
  method Run(programs: seq<Program>, schedule: seq<nat>)
    returns (tables: seq<set<Link>>, states: seq<seq<Program>>, histories: seq<seq<Stage>>)
    requires FreshNames(programs) && forall i | 0 <= i < |programs| :: programs[i].status == "compile"
    requires forall n | 0 <= n < |schedule| :: schedule[n] < |programs|
    ensures Scheduled(schedule, |schedule|, tables, states) && states[0] == programs && tables[0] == Links(Initial())
    ensures Orderly(tables[|schedule|], states[|schedule|], histories)
    ensures |histories| == |programs| && forall i | 0 <= i < |programs| :: IsHistory(states, i, histories[i])
  {
    var c := new CompileStage();
    var now := programs;
    histories := seq(|programs|, _ => ["compile"]);
    tables, states := [c.rewrite], [now];
    ghost var chain := Initial();
    JourneysAtStart(now, histories);
    HistoriesAtStart(programs, histories);
    for n := 0 to |schedule|
      invariant fresh(c) && |now| == |programs| == |histories|
      invariant |tables| == |states| == n + 1 && tables[n] == c.rewrite && states[n] == now
      invariant tables[0] == Links(Initial()) && states[0] == programs
      invariant Scheduled(schedule, n, tables, states) == true && AreHistories(states, histories) == true
      invariant IsPath(c.rewrite, chain) == true && Journeys(chain, now, histories) == true
    {
      var i := schedule[n];
      ghost var (before, were, told) := (c.rewrite, now, histories);
      var r := c.Act(now[i]);
      if r.Some? {
        chain := JourneysAct(before, chain, now, histories, i, c.rewrite, r.value);
        now, histories := now[i := r.value], histories[i := histories[i] + [r.value.status]];
        HistoriesMove(states, told, i, r.value, before, c.rewrite, chain, were);
      } else {
        RefusalKeepsTable(before, now[i], c.rewrite);
        HistoriesStay(states, histories, now);
      }
      ScheduledMore(schedule, n, tables, states, c.rewrite, now, r);
      tables, states := tables + [c.rewrite], states + [now];
    }
  }

  /** What one action does to the programs: the one it is about moves on, or nothing changes. */
  ghost predicate StepOf(i: nat, table: set<Link>, programs: seq<Program>, table': set<Link>, programs': seq<Program>) {
    && i < |programs|
    && exists r :: Acts(table, programs[i], table', r) &&
                   programs' == if r.Some? then programs[i := r.value] else programs
  }

  /** The tables and programs before and after each scheduled action. */
  ghost predicate Scheduled(schedule: seq<nat>, n: nat, tables: seq<set<Link>>, states: seq<seq<Program>>) {
    && n <= |schedule| && |tables| == n + 1 && |states| == n + 1
    && forall k | 0 <= k < n :: StepOf(schedule[k], tables[k], states[k], tables[k + 1], states[k + 1])
  }

  lemma {:induction false} ScheduledMore(schedule: seq<nat>, n: nat, tables: seq<set<Link>>, states: seq<seq<Program>>,
                                         table: set<Link>, now: seq<Program>, r: Option<Program>)
    requires Scheduled(schedule, n, tables, states) && n < |schedule| && schedule[n] < |states[n]|
    requires Acts(tables[n], states[n][schedule[n]], table, r)
    requires now == if r.Some? then states[n][schedule[n] := r.value] else states[n]
    ensures Scheduled(schedule, n + 1, tables + [table], states + [now])
  {
    var (ts, ss) := (tables + [table], states + [now]);
    forall k | 0 <= k < n + 1 ensures StepOf(schedule[k], ts[k], ss[k], ts[k + 1], ss[k + 1]) {
      if k < n {
        assert StepOf(schedule[k], tables[k], states[k], tables[k + 1], states[k + 1]);
      }
    }
  }

  /** The statuses of a program, each time it changed. */
  ghost function StatusChanges(states: seq<seq<Program>>, i: nat): seq<Stage>
    requires states != [] && forall k | 0 <= k < |states| :: i < |states[k]|
  {
    var n := |states| - 1;
    var now := states[n][i].status;
    if n == 0 then [now] else
      var before := StatusChanges(states[..n], i);
      if states[n - 1][i].status == now then before else before + [now]
  }

  ghost predicate IsHistory(states: seq<seq<Program>>, i: nat, h: seq<Stage>) {
    && states != [] && (forall k | 0 <= k < |states| :: i < |states[k]|)
    && h == StatusChanges(states, i)
  }

  ghost predicate AreHistories(states: seq<seq<Program>>, histories: seq<seq<Stage>>) {
    forall i: nat | i < |histories| :: IsHistory(states, i, histories[i])
  }

  lemma {:induction false} HistoriesAtStart(programs: seq<Program>, histories: seq<seq<Stage>>)
    requires |histories| == |programs|
    requires forall i | 0 <= i < |programs| :: programs[i].status == "compile" && histories[i] == ["compile"]
    ensures AreHistories([programs], histories)
  {
  }

  lemma {:induction false} HistoryGrows(states: seq<seq<Program>>, now: seq<Program>, i: nat, h: seq<Stage>)
    requires IsHistory(states, i, h) && i < |now|
    ensures var moved := states[|states| - 1][i].status != now[i].status;
            IsHistory(states + [now], i, if moved then h + [now[i].status] else h)
  {
    assert (states + [now])[..|states|] == states;
  }

  lemma {:induction false} HistoriesStay(states: seq<seq<Program>>, histories: seq<seq<Stage>>, now: seq<Program>)
    requires AreHistories(states, histories) && states != [] && states[|states| - 1] == now && |now| == |histories|
    ensures AreHistories(states + [now], histories)
  {
    forall i: nat | i < |histories| ensures IsHistory(states + [now], i, histories[i]) {
      HistoryGrows(states, now, i, histories[i]);
    }
  }

  lemma {:induction false} HistoriesMove(states: seq<seq<Program>>, histories: seq<seq<Stage>>, i: nat, q: Program,
                                         table: set<Link>, table': set<Link>, chain: seq<Stage>, were: seq<Program>)
    requires AreHistories(states, histories) && states != [] && states[|states| - 1] == were
    requires i < |were| == |histories| && Acts(table, were[i], table', Some(q))
    requires Journeys(chain, were[i := q], histories[i := histories[i] + [q.status]]) && Distinct(chain)
    requires histories[i] != [] && histories[i][|histories[i]| - 1] == were[i].status
    ensures AreHistories(states + [were[i := q]], histories[i := histories[i] + [q.status]])
  {
    var (now, told) := (were[i := q], histories[i := histories[i] + [q.status]]);
    assert q.status != were[i].status by {
      var h := told[i];
      assert Journey(chain, now[i], h);
      assert Before(chain, h[|h| - 2], h[|h| - 1]);
    }
    forall j: nat | j < |histories| ensures IsHistory(states + [now], j, told[j]) {
      HistoryGrows(states, now, j, histories[j]);
    }
  }

  lemma {:induction false} RefusalKeepsTable(rewrite: set<Link>, p: Program, rewrite': set<Link>)
    requires Acts(rewrite, p, rewrite', None)
    ensures rewrite' == rewrite
  {
    if p.status != "installed" && HasInput(rewrite, p.status) {
      var l :| l in rewrite && l.input == p.status && Moves(rewrite, p, l.output, rewrite', None);
    }
  }
}
