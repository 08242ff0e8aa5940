/**
 What the letters of processing and flow codes mean for the check of a dataflow (p2core/element.h,
 p2core/elementSpec.C): 'h' is push, 'l' is pull, 'a' takes what it is joined to, and equal flow letters
 other than '-' tie agnostic ports together.
 */
module FlowCodes {
  import opened Options
  import opened ElementSpecs
  import opened Dataflows

  /** The letters of a port. */
  function Letter(code: ElementCode, side: Side, i: nat): char
    requires code.WellFormedCode()
  {
    CodeAt(Part(code.processing, side), i, 'a')
  }

  function FlowLetter(code: ElementCode, side: Side, i: nat): char
    requires code.WellFormedCode()
  {
    CodeAt(Part(code.flow, side), i, '-')
  }

  /** How a port is declared, by its letters. */
  lemma {:induction false} PortByLetters(code: ElementCode, side: Side, i: nat)
    requires code.WellFormedCode() && code.Decl().HasPort(side, i)
    ensures var (port, c) := (code.Decl().Ports(side)[i], Letter(code, side, i));
            && (port.processing == Push <==> c == 'h') && (port.processing == Pull <==> c == 'l')
            && (forall g :: port.group == Some(g) <==> FlowLetter(code, side, i) == g && g != '-')
  {
  }

  /** The two shorthands for elements between a push and a pull world, and the default flow code. */
  lemma {:induction false} Shorthands()
    ensures DeclOf("h/l", "-/-", 1, 1) == ElementDecl([PortDecl(Push, None)], [PortDecl(Pull, None)])
    ensures DeclOf("l/h", "-/-", 1, 1) == ElementDecl([PortDecl(Pull, None)], [PortDecl(Push, None)])
    ensures DeclOf("a/a", "x/x", 1, 1) ==
            ElementDecl([PortDecl(Agnostic, Some('x'))], [PortDecl(Agnostic, Some('x'))])
  {
    OneLetter("h/l");
    OneLetter("l/h");
    OneLetter("a/a");
    OneLetter("-/-");
    OneLetter("x/x");
  }

  lemma {:induction false} OneLetter(s: string)
    requires |s| == 3 && s[0] != '/' && s[1] == '/'
    ensures SlashAt(s) == 1 && Part(s, Input) == [s[0]] && Part(s, Output) == [s[2]]
  {
    assert s[1..][0] == '/';
  }

  /** The letters contradict each other: one asks for push and the other for pull. */
  predicate Opposed(p: char, q: char) {
    (p == 'h' && q == 'l') || (p == 'l' && q == 'h')
  }

  /** No two ports of any element are tied together. */
  ghost predicate Untied(codes: seq<ElementCode>)
    requires forall e | 0 <= e < |codes| :: codes[e].WellFormedCode()
  {
    forall e: nat, s, i: nat | e < |codes| && codes[e].Decl().HasPort(s, i) :: FlowLetter(codes[e], s, i) == '-'
  }

  /** The letters at the two ends of a hookup. */
  ghost predicate Contradicts(codes: seq<ElementCode>, h: Hookup)
    requires forall e | 0 <= e < |codes| :: codes[e].WellFormedCode()
  {
    && h.from < |codes| && h.to < |codes|
    && Opposed(Letter(codes[h.from], Output, h.fromPort), Letter(codes[h.to], Input, h.toPort))
  }

  /** What a port is: as declared, or what the port at the other end of its hookup is declared to be. */
  ghost function Resolved(decls: seq<ElementDecl>, hookups: seq<Hookup>, e: nat, s: Side, i: nat): Processing {
    if e < |decls| && decls[e].HasPort(s, i) && decls[e].Ports(s)[i].processing != Agnostic then
      decls[e].Ports(s)[i].processing
    else if exists h | h in hookups :: Ends(decls, h, e, s, i) then
      var h :| h in hookups && Ends(decls, h, e, s, i);
      if s.Output? then decls[h.to].inputs[h.toPort].processing
      else decls[h.from].outputs[h.fromPort].processing
    else Agnostic
  }

  /** Hookup `h` joins existing ports, of which this is one. */
  ghost predicate Ends(decls: seq<ElementDecl>, h: Hookup, e: nat, s: Side, i: nat) {
    InRange(decls, h) && Uses(h, PortRef(e, s, i))
  }

  /** The two ends of a hookup can be the same. */
  ghost predicate Matching(decls: seq<ElementDecl>, h: Hookup)
    requires InRange(decls, h)
  {
    var (p, q) := (decls[h.from].outputs[h.fromPort].processing, decls[h.to].inputs[h.toPort].processing);
    p == q || p == Agnostic || q == Agnostic
  }

  lemma {:induction false} ResolvedAlike(decls: seq<ElementDecl>, hookups: seq<Hookup>, h: Hookup)
    requires h in hookups && InRange(decls, h) && PortsUsedOnce(hookups) && Matching(decls, h)
    ensures Resolved(decls, hookups, h.from, Output, h.fromPort) == Resolved(decls, hookups, h.to, Input, h.toPort)
  {
    assert Ends(decls, h, h.from, Output, h.fromPort) && Ends(decls, h, h.to, Input, h.toPort);
    forall g | g in hookups && (Ends(decls, g, h.from, Output, h.fromPort) || Ends(decls, g, h.to, Input, h.toPort))
      ensures g == h
    {
    }
  }

  ghost predicate NoGroups(decls: seq<ElementDecl>) {
    forall e: nat, s, i: nat | e < |decls| && decls[e].HasPort(s, i) :: decls[e].Ports(s)[i].group == None
  }

  lemma {:induction false} ResolvedConsistent(decls: seq<ElementDecl>, hookups: seq<Hookup>)
    requires NoGroups(decls) && PortsUsedOnce(hookups)
    requires forall h | h in hookups :: InRange(decls, h) && Matching(decls, h)
    ensures Compatible(decls, hookups)
  {
    var a: Assignment := (e: nat, s: Side, i: nat) => Resolved(decls, hookups, e, s, i);
    forall h | h in hookups ensures a(h.from, Output, h.fromPort) == a(h.to, Input, h.toPort) {
      ResolvedAlike(decls, hookups, h);
    }
    assert Consistent(decls, hookups, a);
  }

  lemma {:induction false} ConsistentMatches(decls: seq<ElementDecl>, hookups: seq<Hookup>, a: Assignment, h: Hookup)
    requires Consistent(decls, hookups, a) && h in hookups && InRange(decls, h)
    ensures Matching(decls, h)
  {
    assert decls[h.from].HasPort(Output, h.fromPort) && decls[h.to].HasPort(Input, h.toPort);
    assert decls[h.from].Ports(Output) == decls[h.from].outputs && decls[h.to].Ports(Input) == decls[h.to].inputs;
  }

  lemma {:induction false} HookupsDecide(decls: seq<ElementDecl>, hookups: seq<Hookup>)
    requires NoGroups(decls) && PortsUsedOnce(hookups) && forall h | h in hookups :: InRange(decls, h)
    ensures Compatible(decls, hookups) <==> forall h | h in hookups :: Matching(decls, h)
  {
    if Compatible(decls, hookups) {
      var a: Assignment :| Consistent(decls, hookups, a);
      forall h | h in hookups ensures Matching(decls, h) {
        ConsistentMatches(decls, hookups, a, h);
      }
    } else if forall h | h in hookups :: Matching(decls, h) {
      ResolvedConsistent(decls, hookups);
    }
  }

  lemma {:induction false} UntiedHasNoGroups(codes: seq<ElementCode>)
    requires (forall e | 0 <= e < |codes| :: codes[e].WellFormedCode()) && Untied(codes)
    ensures NoGroups(DeclsOf(codes))
  {
    forall e: nat, s, i: nat | e < |codes| && codes[e].Decl().HasPort(s, i)
      ensures codes[e].Decl().Ports(s)[i].group == None
    {
      PortByLetters(codes[e], s, i);
    }
  }

  lemma {:induction false} EndsByLetters(codes: seq<ElementCode>, h: Hookup)
    requires (forall e | 0 <= e < |codes| :: codes[e].WellFormedCode()) && InRange(DeclsOf(codes), h)
    ensures Contradicts(codes, h) <==> !Matching(DeclsOf(codes), h)
  {
    PortByLetters(codes[h.from], Output, h.fromPort);
    PortByLetters(codes[h.to], Input, h.toPort);
  }

  /** Where nothing is tied together, a dataflow is free of contradiction exactly when every hookup is. */
  lemma {:induction false} LettersDecide(codes: seq<ElementCode>, hookups: seq<Hookup>)
    requires (forall e | 0 <= e < |codes| :: codes[e].WellFormedCode()) && Untied(codes)
    requires PortsUsedOnce(hookups) && forall h | h in hookups :: InRange(DeclsOf(codes), h)
    ensures Compatible(DeclsOf(codes), hookups) <==> forall h | h in hookups :: !Contradicts(codes, h)
  {
    UntiedHasNoGroups(codes);
    HookupsDecide(DeclsOf(codes), hookups);
    forall h | h in hookups ensures Contradicts(codes, h) <==> !Matching(DeclsOf(codes), h) {
      EndsByLetters(codes, h);
    }
  }

  /** A source with output letter `p`, and a sink with input letter `q`. */
  function SourceOf(p: char): ElementCode {
    ElementCode("/" + [p], "/-", 0, 1)
  }

  function SinkOf(q: char): ElementCode {
    ElementCode([q] + "/", "-/", 1, 0)
  }

  lemma {:induction false} SourceRead(p: char)
    requires IsPersonality(p)
    ensures SourceOf(p).WellFormedCode()
    ensures SourceOf(p).Decl() == ElementDecl([], [PortDecl(Personality(p), None)])
  {
    var s := "/" + [p];
    assert SlashAt(s) == 0 && Part(s, Output) == [p];
    assert SlashAt("/-") == 0 && Part("/-", Output) == "-";
  }

  lemma {:induction false} SinkRead(q: char)
    requires IsPersonality(q)
    ensures SinkOf(q).WellFormedCode()
    ensures SinkOf(q).Decl() == ElementDecl([PortDecl(Personality(q), None)], [])
  {
    var s := [q] + "/";
    assert s[1..] == "/" && SlashAt("/") == 0;
    assert SlashAt(s) == 1 && Part(s, Input) == [q];
    assert "-/"[1..] == "/";
    assert SlashAt("-/") == 1 && Part("-/", Input) == "-";
  }

  /** A source joined to a sink is accepted exactly when their letters are the same or one is 'a'. */
  lemma {:induction false} PairAccepted(p: char, q: char)
    requires IsPersonality(p) && IsPersonality(q)
    ensures SourceOf(p).WellFormedCode() && SinkOf(q).WellFormedCode()
    ensures Acceptable(DeclsOf([SourceOf(p), SinkOf(q)]), [Hookup(0, 0, 1, 0)]) <==> p == q || p == 'a' || q == 'a'
  {
    SourceRead(p);
    SinkRead(q);
    var (source, sink) := (SourceOf(p).Decl(), SinkOf(q).Decl());
    assert DeclsOf([SourceOf(p), SinkOf(q)]) == [source, sink];
    PairJoined(p, q);
    HookupsDecide([source, sink], [Hookup(0, 0, 1, 0)]);
  }

  lemma {:induction false} PairJoined(p: char, q: char)
    ensures var source := ElementDecl([], [PortDecl(Personality(p), None)]);
            var sink := ElementDecl([PortDecl(Personality(q), None)], []);
            var (decls, h) := ([source, sink], Hookup(0, 0, 1, 0));
            && h in [h] && InRange(decls, h) && NoGroups(decls) && PortsUsedOnce([h]) && AllPortsUsed(decls, [h])
            && (Matching(decls, h) <==> !(Personality(p) != Personality(q) && Personality(p) != Agnostic
                                          && Personality(q) != Agnostic))
  {
    var h := Hookup(0, 0, 1, 0);
    assert h in [h] && Uses(h, PortRef(0, Output, 0)) && Uses(h, PortRef(1, Input, 0));
  }

  /** An agnostic element with flow letter `f` on its input and `g` on its output. */
  function MiddleOf(f: char, g: char): ElementCode {
    ElementCode("a/a", [f] + "/" + [g], 1, 1)
  }

  lemma {:induction false} MiddleRead(f: char, g: char)
    requires f != '/'
    ensures MiddleOf(f, g).WellFormedCode()
    ensures MiddleOf(f, g).Decl() == ElementDecl([PortDecl(Agnostic, GroupOf(f))], [PortDecl(Agnostic, GroupOf(g))])
  {
    OneLetter("a/a");
    OneLetter([f] + "/" + [g]);
  }

  /** Source, middle element and sink in a row. */
  ghost function Row(p: char, f: char, g: char, q: char): seq<ElementDecl> {
    [ElementDecl([], [PortDecl(Personality(p), None)]),
     ElementDecl([PortDecl(Agnostic, GroupOf(f))], [PortDecl(Agnostic, GroupOf(g))]),
     ElementDecl([PortDecl(Personality(q), None)], [])]
  }

  lemma {:induction false} RowRead(p: char, f: char, g: char, q: char)
    requires IsPersonality(p) && IsPersonality(q) && f != '/'
    ensures SourceOf(p).WellFormedCode() && MiddleOf(f, g).WellFormedCode() && SinkOf(q).WellFormedCode()
    ensures DeclsOf([SourceOf(p), MiddleOf(f, g), SinkOf(q)]) == Row(p, f, g, q)
  {
    SourceRead(p);
    MiddleRead(f, g);
    SinkRead(q);
  }

  /** The two ports of the middle element are tied together, and have to serve letters that differ. */
  ghost predicate Torn(p: char, f: char, g: char, q: char) {
    f == g && f != '-' && Opposed(p, q)
  }

  lemma {:induction false} TornIsRefused(p: char, f: char, g: char, q: char, a: Assignment)
    requires IsPersonality(p) && IsPersonality(q) && Torn(p, f, g, q)
    ensures !Consistent(Row(p, f, g, q), [Hookup(0, 0, 1, 0), Hookup(1, 0, 2, 0)], a)
  {
    var (decls, hookups) := (Row(p, f, g, q), [Hookup(0, 0, 1, 0), Hookup(1, 0, 2, 0)]);
    assert Hookup(0, 0, 1, 0) in hookups && Hookup(1, 0, 2, 0) in hookups;
    assert decls[1].SameGroup(Input, 0, Output, 0) && decls[1].Ports(Input)[0].processing == Agnostic;
    assert decls[0].HasPort(Output, 0) && decls[0].Ports(Output)[0].processing == Personality(p);
    assert decls[2].HasPort(Input, 0) && decls[2].Ports(Input)[0].processing == Personality(q);
  }

  /** What the ports of the row are, when nothing is torn. */
  ghost function RowAssigned(p: char, f: char, g: char, q: char): Assignment {
    var tied := f == g && f != '-';
    var first := if tied && p == 'a' then Personality(q) else Personality(p);
    var last := if tied && q == 'a' then Personality(p) else Personality(q);
    (e: nat, s: Side, i: nat) => if e == 0 || (e == 1 && s.Input?) then first else last
  }

  lemma {:induction false} RowIsCompatible(p: char, f: char, g: char, q: char)
    requires IsPersonality(p) && IsPersonality(q) && !Torn(p, f, g, q)
    ensures Consistent(Row(p, f, g, q), [Hookup(0, 0, 1, 0), Hookup(1, 0, 2, 0)], RowAssigned(p, f, g, q))
  {
    var (decls, a) := (Row(p, f, g, q), RowAssigned(p, f, g, q));
    forall e: nat, s, i: nat, t, j: nat | e < 3 && decls[e].SameGroup(s, i, t, j)
      ensures a(e, s, i) != Agnostic ==> a(e, t, j) == a(e, s, i)
    {
      assert e == 1 && i == 0 && j == 0;
    }
  }

  /**
   An agnostic element between a source and a sink: the dataflow is accepted exactly when its flow letters
   do not tie its ports together, or the letters of source and sink are the same or one is 'a'.
   */
  lemma {:induction false} RowAccepted(p: char, f: char, g: char, q: char)
    requires IsPersonality(p) && IsPersonality(q) && f != '/'
    ensures SourceOf(p).WellFormedCode() && MiddleOf(f, g).WellFormedCode() && SinkOf(q).WellFormedCode()
    ensures Acceptable(DeclsOf([SourceOf(p), MiddleOf(f, g), SinkOf(q)]), [Hookup(0, 0, 1, 0), Hookup(1, 0, 2, 0)]) <==>
              f != g || f == '-' || p == q || p == 'a' || q == 'a'
  {
    RowRead(p, f, g, q);
    var (decls, hookups) := (Row(p, f, g, q), [Hookup(0, 0, 1, 0), Hookup(1, 0, 2, 0)]);
    RowJoined(p, f, g, q);
    if Torn(p, f, g, q) {
      forall a: Assignment ensures !Consistent(decls, hookups, a) {
        TornIsRefused(p, f, g, q, a);
      }
    } else {
      RowIsCompatible(p, f, g, q);
    }
  }

  lemma {:induction false} RowJoined(p: char, f: char, g: char, q: char)
    ensures var (decls, hookups) := (Row(p, f, g, q), [Hookup(0, 0, 1, 0), Hookup(1, 0, 2, 0)]);
            (forall h | h in hookups :: InRange(decls, h)) && PortsUsedOnce(hookups) && AllPortsUsed(decls, hookups)
  {
    var (first, last) := (Hookup(0, 0, 1, 0), Hookup(1, 0, 2, 0));
    var hookups := [first, last];
    assert first in hookups && last in hookups;
    assert Uses(first, PortRef(0, Output, 0)) && Uses(first, PortRef(1, Input, 0));
    assert Uses(last, PortRef(1, Output, 0)) && Uses(last, PortRef(2, Input, 0));
  }
}
