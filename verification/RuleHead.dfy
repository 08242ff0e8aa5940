/**
 Canonical rule heads (overlog/ol_context.C, overlog/parser_util.C): duplicate variables and literals
 in the head of a rule give way to invented variables, which assignments in the body define.
 */
module RuleHeads {

  type Value = int
  type Binding = string -> Value

  /** An argument of a head.  A literal has a value and the text it prints as. */
  datatype Arg =
    | Var(name: string)
    | Lit(value: Value, text: string)
    | Agg(oper: string, name: string)

  /** The assignment `name := rhs`, with a variable or a literal on the right. */
  datatype Assign = Assign(name: string, rhs: Arg)

  /** `toString` of an argument. */
  function Text(a: Arg): string {
    match a
    case Var(name) => name
    case Lit(_, text) => text
    case Agg(oper, name) => oper + "< " + name + " >"
  }

  // ---------------------------------------------------------------------------------
  // Invented names
  // ---------------------------------------------------------------------------------

  function Digit(d: nat): char
    requires d < 10
  {
    "0123456789"[d]
  }

  function Decimal(n: nat): (s: string)
    ensures s != []
  {
    if n < 10 then [Digit(n)] else Decimal(n / 10) + [Digit(n % 10)]
  }

  lemma {:induction false} DigitInjective(c: nat, d: nat)
    requires c < 10 && d < 10 && Digit(c) == Digit(d)
    ensures c == d
  {
  }

  lemma {:induction false} DecimalInjective(m: nat, n: nat)
    requires Decimal(m) == Decimal(n)
    ensures m == n
  {
    var (s, t) := (Decimal(m), Decimal(n));
    assert s[|s| - 1] == Digit(m % 10) && t[|t| - 1] == Digit(n % 10);
    DigitInjective(m % 10, n % 10);
    assert m >= 10 <==> |s| > 1;
    assert n >= 10 <==> |t| > 1;
    if m >= 10 {
      assert Decimal(m / 10) == s[..|s| - 1] && Decimal(n / 10) == t[..|t| - 1];
      DecimalInjective(m / 10, n / 10);
    }
  }

  lemma {:induction false} DecimalDigits(n: nat)
    ensures forall c | c in Decimal(n) :: '0' <= c <= '9'
  {
    if n >= 10 {
      DecimalDigits(n / 10);
    }
  }

  /** The number that a string of digits stands for. */
  function Number(s: string): int {
    if s == "" then 0 else 10 * Number(s[..|s| - 1]) + (s[|s| - 1] as int - '0' as int)
  }

  lemma {:induction false} DecimalReads(n: nat)
    ensures Number(Decimal(n)) == n && (n > 0 ==> Decimal(n)[0] != '0')
  {
    var s := Decimal(n);
    if n < 10 {
      assert s[..0] == "" && s[0] as int - '0' as int == n;
    } else {
      DecimalReads(n / 10);
      assert s[..|s| - 1] == Decimal(n / 10) && s[0] == Decimal(n / 10)[0];
      assert s[|s| - 1] as int - '0' as int == n % 10;
    }
  }

  /** The `m`th invented name, counting from 0. */
  function Invented(m: nat): string {
    "$" + Decimal(m + 1)
  }

  lemma {:induction false} InventedInjective(m: nat, n: nat)
    requires Invented(m) == Invented(n)
    ensures m == n
  {
    assert Invented(m)[1..] == Decimal(m + 1) && Invented(n)[1..] == Decimal(n + 1);
    DecimalInjective(m + 1, n + 1);
  }

  /** Variables of the language start with a capital, and `_` becomes "$_" and a number. */
  predicate Lexed(name: string) {
    && name != []
    && ('A' <= name[0] <= 'Z' || (|name| >= 2 && name[..2] == "$_"))
    && '<' !in name
  }

  /** An argument as the parser makes it; an aggregate may be over "*". */
  predicate Parsed(a: Arg) {
    match a
    case Var(name) => Lexed(name)
    case Lit(_, _) => true
    case Agg(_, name) => Lexed(name) || name == "*"
  }

  lemma {:induction false} LexedNotInvented(name: string, m: nat)
    requires Lexed(name)
    ensures name != Invented(m)
  {
    DecimalDigits(m + 1);
    assert Decimal(m + 1)[0] in Decimal(m + 1);
    assert Invented(m)[1] == Decimal(m + 1)[0];
    assert |name| >= 2 && name[..2] == "$_" ==> name[1] == '_';
  }

  // ---------------------------------------------------------------------------------
  // Meaning
  // ---------------------------------------------------------------------------------

  /** What an argument contributes to the head tuple; an aggregate, the value it aggregates. */
  function Eval(a: Arg, b: Binding): Value {
    match a
    case Var(name) => b(name)
    case Lit(value, _) => value
    case Agg(_, name) => b(name)
  }

  function Bind(b: Binding, name: string, v: Value): Binding {
    x => if x == name then v else b(x)
  }

  /** A binding extended by the first `n` assignments, in order. */
  function Extended(b: Binding, assigns: seq<Assign>, n: nat): Binding
    requires n <= |assigns|
  {
    if n == 0 then b else
      var e := Extended(b, assigns, n - 1);
      Bind(e, assigns[n - 1].name, Eval(assigns[n - 1].rhs, e))
  }

  lemma {:induction false} ExtendedElsewhere(b: Binding, assigns: seq<Assign>, n: nat, x: string)
    requires n <= |assigns| && forall m | 0 <= m < n :: assigns[m].name != x
    ensures Extended(b, assigns, n)(x) == b(x)
  {
    if n > 0 {
      ExtendedElsewhere(b, assigns, n - 1, x);
    }
  }

  lemma {:induction false} ExtendedAt(b: Binding, assigns: seq<Assign>, m: nat, n: nat)
    requires m < n <= |assigns| && forall k | m < k < n :: assigns[k].name != assigns[m].name
    ensures Extended(b, assigns, n)(assigns[m].name) == Eval(assigns[m].rhs, Extended(b, assigns, m))
  {
    if m < n - 1 {
      ExtendedAt(b, assigns, m, n - 1);
    }
  }

  /** Under the extended binding the new head denotes the tuple that the old one denoted. */
  ghost predicate SameTuple(orig: seq<Arg>, args: seq<Arg>, assigns: seq<Assign>, b: Binding)
    requires |args| == |orig|
  {
    forall j | 0 <= j < |orig| :: Eval(args[j], Extended(b, assigns, |assigns|)) == Eval(orig[j], b)
  }

  /** Aggregates stay; every other position holds a variable, and no two hold the same. */
  ghost predicate Canonical(orig: seq<Arg>, args: seq<Arg>)
    requires |args| == |orig|
  {
    && (forall j | 0 <= j < |orig| :: if orig[j].Agg? then args[j] == orig[j] else args[j].Var?)
    && (forall i, j | 0 <= i < j < |args| && args[i].Var? :: args[i] != args[j])
  }

  /** The law: a canonical head with the meaning of the old one. */
  ghost predicate Preserves(orig: seq<Arg>, args: seq<Arg>, assigns: seq<Assign>)
    requires |args| == |orig|
  {
    Canonical(orig, args) && forall b: Binding :: SameTuple(orig, args, assigns, b)
  }

  /** Some variable of the head, aggregated or not, has one of the first `n` invented names. */
  ghost predicate Clashes(orig: seq<Arg>, n: nat) {
    exists j, m: nat | 0 <= j < |orig| && m < n :: !orig[j].Lit? && orig[j].name == Invented(m)
  }

  // ---------------------------------------------------------------------------------
  // The loop
  // ---------------------------------------------------------------------------------

  ghost predicate Occurs(args: seq<Arg>, n: nat, a: Arg)
    requires n <= |args|
  {
    exists h | 0 <= h < n :: args[h] == a
  }

  /** The replacement numbered `m`, at position `j`. */
  ghost predicate Replaced(orig: seq<Arg>, args: seq<Arg>, assigns: seq<Assign>, m: nat, j: nat)
    requires |args| == |orig| && m < |assigns| && j < |orig|
  {
    && args[j] == Var(Invented(m)) && assigns[m] == Assign(Invented(m), orig[j]) && !orig[j].Agg?
    && (orig[j].Var? ==> Occurs(args, j, orig[j]))
  }

  ghost predicate Kept(orig: seq<Arg>, args: seq<Arg>, j: nat)
    requires |args| == |orig| && j < |orig|
  {
    args[j] == orig[j] && !orig[j].Lit? && (orig[j].Var? ==> !Occurs(args, j, orig[j]))
  }

  /** After `i` positions; `at` lists the positions replaced. */
  ghost predicate Rewritten(orig: seq<Arg>, i: nat, args: seq<Arg>, assigns: seq<Assign>, at: seq<nat>) {
    && |args| == |orig| && i <= |orig| && |at| == |assigns|
    && (forall m | 0 <= m < |at| :: at[m] < i && Replaced(orig, args, assigns, m, at[m]))
    && (forall m, n | 0 <= m < n < |at| :: at[m] < at[n])
    && (forall j | 0 <= j < i && j !in at :: Kept(orig, args, j))
    && (forall j | i <= j < |orig| :: args[j] == orig[j])
  }

  lemma {:induction false} OccursSame(args: seq<Arg>, args': seq<Arg>, n: nat, a: Arg)
    requires n <= |args| && n <= |args'| && forall h | 0 <= h < n :: args[h] == args'[h]
    ensures Occurs(args, n, a) <==> Occurs(args', n, a)
  {
  }

  lemma {:induction false} RewriteReplace(orig: seq<Arg>, i: nat, args: seq<Arg>, assigns: seq<Assign>, at: seq<nat>)
    requires Rewritten(orig, i, args, assigns, at) && i < |orig|
    requires orig[i].Lit? || (orig[i].Var? && Occurs(args, i, orig[i]))
    ensures var x := Invented(|assigns|);
            Rewritten(orig, i + 1, args[i := Var(x)], assigns + [Assign(x, orig[i])], at + [i])
  {
    var x := Invented(|assigns|);
    var (args', assigns', at') := (args[i := Var(x)], assigns + [Assign(x, orig[i])], at + [i]);
    forall m | 0 <= m < |at'| ensures at'[m] < i + 1 && Replaced(orig, args', assigns', m, at'[m]) {
      OccursSame(args, args', at'[m], orig[at'[m]]);
      assert m < |at| ==> Replaced(orig, args, assigns, m, at[m]);
    }
    forall j | 0 <= j < i + 1 && j !in at' ensures Kept(orig, args', j) {
      OccursSame(args, args', j, orig[j]);
      assert i in at' && j !in at && Kept(orig, args, j);
    }
  }

  lemma {:induction false} RewriteKeep(orig: seq<Arg>, i: nat, args: seq<Arg>, assigns: seq<Assign>, at: seq<nat>)
    requires Rewritten(orig, i, args, assigns, at) && i < |orig|
    requires orig[i].Agg? || (orig[i].Var? && !Occurs(args, i, orig[i]))
    ensures Rewritten(orig, i + 1, args, assigns, at)
  {
  }

  /** The arguments of a functor, searched and replaced in place. */
  class Functor {
    var args: seq<Arg>

    constructor (args: seq<Arg>)
      ensures this.args == args
    {
      this.args := args;
    }

    method Find(name: string) returns (p: int)
      ensures p == -1 ==> forall j | 0 <= j < |args| :: Text(args[j]) != name
      ensures p != -1 ==> 0 <= p < |args| && Text(args[p]) == name && forall j | 0 <= j < p :: Text(args[j]) != name
    {
      p := 0;
      while p < |args| && Text(args[p]) != name
        invariant 0 <= p <= |args| && forall j | 0 <= j < p :: Text(args[j]) != name
      {
        p := p + 1;
      }
      if p >= |args| {
        p := -1;
      }
    }

    method Replace(p: nat, e: Arg)
      requires p < |args|
      modifies this
      ensures args == old(args)[p := e]
    {
      var rest := args[..p] + args[p + 1..];
      args := rest[..p] + [e] + rest[p..];
    }
  }

  lemma {:induction false} AggTextHasAngle(a: Arg)
    requires a.Agg?
    ensures '<' in Text(a)
  {
    assert Text(a)[|a.oper|] == '<';
  }

  /** A variable printed before position `i` is that variable, since literals there are gone. */
  lemma {:induction false} FoundIsVariable(orig: seq<Arg>, i: nat, args: seq<Arg>, assigns: seq<Assign>,
                                           at: seq<nat>, j: nat, name: string)
    requires Rewritten(orig, i, args, assigns, at) && j < i && '<' !in name
    ensures Text(args[j]) == name <==> args[j] == Var(name)
  {
    if m :| 0 <= m < |at| && at[m] == j {
      assert Replaced(orig, args, assigns, m, at[m]);
    } else {
      assert j !in at && Kept(orig, args, j);
      if args[j].Agg? {
        AggTextHasAngle(args[j]);
      }
    }
  }

  /** Variable names as the lexer makes them have no '<', so none prints like an aggregate. */
  ghost predicate Readable(orig: seq<Arg>) {
    forall j | 0 <= j < |orig| && orig[j].Var? :: '<' !in orig[j].name
  }

  /** The head part of `rule`. */
  method Canonicalise(h: Functor) returns (assigns: seq<Assign>, ghost at: seq<nat>)
    requires Readable(h.args)
    modifies h
    ensures Rewritten(old(h.args), |old(h.args)|, h.args, assigns, at)
  {
    assigns, at := [], [];
    ghost var orig := h.args;
    var fictVarNum := 1;
    for i := 0 to |h.args|
      invariant Rewritten(orig, i, h.args, assigns, at) && fictVarNum == |assigns| + 1
    {
      var a := h.args[i];
      match a {
        case Agg(_, _) =>
          RewriteKeep(orig, i, h.args, assigns, at);
        case Var(name) =>
          var loc := h.Find(name);
          assert Text(h.args[i]) == name;
          FoundBefore(orig, i, h.args, assigns, at, loc);
          if loc < i {
            RewriteReplace(orig, i, h.args, assigns, at);
            var tmp := Var("$" + Decimal(fictVarNum));
            fictVarNum := fictVarNum + 1;
            h.Replace(i, tmp);
            assigns, at := assigns + [Assign(tmp.name, h.args[loc])], at + [i];
          } else {
            RewriteKeep(orig, i, h.args, assigns, at);
          }
        case Lit(_, _) =>
          RewriteReplace(orig, i, h.args, assigns, at);
          var tmp := Var("$" + Decimal(fictVarNum));
          fictVarNum := fictVarNum + 1;
          h.Replace(i, tmp);
          assigns, at := assigns + [Assign(tmp.name, a)], at + [i];
      }
    }
  }

  lemma {:induction false} FoundBefore(orig: seq<Arg>, i: nat, args: seq<Arg>, assigns: seq<Assign>, at: seq<nat>,
                                       loc: int)
    requires Rewritten(orig, i, args, assigns, at) && i < |orig| && orig[i].Var? && '<' !in orig[i].name
    requires 0 <= loc <= i && Text(args[loc]) == orig[i].name
    requires forall j | 0 <= j < loc :: Text(args[j]) != orig[i].name
    ensures loc < i <==> Occurs(args, i, orig[i])
    ensures args[loc] == orig[i]
  {
    forall j | 0 <= j < i ensures Text(args[j]) == orig[i].name <==> args[j] == orig[i] {
      FoundIsVariable(orig, i, args, assigns, at, j, orig[i].name);
    }
  }

  // ---------------------------------------------------------------------------------
  // The law and its exact condition
  // ---------------------------------------------------------------------------------

  /** Every position is one of the two kinds. */
  lemma {:induction false} Position(orig: seq<Arg>, args: seq<Arg>, assigns: seq<Assign>, at: seq<nat>,
                                    j: nat) returns (m: int)
    requires Rewritten(orig, |orig|, args, assigns, at) && j < |orig|
    ensures m == -1 ==> Kept(orig, args, j)
    ensures m != -1 ==> 0 <= m < |at| && at[m] == j && Replaced(orig, args, assigns, m, j)
  {
    if j in at {
      m :| 0 <= m < |at| && at[m] == j;
    } else {
      m := -1;
    }
  }

  lemma {:induction false} InventedValue(orig: seq<Arg>, args: seq<Arg>, assigns: seq<Assign>, at: seq<nat>,
                                         b: Binding, m: nat, n: nat)
    requires Rewritten(orig, |orig|, args, assigns, at) && m < n <= |assigns|
    ensures Extended(b, assigns, n)(Invented(m)) == Eval(orig[at[m]], Extended(b, assigns, m))
  {
    assert Replaced(orig, args, assigns, m, at[m]);
    forall k | m < k < n ensures assigns[k].name != assigns[m].name {
      assert Replaced(orig, args, assigns, k, at[k]);
      if assigns[k].name == assigns[m].name {
        InventedInjective(k, m);
      }
    }
    ExtendedAt(b, assigns, m, n);
  }

  lemma {:induction false} OtherValue(orig: seq<Arg>, args: seq<Arg>, assigns: seq<Assign>, at: seq<nat>, b: Binding,
                                      n: nat, x: string)
    requires Rewritten(orig, |orig|, args, assigns, at) && n <= |assigns|
    requires forall m: nat | m < n :: x != Invented(m)
    ensures Extended(b, assigns, n)(x) == b(x)
  {
    forall m | 0 <= m < n ensures assigns[m].name != x {
      assert Replaced(orig, args, assigns, m, at[m]);
    }
    ExtendedElsewhere(b, assigns, n, x);
  }

  /** A head without clashing names: each argument means what it meant. */
  lemma {:induction false} NoClashSameValue(orig: seq<Arg>, args: seq<Arg>, assigns: seq<Assign>, at: seq<nat>,
                                            b: Binding, j: nat)
    requires Rewritten(orig, |orig|, args, assigns, at) && !Clashes(orig, |assigns|) && j < |orig|
    ensures Eval(args[j], Extended(b, assigns, |assigns|)) == Eval(orig[j], b)
  {
    var m := Position(orig, args, assigns, at, j);
    if m == -1 {
      OtherValue(orig, args, assigns, at, b, |assigns|, orig[j].name);
    } else {
      InventedValue(orig, args, assigns, at, b, m, |assigns|);
      if orig[j].Var? {
        OtherValue(orig, args, assigns, at, b, m, orig[j].name);
      }
    }
  }

  lemma {:induction false} NoClashDistinct(orig: seq<Arg>, args: seq<Arg>, assigns: seq<Assign>, at: seq<nat>,
                                           i: nat, j: nat)
    requires Rewritten(orig, |orig|, args, assigns, at) && !Clashes(orig, |assigns|)
    requires i < j < |orig| && args[i].Var?
    ensures args[i] != args[j]
  {
    var m := Position(orig, args, assigns, at, i);
    var n := Position(orig, args, assigns, at, j);
    if args[i] == args[j] {
      if n == -1 {
        assert Occurs(args, j, orig[j]);
      } else if m != -1 {
        InventedInjective(m, n);
      }
    }
  }

  lemma {:induction false} NoClashPreserves(orig: seq<Arg>, args: seq<Arg>, assigns: seq<Assign>, at: seq<nat>)
    requires Rewritten(orig, |orig|, args, assigns, at) && !Clashes(orig, |assigns|)
    ensures Preserves(orig, args, assigns)
  {
    forall b: Binding ensures SameTuple(orig, args, assigns, b) {
      forall j | 0 <= j < |orig| ensures Eval(args[j], Extended(b, assigns, |assigns|)) == Eval(orig[j], b) {
        NoClashSameValue(orig, args, assigns, at, b, j);
      }
    }
    forall j | 0 <= j < |orig| ensures if orig[j].Agg? then args[j] == orig[j] else args[j].Var? {
      var m := Position(orig, args, assigns, at, j);
    }
    forall i, j | 0 <= i < j < |args| && args[i].Var? ensures args[i] != args[j] {
      NoClashDistinct(orig, args, assigns, at, i, j);
    }
  }

  /** In a canonical result, no variable called `Invented(m)` was replaced up to position `at[m]`. */
  lemma {:induction false} NotReplacedEarlier(orig: seq<Arg>, args: seq<Arg>, assigns: seq<Assign>, at: seq<nat>,
                                              m: nat, k: nat)
    requires Rewritten(orig, |orig|, args, assigns, at) && Canonical(orig, args)
    requires k <= m < |assigns|
    ensures orig[at[k]] != Var(Invented(m))
  {
    assert Replaced(orig, args, assigns, k, at[k]) && Replaced(orig, args, assigns, m, at[m]);
    assert forall h | 0 <= h < at[k] :: args[h] != args[at[m]];
  }

  /** The value that `Invented(m)` is given does not depend on what it was bound to. */
  lemma {:induction false} ValueIndependent(orig: seq<Arg>, args: seq<Arg>, assigns: seq<Assign>, at: seq<nat>,
                                            b: Binding, c: Binding, m: nat, n: nat, x: string)
    requires Rewritten(orig, |orig|, args, assigns, at) && Canonical(orig, args) && n <= m < |assigns|
    requires x != Invented(m) && forall y: string | y != Invented(m) :: b(y) == c(y)
    ensures Extended(b, assigns, n)(x) == Extended(c, assigns, n)(x)
  {
    if n > 0 {
      assert Replaced(orig, args, assigns, n - 1, at[n - 1]);
      ValueIndependent(orig, args, assigns, at, b, c, m, n - 1, x);
      NotReplacedEarlier(orig, args, assigns, at, m, n - 1);
      if orig[at[n - 1]].Var? {
        ValueIndependent(orig, args, assigns, at, b, c, m, n - 1, orig[at[n - 1]].name);
      }
    }
  }

  /** The binding of `name` to `v`, and of everything else to 0. */
  function Only(name: string, v: Value): Binding {
    Bind(_ => 0, name, v)
  }

  /** The value that `Invented(m)` ends up with, whatever it was bound to. */
  lemma {:induction false} GivenValue(orig: seq<Arg>, args: seq<Arg>, assigns: seq<Assign>, at: seq<nat>, m: nat,
                                      v: Value, n: nat)
    requires Rewritten(orig, |orig|, args, assigns, at) && Canonical(orig, args) && m < n <= |assigns|
    ensures Extended(Only(Invented(m), v), assigns, n)(Invented(m)) ==
            Eval(orig[at[m]], Extended(Only(Invented(m), 0), assigns, m))
  {
    var (b, c) := (Only(Invented(m), 0), Only(Invented(m), v));
    InventedValue(orig, args, assigns, at, c, m, n);
    assert Replaced(orig, args, assigns, m, at[m]);
    NotReplacedEarlier(orig, args, assigns, at, m, m);
    if orig[at[m]].Var? {
      ValueIndependent(orig, args, assigns, at, b, c, m, m, orig[at[m]].name);
    }
  }

  /** A clash breaks the law: either two positions share a variable, or some binding shows the difference. */
  lemma {:induction false} ClashBreaks(orig: seq<Arg>, args: seq<Arg>, assigns: seq<Assign>, at: seq<nat>)
    requires Rewritten(orig, |orig|, args, assigns, at) && Clashes(orig, |assigns|)
    ensures !Preserves(orig, args, assigns)
  {
    if Canonical(orig, args) {
      var p, m: nat :| 0 <= p < |orig| && m < |assigns| && !orig[p].Lit? && orig[p].name == Invented(m);
      var w := Eval(orig[at[m]], Extended(Only(Invented(m), 0), assigns, m));
      var b := Only(Invented(m), w + 1);
      GivenValue(orig, args, assigns, at, m, w + 1, |assigns|);
      assert Eval(orig[p], b) == w + 1;
      var k := Position(orig, args, assigns, at, p);
      if k != -1 {
        assert orig[p] == Var(Invented(m));
        if k <= m {
          NotReplacedEarlier(orig, args, assigns, at, m, k);
        } else {
          GivenValue(orig, args, assigns, at, m, w + 1, k);
          InventedValue(orig, args, assigns, at, b, k, |assigns|);
        }
      }
      assert Eval(args[p], Extended(b, assigns, |assigns|)) == w;
      assert !SameTuple(orig, args, assigns, b);
    }
  }

  lemma {:induction false} ParsedHeadsDoNotClash(orig: seq<Arg>, n: nat)
    requires forall j | 0 <= j < |orig| :: Parsed(orig[j])
    ensures !Clashes(orig, n)
  {
    forall j, m: nat | 0 <= j < |orig| && m < n && !orig[j].Lit? ensures orig[j].name != Invented(m) {
      assert Parsed(orig[j]);
      if orig[j].name != "*" {
        LexedNotInvented(orig[j].name, m);
      } else {
        assert Invented(m)[0] == '$';
      }
    }
  }

  /** The condition is not idle: of a head with such a name, the second argument would come to mean 5 as well. */
  lemma {:induction false} HeadThatClashes()
    ensures Clashes([Lit(5, "5"), Var("$1")], 1)
  {
    var orig := [Lit(5, "5"), Var("$1")];
    assert Decimal(1) == "1";
    assert !orig[1].Lit? && orig[1].name == Invented(0);
  }

  /**
   Canonicalisation of any head: it is canonical and means the same exactly when no variable of the head
   has an invented name, and it always is for heads that come from the parser.
   */
  method CanonicalHead(orig: seq<Arg>) returns (args: seq<Arg>, assigns: seq<Assign>)
    requires Readable(orig)
    ensures |args| == |orig|
    ensures Preserves(orig, args, assigns) <==> !Clashes(orig, |assigns|)
    ensures (forall j | 0 <= j < |orig| :: Parsed(orig[j])) ==> Preserves(orig, args, assigns)
  {
    var h := new Functor(orig);
    ghost var at;
    assigns, at := Canonicalise(h);
    args := h.args;
    if Clashes(orig, |assigns|) {
      ClashBreaks(orig, args, assigns, at);
    } else {
      NoClashPreserves(orig, args, assigns, at);
    }
    if forall j | 0 <= j < |orig| :: Parsed(orig[j]) {
      ParsedHeadsDoNotClash(orig, |assigns|);
    }
  }
}
