/**
 Fair pulling from several inputs (elements/roundRobin.C): an input that had nothing is blocked until it
 calls back, and each pull starts after the input served last.
 */
module RoundRobins {
  import opened Options

  /** The state but for the block count, which is derived. */
  datatype State = State(flags: seq<bool>, next: nat, waiting: bool)

  function CountSet(flags: seq<bool>): (n: nat)
    ensures n <= |flags|
    ensures n == |flags| <==> forall i | 0 <= i < |flags| :: flags[i]
  {
    if flags == [] then 0 else
      var n := CountSet(flags[1..]);
      assert forall i | 0 < i < |flags| :: flags[i] == flags[1..][i - 1];
      assert forall i | 0 <= i < |flags| - 1 :: flags[1..][i] == flags[i + 1];
      n + if flags[0] then 1 else 0
  }

  lemma {:induction false} CountUpdate(flags: seq<bool>, i: nat, b: bool)
    requires i < |flags| && flags[i] != b
    ensures CountSet(flags[i := b]) == if b then CountSet(flags) + 1 else CountSet(flags) - 1
  {
    if i == 0 {
      assert flags[i := b][1..] == flags[1..];
    } else {
      assert flags[i := b][1..] == flags[1..][i - 1 := b];
      CountUpdate(flags[1..], i - 1, b);
    }
  }

  /** How many inputs come before `i` when the round starts at `next`. */
  function Ahead(next: nat, i: nat, n: nat): (d: nat)
    requires next < n && i < n
    ensures d < n
  {
    if i >= next then i - next else i + n - next
  }

  lemma {:induction false} WrapAround(x: nat, n: nat)
    requires x < 2 * n
    ensures x % n == if x < n then x else x - n
  {
    var (q, r) := (x / n, x % n);
    assert x == n * q + r;
    assert n * q >= n * 2 || q < 2;
  }

  /** The input tried at step `k` of a round that starts at `next`. */
  function Slot(next: nat, k: nat, n: nat): (i: nat)
    requires next < n && k < n
    ensures i < n && Ahead(next, i, n) == k
  {
    WrapAround(next + k, n);
    (next + k) % n
  }

  /** The input after `i`. */
  function Following(i: nat, n: nat): (j: nat)
    requires i < n
    ensures j < n && Ahead(j, i, n) == n - 1
  {
    WrapAround(i + 1, n);
    (i + 1) % n
  }

  ghost predicate WellFormed(s: State) {
    && (|s.flags| > 0 ==> s.next < |s.flags|)
    && (s.waiting ==> forall i | 0 <= i < |s.flags| :: s.flags[i])
  }

  /** No input can give a tuple now. */
  ghost predicate NoneReady<T>(s: State, offers: seq<Option<T>>)
    requires |offers| == |s.flags|
  {
    forall i | 0 <= i < |s.flags| :: s.flags[i] || offers[i].None?
  }

  /** Input `v` is the first, from `next` on, that can. */
  ghost predicate FirstReady<T>(s: State, offers: seq<Option<T>>, v: nat)
    requires |offers| == |s.flags|
  {
    && v < |s.flags| && s.next < |s.flags| && !s.flags[v] && offers[v].Some?
    && forall i | 0 <= i < |s.flags| && Ahead(s.next, i, |s.flags|) < Ahead(s.next, v, |s.flags|) ::
         s.flags[i] || offers[i].None?
  }

  /** A pull that takes a tuple from input `v`: the inputs tried before it are blocked now. */
  ghost predicate Serves<T>(s: State, offers: seq<Option<T>>, v: nat, s': State)
    requires |offers| == |s.flags| && FirstReady(s, offers, v)
  {
    && |s'.flags| == |s.flags| && !s.waiting && !s'.waiting
    && s'.next == Following(v, |s.flags|)
    && forall i | 0 <= i < |s.flags| ::
         s'.flags[i] == (s.flags[i] || Ahead(s.next, i, |s.flags|) < Ahead(s.next, v, |s.flags|))
  }

  /** Input `v` is the last of the round that was not blocked. */
  ghost predicate LastTried(s: State, v: nat) {
    && v < |s.flags| && s.next < |s.flags| && !s.flags[v]
    && forall i | 0 <= i < |s.flags| && !s.flags[i] :: Ahead(s.next, i, |s.flags|) <= Ahead(s.next, v, |s.flags|)
  }

  /**
   A pull that finds nothing: every input is blocked, and the puller is remembered.  The next round starts
   after the last input tried, or where this one would have if none was.
   */
  ghost predicate Refuses(s: State, s': State) {
    && |s'.flags| == |s.flags| && s'.waiting
    && (forall i | 0 <= i < |s.flags| :: s'.flags[i])
    && ((forall i | 0 <= i < |s.flags| :: s.flags[i]) ==> s'.next == s.next)
    && (forall v | LastTried(s, v) :: s'.next == Following(v, |s.flags|))
  }

  /** What a pull does, given what each input would answer. */
  ghost predicate PullStep<T>(s: State, offers: seq<Option<T>>, from: Option<nat>, s': State)
    requires |offers| == |s.flags|
  {
    match from
    case Some(v) => FirstReady(s, offers, v) && Serves(s, offers, v, s')
    case None => NoneReady(s, offers) && Refuses(s, s')
  }

  function Given<T>(offers: seq<Option<T>>, from: Option<nat>): Option<T> {
    if from.Some? && from.value < |offers| then offers[from.value] else None
  }

  class RoundRobin<T(!new)> {
    var flags: seq<bool>
    var count: nat
    var next: nat
    var waiting: bool

    ghost predicate Valid()
      reads this
    {
      count == CountSet(flags) && WellFormed(Now())
    }

    ghost function Now(): State
      reads this
    {
      State(flags, next, waiting)
    }

    constructor (n: nat)
      ensures Valid() && Now() == State(seq(n, _ => false), 0, false)
    {
      flags := seq(n, _ => false);
      count, next, waiting := 0, 0, false;
      new;
      NoneSet(flags);
    }

    /** `unblock`: clears the flag, and wakes the puller if one waits. */
    method Unblock(i: nat) returns (woken: bool)
      requires Valid() && i < |flags|
      modifies this
      ensures Valid() && woken == old(waiting)
      ensures Now() == old(Now()).(flags := old(flags)[i := false], waiting := false)
    {
      if flags[i] {
        CountUpdate(flags, i, false);
        flags := flags[i := false];
        count := count - 1;
      }
      woken := waiting;
      if waiting {
        waiting := false;
      }
    }

    /** `pull`: serves the first ready input, or blocks. */
    method Pull(offers: seq<Option<T>>) returns (p: Option<T>, from: Option<nat>)
      requires Valid() && |offers| == |flags|
      modifies this
      ensures Valid() && PullStep(old(Now()), offers, from, Now())
      ensures p == Given(offers, from)
    {
      if count == |flags| {
        if !waiting {
          waiting := true;
        }
        return None, None;
      }
      p, from := Scan(offers);
    }

    /** The loop of `pull`; its end is never reached. */
    method Scan(offers: seq<Option<T>>) returns (p: Option<T>, from: Option<nat>)
      requires Valid() && |offers| == |flags| && count < |flags|
      modifies this
      ensures count == CountSet(flags) && PullStep(old(Now()), offers, from, Now()) == true
      ensures WellFormed(Now()) == true && p == Given(offers, from)
    {
      assert !waiting;
      ghost var s := Now();
      var n := |flags|;
      for i := 0 to n
        invariant next == s.next && !waiting && |flags| == n && |s.flags| == n
        invariant Scanning(s, offers, i, flags, count) == true  // compared, so that it stays folded
      {
        var current := Slot(next, i, n);
        if !flags[current] {
          if offers[current].None? {
            ScanBlock(s, offers, i, flags, count, current);
            flags := flags[current := true];
            count := count + 1;
            if count == n {
              next := Following(current, n);
              waiting := true;
              ScanAll(s, offers, i, flags, current);
              return None, None;
            }
          } else {
            ScanEnds(s, offers, i, flags, current);
            next := Following(current, n);
            return offers[current], Some(current);
          }
        } else {
          ScanSkip(s, offers, i, flags, count, current);
        }
      }
      ScanOver(s, offers, flags);
      assert false;
    }
  }

  lemma {:induction false} NoneSet(flags: seq<bool>)
    requires forall i | 0 <= i < |flags| :: !flags[i]
    ensures CountSet(flags) == 0
  {
    if flags != [] {
      NoneSet(flags[1..]);
    }
  }

  /** After `k` inputs of the round: none of them could give, all of them are blocked. */
  ghost predicate Scanned<T>(s: State, offers: seq<Option<T>>, k: nat, flags: seq<bool>)
    requires |offers| == |s.flags| && s.next < |s.flags|
  {
    && |flags| == |s.flags|
    && (forall i | 0 <= i < |flags| :: flags[i] == (s.flags[i] || Ahead(s.next, i, |flags|) < k))
    && (forall i | 0 <= i < |flags| && Ahead(s.next, i, |flags|) < k :: s.flags[i] || offers[i].None?)
  }

  lemma {:induction false} ScanOne<T>(s: State, offers: seq<Option<T>>, k: nat, flags: seq<bool>, i: nat)
    requires |offers| == |s.flags| && s.next < |s.flags| && Scanned(s, offers, k, flags)
    requires i < |flags| && Ahead(s.next, i, |flags|) == k && (flags[i] || offers[i].None?)
    ensures Scanned(s, offers, k + 1, flags[i := true])
  {
  }

  /** The loop state: some flag is still clear. */
  ghost predicate Scanning<T>(s: State, offers: seq<Option<T>>, k: nat, flags: seq<bool>, count: nat)
    requires |offers| == |s.flags| && s.next < |s.flags|
  {
    Scanned(s, offers, k, flags) && count == CountSet(flags) && count < |flags|
  }

  lemma {:induction false} ScanBlock<T>(s: State, offers: seq<Option<T>>, k: nat, flags: seq<bool>, count: nat, i: nat)
    requires |offers| == |s.flags| && s.next < |s.flags| && Scanning(s, offers, k, flags, count)
    requires i < |flags| && Ahead(s.next, i, |flags|) == k && !flags[i] && offers[i].None?
    ensures var now := flags[i := true];
            Scanned(s, offers, k + 1, now) && CountSet(now) == count + 1 && count + 1 <= |now|
  {
    ScanOne(s, offers, k, flags, i);
    CountUpdate(flags, i, true);
  }

  lemma {:induction false} ScanSkip<T>(s: State, offers: seq<Option<T>>, k: nat, flags: seq<bool>, count: nat, i: nat)
    requires |offers| == |s.flags| && s.next < |s.flags| && Scanning(s, offers, k, flags, count)
    requires i < |flags| && Ahead(s.next, i, |flags|) == k && flags[i]
    ensures Scanning(s, offers, k + 1, flags, count)
  {
    ScanOne(s, offers, k, flags, i);
    assert flags[i := true] == flags;
  }

  lemma {:induction false} ScanAll<T>(s: State, offers: seq<Option<T>>, k: nat, flags: seq<bool>, v: nat)
    requires |offers| == |s.flags| && s.next < |s.flags| && Scanned(s, offers, k + 1, flags)
    requires CountSet(flags) == |flags| && v < |flags| && !s.flags[v] && Ahead(s.next, v, |flags|) == k
    ensures var s' := State(flags, Following(v, |flags|), true);
            PullStep(s, offers, None, s') && WellFormed(s')
  {
    forall w | LastTried(s, w) ensures w == v {
      AheadInjective(s.next, v, w, |flags|);
    }
  }

  lemma {:induction false} AheadInjective(next: nat, i: nat, j: nat, n: nat)
    requires next < n && i < n && j < n
    ensures Ahead(next, i, n) == Ahead(next, j, n) <==> i == j
  {
  }

  lemma {:induction false} ScanEnds<T>(s: State, offers: seq<Option<T>>, k: nat, flags: seq<bool>, v: nat)
    requires |offers| == |s.flags| && s.next < |s.flags| && Scanned(s, offers, k, flags)
    requires v < |flags| && Ahead(s.next, v, |flags|) == k && !flags[v] && offers[v].Some? && !s.waiting
    ensures var s' := State(flags, Following(v, |flags|), false);
            PullStep(s, offers, Some(v), s') && WellFormed(s')
  {
  }

  /** A whole round leaves no flag clear. */
  lemma {:induction false} ScanOver<T>(s: State, offers: seq<Option<T>>, flags: seq<bool>)
    requires |offers| == |s.flags| && s.next < |s.flags| && Scanned(s, offers, |flags|, flags)
    ensures CountSet(flags) == |flags|
  {
  }

  // ---------------------------------------------------------------------------------
  // Runs
  // ---------------------------------------------------------------------------------

  datatype Event<T> = Pulled(offers: seq<Option<T>>) | Unblocked(input: nat)

  predicate Fits<T>(e: Event<T>, n: nat) {
    match e
    case Pulled(offers) => |offers| == n
    case Unblocked(i) => i < n
  }

  ghost predicate Step<T>(s: State, e: Event<T>, from: Option<nat>, s': State) {
    && Fits(e, |s.flags|)
    && match e
       case Pulled(offers) => PullStep(s, offers, from, s')
       case Unblocked(i) => from == None && s' == s.(flags := s.flags[i := false], waiting := false)
  }

  /** `froms[k]` is the input that event `k` served, if any. */
  ghost predicate Trace<T>(n: nat, states: seq<State>, events: seq<Event<T>>, froms: seq<Option<nat>>) {
    && |states| == |events| + 1 && |froms| == |events|
    && (forall k | 0 <= k < |states| :: |states[k].flags| == n && WellFormed(states[k]))
    && (forall k | 0 <= k < |events| :: Step(states[k], events[k], froms[k], states[k + 1]))
  }

  lemma {:induction false} AheadDrops(next: nat, v: nat, i: nat, n: nat)
    requires next < n && v < n && i < n && Ahead(next, v, n) < Ahead(next, i, n)
    ensures Ahead(Following(v, n), i, n) == Ahead(next, i, n) - Ahead(next, v, n) - 1
  {
    WrapAround(v + 1, n);
  }

  /** One pull either serves a ready input or brings its turn nearer, and leaves it unblocked. */
  lemma {:induction false} TurnComesNearer<T>(s: State, offers: seq<Option<T>>, from: Option<nat>, s': State, i: nat)
    requires |offers| == |s.flags| && i < |s.flags| && s.next < |s.flags| && PullStep(s, offers, from, s')
    requires !s.flags[i] && offers[i].Some?
    ensures from.Some?
    ensures from.value != i ==>
              && |s'.flags| == |s.flags| && s'.next < |s.flags| && !s'.flags[i]
              && Ahead(s'.next, i, |s.flags|) < Ahead(s.next, i, |s.flags|)
  {
    if from.value != i {
      AheadDrops(s.next, from.value, i, |s.flags|);
    }
  }

  function Pulls<T>(events: seq<Event<T>>, a: nat, b: nat): nat
    requires a <= b <= |events|
    decreases b - a
  {
    if a == b then 0 else (if events[a].Pulled? then 1 else 0) + Pulls(events, a + 1, b)
  }

  ghost predicate StaysReady<T>(events: seq<Event<T>>, a: nat, b: nat, i: nat)
    requires a <= b <= |events|
  {
    forall k | a <= k < b && events[k].Pulled? :: i < |events[k].offers| && events[k].offers[i].Some?
  }

  ghost predicate Served(froms: seq<Option<nat>>, a: nat, b: nat, i: nat)
    requires a <= b <= |froms|
  {
    exists k | a <= k < b :: froms[k] == Some(i)
  }

  /**
   Fairness: an input that is unblocked and keeps having tuples is served before more pulls pass than
   stand ahead of it, whatever the other inputs do.
   */
  lemma {:induction false} ServedInTurn<T>(n: nat, states: seq<State>, events: seq<Event<T>>, froms: seq<Option<nat>>,
                                           i: nat, a: nat, b: nat)
    requires Trace(n, states, events, froms) && a <= b <= |events| && i < n
    requires !states[a].flags[i] && StaysReady(events, a, b, i)
    requires Pulls(events, a, b) > Ahead(states[a].next, i, n)
    ensures Served(froms, a, b, i)
    decreases b - a
  {
    assert Step(states[a], events[a], froms[a], states[a + 1]);
    if froms[a] != Some(i) {
      if events[a].Pulled? {
        TurnComesNearer(states[a], events[a].offers, froms[a], states[a + 1], i);
      }
      ServedInTurn(n, states, events, froms, i, a + 1, b);
      var k :| a + 1 <= k < b && froms[k] == Some(i);
    }
  }

  /** In particular `n` pulls are enough. */
  lemma {:induction false} ServedWithinARound<T>(n: nat, states: seq<State>, events: seq<Event<T>>,
                                                 froms: seq<Option<nat>>, i: nat, a: nat, b: nat)
    requires Trace(n, states, events, froms) && a <= b <= |events| && i < n
    requires !states[a].flags[i] && StaysReady(events, a, b, i) && Pulls(events, a, b) >= n
    ensures Served(froms, a, b, i)
  {
    ServedInTurn(n, states, events, froms, i, a, b);
  }

  /** Every run of pulls and unblocks follows the steps above, with the block count exact throughout. */
  method Run<T(!new)>(n: nat, events: seq<Event<T>>)
    returns (states: seq<State>, froms: seq<Option<nat>>, given: seq<Option<T>>, count: nat)
    requires forall k | 0 <= k < |events| :: Fits(events[k], n)
    ensures Trace(n, states, events, froms) && states[0] == State(seq(n, _ => false), 0, false)
    ensures count == CountSet(states[|events|].flags)
    ensures |given| == |events|
    ensures forall k | 0 <= k < |events| ::
              given[k] == if events[k].Pulled? then Given(events[k].offers, froms[k]) else None
  {
    var rr := new RoundRobin<T>(n);
    states, froms, given := [State(rr.flags, rr.next, rr.waiting)], [], [];
    for k := 0 to |events|
      invariant fresh(rr) && rr.Valid() && |states| == k + 1 && states[k] == rr.Now()
      invariant Trace(n, states, events[..k], froms) == true
      invariant states[0] == State(seq(n, _ => false), 0, false)
      invariant |given| == k
      invariant forall j | 0 <= j < k ::
                  given[j] == if events[j].Pulled? then Given(events[j].offers, froms[j]) else None
    {
      ghost var s := rr.Now();
      var from: Option<nat> := None;
      var p: Option<T> := None;
      match events[k] {
        case Pulled(offers) => p, from := rr.Pull(offers);
        case Unblocked(i) => var woken := rr.Unblock(i);
      }
      var s' := State(rr.flags, rr.next, rr.waiting);
      assert Step(s, events[k], from, s');
      TraceGrows(n, states, events, froms, k, from, s');
      states, froms, given := states + [s'], froms + [from], given + [p];
    }
    assert events[..|events|] == events;
    count := rr.count;
  }

  lemma {:induction false} TraceGrows<T>(n: nat, states: seq<State>, events: seq<Event<T>>, froms: seq<Option<nat>>,
                                         k: nat, from: Option<nat>, s': State)
    requires k < |events| && Trace(n, states, events[..k], froms)
    requires Step(states[k], events[k], from, s') && WellFormed(s') && |s'.flags| == n
    ensures Trace(n, states + [s'], events[..k + 1], froms + [from])
  {
    var (ss, es, fs) := (states + [s'], events[..k + 1], froms + [from]);
    forall j | 0 <= j < |es| ensures Step(ss[j], es[j], fs[j], ss[j + 1]) {
      if j < k {
        assert Step(states[j], events[..k][j], froms[j], states[j + 1]);
      }
    }
  }
}
