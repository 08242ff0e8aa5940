/**
 In-order delivery (net/odelivery.C): tuples of one source are held back until their predecessors have
 come through, the output port is open, or a timer gives up on the missing ones.
 */
module OrderedDelivery {

  datatype Packet = Packet(seqNum: int, data: string)

  ghost predicate Increasing(s: seq<Packet>) {
    forall i, j | 0 <= i < j < |s| :: s[i].seqNum < s[j].seqNum
  }

  /** The sequence with `p` placed before the first packet with a higher number. */
  function Placed(s: seq<Packet>, p: Packet): (r: seq<Packet>)
    ensures |r| == |s| + 1
  {
    if s == [] || p.seqNum < s[0].seqNum then [p] + s else [s[0]] + Placed(s[1..], p)
  }

  lemma {:induction false} PlacedAt(s: seq<Packet>, p: Packet, i: nat)
    requires i <= |s| && (forall k | 0 <= k < i :: s[k].seqNum < p.seqNum)
    requires i < |s| ==> p.seqNum < s[i].seqNum
    ensures Placed(s, p) == s[..i] + [p] + s[i..]
  {
    if i == 0 {
      assert s[..i] + [p] + s[i..] == [p] + s;
    } else {
      PlacedAt(s[1..], p, i - 1);
      assert s[..i] + [p] + s[i..] == [s[0]] + (s[1..][..i - 1] + [p] + s[1..][i - 1..]);
    }
  }

  /** Where `p` goes in a sequence. */
  lemma {:induction false} PlaceOf(s: seq<Packet>, p: Packet) returns (i: nat)
    requires Increasing(s) && forall k | 0 <= k < |s| :: s[k].seqNum != p.seqNum
    ensures i <= |s| && Placed(s, p) == s[..i] + [p] + s[i..]
    ensures forall k | 0 <= k < |s| :: k < i <==> s[k].seqNum < p.seqNum
  {
    i := 0;
    while i < |s| && s[i].seqNum < p.seqNum
      invariant 0 <= i <= |s| && forall k | 0 <= k < i :: s[k].seqNum < p.seqNum
    {
      i := i + 1;
    }
    PlacedAt(s, p, i);
  }

  lemma {:induction false} PlacedProperties(s: seq<Packet>, p: Packet)
    requires Increasing(s) && forall k | 0 <= k < |s| :: s[k].seqNum != p.seqNum
    ensures Increasing(Placed(s, p)) && multiset(Placed(s, p)) == multiset(s) + multiset{p}
    ensures forall k | 0 <= k < |s| && s[k].seqNum < p.seqNum :: Placed(s, p)[k] == s[k]
  {
    var i := PlaceOf(s, p);
    InsertedProperties(s, p, i);
  }

  lemma {:induction false} InsertedProperties(s: seq<Packet>, p: Packet, i: nat)
    requires Increasing(s) && i <= |s|
    requires forall k | 0 <= k < |s| :: k < i <==> s[k].seqNum < p.seqNum
    requires forall k | 0 <= k < |s| :: s[k].seqNum != p.seqNum
    ensures var r := s[..i] + [p] + s[i..];
            && Increasing(r) && multiset(r) == multiset(s) + multiset{p}
            && forall k | 0 <= k < |s| && s[k].seqNum < p.seqNum :: r[k] == s[k]
  {
    assert s == s[..i] + s[i..];
  }

  /** Placing into the tail places into the whole, if the head stays below. */
  lemma {:induction false} PlacedAfter(head: seq<Packet>, tail: seq<Packet>, p: Packet)
    requires forall k | 0 <= k < |head| :: head[k].seqNum < p.seqNum
    ensures Placed(head + tail, p) == head + Placed(tail, p)
  {
    if head == [] {
      assert head + tail == tail;
    } else {
      assert (head + tail)[0] == head[0] && (head + tail)[1..] == head[1..] + tail;
      PlacedAfter(head[1..], tail, p);
    }
  }

  /**
   The accepted packets: possibly one below the opening number, then numbers from there on; those up to
   `next` follow each other without a gap.
   */
  ghost predicate WellOpened(line: seq<Packet>, k: nat, first: int) {
    && k <= 1 && k <= |line|
    && (forall i | 0 <= i < k :: line[i].seqNum < first)
    && (forall i | k <= i < |line| :: line[i].seqNum >= first)
  }

  ghost predicate GapFree(line: seq<Packet>, k: nat, first: int, next: int) {
    && first <= next && k + (next - first) <= |line|
    && forall i | k <= i < k + (next - first) :: line[i].seqNum == first + (i - k)
  }

  /** The gap-free part is exactly what lies below `next`. */
  lemma {:induction false} GapFreeBelow(line: seq<Packet>, k: nat, first: int, next: int, i: nat)
    requires Increasing(line) && WellOpened(line, k, first) && GapFree(line, k, first, next) && i < |line|
    ensures line[i].seqNum < next <==> i < k + (next - first)
  {
    if i >= k + (next - first) && next > first {
      assert line[k + (next - first) - 1].seqNum == next - 1;
    }
  }

  /** The next expected number is there: the gap-free part grows by it. */
  lemma {:induction false} GapFreeGrows(line: seq<Packet>, k: nat, first: int, next: int, i: nat)
    requires Increasing(line) && WellOpened(line, k, first) && GapFree(line, k, first, next)
    requires i < |line| && line[i].seqNum == next && i <= k + (next - first)
    ensures i == k + (next - first) && GapFree(line, k, first, next + 1)
  {
    GapFreeBelow(line, k, first, next, i);
  }

  /** Moving the sequence pointer over the packets that fill the hole. */
  function Advance(queue: seq<Packet>, next: int): int {
    if queue != [] && queue[0].seqNum == next then Advance(queue[1..], next + 1) else next
  }

  /** The pointer stops at the first number that does not continue the queue from its front. */
  lemma {:induction false} AdvanceExact(queue: seq<Packet>, next: int)
    ensures var k := Advance(queue, next) - next;
            && 0 <= k <= |queue| && (forall i | 0 <= i < k :: queue[i].seqNum == next + i)
            && (k < |queue| ==> queue[k].seqNum != next + k)
  {
    if queue != [] && queue[0].seqNum == next {
      AdvanceExact(queue[1..], next + 1);
    }
  }

  lemma {:induction false} AdvanceKeepsGapFree(line: seq<Packet>, d: nat, k: nat, first: int, next: int)
    requires Increasing(line) && WellOpened(line, k, first) && GapFree(line, k, first, next)
    requires d <= |line| && d <= k + (next - first)
    ensures var next' := Advance(line[d..], next);
            next' >= next && GapFree(line, k, first, next')
    decreases |line| - d
  {
    if d < |line| && line[d].seqNum == next {
      GapFreeGrows(line, k, first, next, d);
      AdvanceKeepsGapFree(line, d + 1, k, first, next + 1);
      assert line[d..][1..] == line[d + 1..];
    }
  }

  lemma {:induction false} AdvanceGrows(queue: seq<Packet>, next: int)
    ensures Advance(queue, next) >= next
    ensures Increasing(queue) && queue != [] && next <= queue[|queue| - 1].seqNum + 1 ==>
              Advance(queue, next) <= queue[|queue| - 1].seqNum + 1
  {
    if queue != [] && queue[0].seqNum == next {
      AdvanceGrows(queue[1..], next + 1);
    }
  }

  ghost predicate HasNumber(line: seq<Packet>, k: int) {
    exists i | 0 <= i < |line| :: line[i].seqNum == k
  }

  /** Every number from `a` up to, but not including, `b` is in the line. */
  ghost predicate Passed(line: seq<Packet>, a: int, b: int) {
    forall k | a <= k < b :: HasNumber(line, k)
  }

  lemma {:induction false} PassedOn(line: seq<Packet>, a: int, b: int, c: int)
    requires Passed(line, a, b) == true && Passed(line, b, c) == true
    ensures Passed(line, a, c) == true
  {
  }

  lemma {:induction false} AdvancePasses(queue: seq<Packet>, next: int)
    ensures Passed(queue, next, Advance(queue, next))
  {
    if queue != [] && queue[0].seqNum == next {
      AdvancePasses(queue[1..], next + 1);
      forall k | next <= k < Advance(queue, next) ensures HasNumber(queue, k) {
        if k > next {
          assert HasNumber(queue[1..], k);
          var i :| 0 <= i < |queue[1..]| && queue[1..][i].seqNum == k;
          assert queue[i + 1].seqNum == k;
        }
      }
    }
  }

  lemma {:induction false} PassedInLine(delivered: seq<Packet>, queue: seq<Packet>, a: int, b: int)
    requires Passed(queue, a, b)
    ensures Passed(delivered + queue, a, b)
  {
    forall k | a <= k < b ensures HasNumber(delivered + queue, k) {
      assert HasNumber(queue, k);
      var i :| 0 <= i < |queue| && queue[i].seqNum == k;
      assert (delivered + queue)[|delivered| + i].seqNum == k;
    }
  }

  lemma {:induction false} PlacedMembers(s: seq<Packet>, p: Packet)
    ensures forall x :: x in Placed(s, p) <==> x in s || x == p
  {
    if s != [] && p.seqNum >= s[0].seqNum {
      PlacedMembers(s[1..], p);
      assert s == [s[0]] + s[1..];
    }
  }

  lemma {:induction false} PlacedNumbers(s: seq<Packet>, p: Packet)
    ensures HasNumber(Placed(s, p), p.seqNum)
    ensures forall k | HasNumber(s, k) :: HasNumber(Placed(s, p), k)
  {
    PlacedMembers(s, p);
    var r := Placed(s, p);
    assert p in r;
    forall k | HasNumber(s, k) ensures HasNumber(r, k) {
      var i :| 0 <= i < |s| && s[i].seqNum == k;
      assert s[i] in r;
    }
  }

  /** A packet above everything settled enters the line without disturbing the gap-free part. */
  lemma {:induction false} PlacingKeepsGapFree(line: seq<Packet>, p: Packet, k: nat, first: int, next: int)
    requires Increasing(line) && WellOpened(line, k, first) && GapFree(line, k, first, next)
    requires p.seqNum >= next && forall i | 0 <= i < |line| :: line[i].seqNum != p.seqNum
    ensures WellOpened(Placed(line, p), k, first) && GapFree(Placed(line, p), k, first, next)
  {
    PlacedProperties(line, p);
    PlacedOpens(line, p, k, first);
    forall j | 0 <= j < k + (next - first) ensures Placed(line, p)[j] == line[j] {
      GapFreeBelow(line, k, first, next, j);
    }
  }

  function Below(first: Packet, opening: int): nat {
    if first.seqNum < opening then 1 else 0
  }

  /**
   What holds of the accepted packets `line` of an open connection, of which the first `d` have been
   delivered and `next` is expected; the connection was opened by `first` at number `opening`.
   */
  ghost predicate LineValid(line: seq<Packet>, d: nat, next: int, opening: int, first: Packet, timedOut: bool) {
    var k := Below(first, opening);
    && Increasing(line) && d <= |line| && opening <= next
    && (forall i | 0 <= i < d :: line[i].seqNum < next)
    && WellOpened(line, k, opening) && (k == 1 ==> line[0] == first)
    && (!timedOut ==> GapFree(line, k, opening, next) && d <= k + (next - opening))
  }

  lemma {:induction false} DeliverStep(line: seq<Packet>, d: nat, next: int, opening: int, first: Packet,
                                       timedOut: bool)
    requires LineValid(line, d, next, opening, first, timedOut) && d < |line| && line[d].seqNum <= next
    ensures LineValid(line, d + 1, if line[d].seqNum == next then next + 1 else next, opening, first, timedOut)
  {
    if !timedOut {
      GapFreeBelow(line, Below(first, opening), opening, next, d);
      if line[d].seqNum == next {
        GapFreeGrows(line, Below(first, opening), opening, next, d);
      }
    }
  }

  lemma {:induction false} AcceptStep(line: seq<Packet>, d: nat, next: int, opening: int, first: Packet, timedOut: bool,
                                      p: Packet)
    requires LineValid(line, d, next, opening, first, timedOut) && p.seqNum >= next
    requires forall i | 0 <= i < |line| :: line[i].seqNum != p.seqNum
    ensures var line' := Placed(line, p);
            LineValid(line', d, Advance(line'[d..], next), opening, first, timedOut)
  {
    var line' := Placed(line, p);
    var k := Below(first, opening);
    PlacedProperties(line, p);
    PlacedOpens(line, p, k, opening);
    AdvanceGrows(line'[d..], next);
    if !timedOut {
      PlacingKeepsGapFree(line, p, k, opening, next);
      AdvanceKeepsGapFree(line', d, k, opening, next);
    }
  }

  lemma {:induction false} OpenStep(p: Packet, cumSeq: int)
    ensures LineValid([p], 0, Advance([p], cumSeq), cumSeq, p, false)
  {
    assert [p][1..] == [];
    assert Advance([], cumSeq + 1) == cumSeq + 1;
  }

  class ODelivery {
    /** Does the output port stay open after taking its n-th tuple? */
    const ready: nat -> bool
    var outOn: bool
    /** How many tuples the output port has taken. */
    var taken: nat
    // The connection of one source, with what it has delivered.
    var delivered: seq<Packet>
    var isOpen: bool
    var nextSeq: int
    var queue: seq<Packet>
    var timerSet: bool

    constructor (ready: nat -> bool)
      ensures Valid() && this.ready == ready && Snap() == Fresh()
    {
      this.ready := ready;
      taken := 0;
      outOn, delivered, isOpen, nextSeq, queue, timerSet := true, [], false, 0, [], false;
    }

    function Snap(): Snapshot
      reads this
    {
      Snapshot(isOpen, delivered + queue, |delivered|, nextSeq, timerSet, outOn, taken)
    }

    ghost predicate Valid()
      reads this
    {
      Sound(Snap()) == true  // kept folded
    }

    /** Is a packet with this number waiting? */
    predicate Waiting(n: int)
      reads this
    {
      exists i | 0 <= i < |queue| :: queue[i].seqNum == n
    }

    /** Connection::insert: files the packet in sequence order and moves the sequence pointer. */
    method Insert(p: Packet)
      requires Increasing(queue)
      modifies `queue, `nextSeq
      ensures old(Waiting(p.seqNum)) ==> queue == old(queue) && nextSeq == old(nextSeq)
      ensures !old(Waiting(p.seqNum)) ==>
                queue == Placed(old(queue), p) && nextSeq == Advance(queue, old(nextSeq))
    {
      if queue == [] && nextSeq <= p.seqNum {
        queue := [p];
      } else {
        var i := 0;
        while i < |queue|
          invariant i <= |queue| && queue == old(queue)
          invariant forall k | 0 <= k < i :: queue[k].seqNum < p.seqNum
        {
          if p.seqNum == queue[i].seqNum {
            return;
          } else if p.seqNum < queue[i].seqNum {
            break;
          }
          i := i + 1;
        }
        PlacedAt(queue, p, i);
        queue := queue[..i] + [p] + queue[i..];
      }
      AdvancePointer();
    }

    /** The loop that moves the next sequence pointer if a hole was filled. */
    method AdvancePointer()
      modifies `nextSeq
      ensures nextSeq == Advance(queue, old(nextSeq))
    {
      var i := 0;
      while i < |queue| && queue[i].seqNum == nextSeq
        invariant i <= |queue|
        invariant Advance(queue[i..], nextSeq) == Advance(queue, old(nextSeq))
      {
        assert queue[i..][0] == queue[i] && queue[i..][1..] == queue[i + 1..];
        nextSeq := nextSeq + 1;
        i := i + 1;
      }
    }

    /** `flush`: delivers what is due while the output port stays open, or starts the timer. */
    method Flush()
      requires Valid() && isOpen
      modifies `outOn, `taken, `delivered, `queue, `nextSeq, `timerSet
      ensures Valid() && Flushed(ready, old(Snap()), Snap()) == true
    {
      while outOn && queue != []
        invariant Valid() && FlushedTo(ready, old(Snap()), Snap()) == true
        decreases |queue|
      {
        ghost var s := Snap();
        assert s.line[s.sent] == queue[0];
        var p := queue[0];
        if p.seqNum <= nextSeq {
          Deliver();
          FlushedMore(ready, old(Snap()), s);
        } else {
          WaitingSound(s);
          FlushedUntil(ready, old(Snap()), s);
          if !timerSet {
            timerSet := true;
          }
          return;
        }
      }
      FlushedAll(ready, old(Snap()), Snap());
    }

    /** Hands the first waiting packet to the output port. */
    method Deliver()
      requires Valid() && queue != [] && queue[0].seqNum <= nextSeq
      modifies `outOn, `taken, `delivered, `queue, `nextSeq, `timerSet
      ensures Valid() && |queue| < old(|queue|)
      ensures old(Snap()).sent < |old(Snap()).line| && Snap() == HandedOver(ready, old(Snap()))
    {
      ghost var s := Snap();
      var p := queue[0];
      assert s.line[s.sent] == p;
      HandedOverSound(ready, s);
      assert delivered + queue == (delivered + [p]) + queue[1..];
      outOn := ready(taken);
      taken := taken + 1;
      delivered := delivered + [p];
      queue := queue[1..];
      if p.seqNum == nextSeq {
        nextSeq := nextSeq + 1;
      }
      timerSet := false;
    }

    /** A packet at or above the pointer enters an open connection. */
    method Accept(p: Packet)
      requires Valid() && isOpen && p.seqNum >= nextSeq
      modifies `queue, `nextSeq
      ensures Valid() && Snap() == Accepted(old(Snap()), p)
    {
      AcceptedInQueue(delivered, queue, nextSeq, p);
      AcceptedSound(Snap(), p);
      Insert(p);
    }

    /** The first packet of a source opens its connection at the sender's cumulative number. */
    method Open(p: Packet, cumSeq: int)
      modifies this
      ensures Valid() && isOpen && Snap() == Opened(old(Snap()), p, cumSeq)
    {
      isOpen, delivered, nextSeq, queue, timerSet := true, [], cumSeq, [], false;
      OpenedSound(Snap(), p, cumSeq);
      assert !Waiting(p.seqNum);
      Insert(p);
      assert queue == [p] && delivered + queue == [p];
    }

    /** `push`.  CUMSEQ 0 announces that the sender starts over, in a new connection. */
    method Push(p: Packet, cumSeq: int) returns (result: bool)
      requires Valid()
      modifies this
      ensures Valid() && result == outOn && Step(ready, Arrives(p, cumSeq), old(Snap()), Snap()) == true
    {
      if cumSeq == 0 && isOpen {
        isOpen := false;
      }
      if isOpen {
        if p.seqNum < nextSeq {
          return outOn;
        }
        Accept(p);
      } else {
        Open(p, cumSeq);
      }
      if outOn {
        Flush();
      }
      result := outOn;
    }

    /** `out_cb`: the output port reopens, and what is due goes out. */
    method OutputReady()
      requires Valid()
      modifies `outOn, `taken, `delivered, `queue, `nextSeq, `timerSet
      ensures Valid() && Step(ready, PortReady, old(Snap()), Snap()) == true
    {
      ghost var s := Snap();
      PortChanges(ready, s);
      outOn := true;
      if isOpen {
        Flush();
        Reopens(ready, s, Snap());
      }
    }

    /** Another connection has used up the output port. */
    method OutputTaken()
      requires Valid()
      modifies `outOn
      ensures Valid() && Step(ready, PortTaken, old(Snap()), Snap()) == true
    {
      PortChanges(ready, Snap());
      outOn := false;
    }

    /** `flushConnectionQ`: the timer gives up on whatever is missing before the last waiting packet. */
    method Timeout()
      requires Valid()
      modifies this
      ensures Valid() && Step(ready, TimerFires, old(Snap()), Snap()) == true
    {
      if isOpen && timerSet {
        ghost var s := Snap();
        LastWaiting(delivered, queue, s);
        GaveUpSound(s);
        var last := queue[|queue| - 1];
        timerSet := false;
        nextSeq := last.seqNum + 1;
        Flush();
        GivesUp(ready, s, Snap());
      } else {
        NoTimeout(ready, Snap());
      }
    }

    /** One event. */
    method Handle(e: Event)
      requires Valid()
      modifies this
      ensures Valid() && Step(ready, e, old(Snap()), Snap()) == true
    {
      match e
      case Arrives(p, cumSeq) => var _ := Push(p, cumSeq);
      case PortReady => OutputReady();
      case PortTaken => OutputTaken();
      case TimerFires => Timeout();
    }
  }

  /** The whole state: what was accepted and how much of it was sent, the pointer, the timer and the port. */
  datatype Snapshot = Snapshot(isOpen: bool, line: seq<Packet>, sent: nat, next: int, timer: bool, outOn: bool,
                               taken: nat)

  /** The first waiting packet goes out, and the timer is cancelled. */
  ghost function HandedOver(ready: nat -> bool, s: Snapshot): Snapshot
    requires s.sent < |s.line|
  {
    s.(sent := s.sent + 1, next := if s.line[s.sent].seqNum == s.next then s.next + 1 else s.next, timer := false,
       outOn := ready(s.taken), taken := s.taken + 1)
  }

  /** The pointer when the packets before `i` have gone out. */
  ghost function PointerAt(s: Snapshot, i: nat): int
    requires s.sent <= i <= |s.line|
  {
    if i == s.sent || s.line[i - 1].seqNum < s.next then s.next else s.line[i - 1].seqNum + 1
  }

  /** Packet `i` can go out once those before it have. */
  ghost predicate Due(s: Snapshot, i: nat)
    requires s.sent <= i < |s.line|
  {
    s.line[i].seqNum <= PointerAt(s, i)
  }

  /** From `s` packets that were due went out, one by one through an open port. */
  ghost predicate FlushedTo(ready: nat -> bool, s: Snapshot, s': Snapshot) {
    && s'.isOpen == s.isOpen && s'.line == s.line && s.sent <= s'.sent <= |s.line|
    && s'.taken - s.taken == s'.sent - s.sent
    && (s'.sent == s.sent ==> s' == s)
    && (s'.sent > s.sent ==> s.outOn && s'.outOn == ready(s'.taken - 1) && !s'.timer)
    && (forall i | s.taken <= i < s'.taken - 1 :: ready(i))
    && (forall i | s.sent <= i < s'.sent :: Due(s, i))
    && s'.next == PointerAt(s, s'.sent)
  }

  /**
   From `s` exactly the packets that are due went out, up to the one that closed the port.  The timer runs
   afterwards exactly when the port is open and something waits.
   */
  ghost predicate Flushed(ready: nat -> bool, s: Snapshot, s': Snapshot) {
    if !s.outOn then s' == s else
      && FlushedTo(ready, s, s'.(timer := s'.sent == s.sent && s.timer))
      && (s'.outOn && s'.sent < |s.line| ==> !Due(s, s'.sent))
      && (s'.timer <==> s'.outOn && s'.sent < |s.line|)
  }

  lemma {:induction false} FlushedMore(ready: nat -> bool, s: Snapshot, s': Snapshot)
    requires FlushedTo(ready, s, s') && s'.outOn && s'.sent < |s.line| && Increasing(s.line)
    requires s.line[s'.sent].seqNum <= s'.next
    ensures FlushedTo(ready, s, HandedOver(ready, s')) == true
  {
  }

  /** What waits is not due yet. */
  lemma {:induction false} FlushedUntil(ready: nat -> bool, s: Snapshot, s': Snapshot)
    requires FlushedTo(ready, s, s') && s'.outOn && s'.sent < |s.line| && s.line[s'.sent].seqNum > s'.next
    ensures Flushed(ready, s, s'.(timer := true)) == true
  {
  }

  /** The port is closed, or nothing waits. */
  lemma {:induction false} FlushedAll(ready: nat -> bool, s: Snapshot, s': Snapshot)
    requires FlushedTo(ready, s, s') && (s'.timer ==> s'.sent < |s.line|)
    requires !s'.outOn || s'.sent == |s.line|
    ensures Flushed(ready, s, s') == true
  {
  }

  ghost function Fresh(): Snapshot {
    Snapshot(false, [], 0, 0, false, true, 0)
  }

  /** The packets are in order, those sent lie below the pointer, and the timer runs only for waiting ones. */
  ghost predicate Sound(s: Snapshot) {
    && Increasing(s.line) && s.sent <= |s.line| && (forall i | 0 <= i < s.sent :: s.line[i].seqNum < s.next)
    && (!s.isOpen ==> s.line == [])
    && (s.timer ==> s.sent < |s.line| && s.next <= s.line[|s.line| - 1].seqNum + 1)
  }

  /** A packet at or above the pointer: filed in order, unless one with its number is there. */
  ghost function Accepted(s: Snapshot, p: Packet): Snapshot
    requires s.sent <= |s.line|
  {
    if HasNumber(s.line, p.seqNum) then s else
      var line := Placed(s.line, p);
      s.(line := line, next := Advance(line[s.sent..], s.next))
  }

  /** A new connection. */
  ghost function Opened(s: Snapshot, p: Packet, cumSeq: int): Snapshot {
    Snapshot(true, [p], 0, Advance([p], cumSeq), false, s.outOn, s.taken)
  }

  /** The timer has given up on what is missing before the last waiting packet. */
  ghost function GaveUp(s: Snapshot): Snapshot
    requires s.line != []
  {
    s.(timer := false, next := s.line[|s.line| - 1].seqNum + 1)
  }

  /** What an event does. */
  ghost predicate Step(ready: nat -> bool, e: Event, s: Snapshot, s': Snapshot) {
    && s.sent <= |s.line| && (s.timer ==> s.line != [])
    && match e
       case Arrives(p, cumSeq) =>
         if OpensAnew(e, s.isOpen) then Flushed(ready, Opened(s, p, cumSeq), s')
         else if p.seqNum < s.next then s' == s
         else Flushed(ready, Accepted(s, p), s')
       case PortReady => if s.isOpen then Flushed(ready, s.(outOn := true), s') else s' == s.(outOn := true)
       case PortTaken => s' == s.(outOn := false)
       case TimerFires => if s.isOpen && s.timer then Flushed(ready, GaveUp(s), s') else s' == s
  }

  lemma {:induction false} HandedOverSound(ready: nat -> bool, s: Snapshot)
    requires Sound(s) && s.sent < |s.line| && s.line[s.sent].seqNum <= s.next
    ensures Sound(HandedOver(ready, s)) == true
  {
  }

  lemma {:induction false} WaitingSound(s: Snapshot)
    requires Sound(s) && s.sent < |s.line| && s.line[s.sent].seqNum > s.next
    ensures Sound(s.(timer := true)) == true
  {
  }

  lemma {:induction false} OpenedSound(s: Snapshot, p: Packet, cumSeq: int)
    ensures Sound(Opened(s, p, cumSeq)) == true
  {
  }

  lemma {:induction false} GaveUpSound(s: Snapshot)
    requires Sound(s) && s.timer
    ensures Sound(GaveUp(s)) == true
  {
  }

  lemma {:induction false} AcceptedSound(s: Snapshot, p: Packet)
    requires Sound(s) && s.isOpen && p.seqNum >= s.next
    ensures Sound(Accepted(s, p)) == true
  {
    if !HasNumber(s.line, p.seqNum) {
      var line := Placed(s.line, p);
      PlacedProperties(s.line, p);
      AdvanceWithin(line, s.sent, s.next);
      if s.timer {
        PlacedLast(s.line, p);
      }
      GrownSound(s, line, Advance(line[s.sent..], s.next));
    }
  }

  lemma {:induction false} GrownSound(s: Snapshot, line: seq<Packet>, next: int)
    requires Sound(s) && s.isOpen && Increasing(line) && |line| == |s.line| + 1 && next >= s.next
    requires forall i | 0 <= i < s.sent :: line[i] == s.line[i]
    requires s.timer ==> next <= line[|line| - 1].seqNum + 1
    ensures Sound(s.(line := line, next := next)) == true
  {
  }

  lemma {:induction false} AdvanceWithin(line: seq<Packet>, d: nat, next: int)
    requires Increasing(line) && d < |line|
    ensures var next' := Advance(line[d..], next);
            next' >= next && (next <= line[|line| - 1].seqNum + 1 ==> next' <= line[|line| - 1].seqNum + 1)
  {
    var queue := line[d..];
    assert queue[|queue| - 1] == line[|line| - 1];
    AdvanceGrows(queue, next);
  }

  lemma {:induction false} PortChanges(ready: nat -> bool, s: Snapshot)
    requires Sound(s)
    ensures Sound(s.(outOn := true)) == true && Sound(s.(outOn := false)) == true
    ensures Step(ready, PortTaken, s, s.(outOn := false)) == true
    ensures !s.isOpen ==> Step(ready, PortReady, s, s.(outOn := true)) == true
  {
  }

  lemma {:induction false} Reopens(ready: nat -> bool, s: Snapshot, s': Snapshot)
    requires Sound(s) && s.isOpen && Flushed(ready, s.(outOn := true), s') == true
    ensures Step(ready, PortReady, s, s') == true
  {
  }

  lemma {:induction false} GivesUp(ready: nat -> bool, s: Snapshot, s': Snapshot)
    requires Sound(s) && s.timer && Flushed(ready, GaveUp(s), s') == true
    ensures Step(ready, TimerFires, s, s') == true
  {
  }

  lemma {:induction false} NoTimeout(ready: nat -> bool, s: Snapshot)
    requires Sound(s) && !(s.isOpen && s.timer)
    ensures Step(ready, TimerFires, s, s) == true
  {
  }

  lemma {:induction false} LastWaiting(delivered: seq<Packet>, queue: seq<Packet>, s: Snapshot)
    requires Sound(s) && s.timer && s.line == delivered + queue && s.sent == |delivered|
    ensures queue != [] && s.line != [] && s.line[|s.line| - 1] == queue[|queue| - 1]
  {
  }

  /** Filing a packet in the queue files it in the line. */
  lemma {:induction false} AcceptedInQueue(delivered: seq<Packet>, queue: seq<Packet>, next: int, p: Packet)
    requires Increasing(delivered + queue) && p.seqNum >= next
    requires forall i | 0 <= i < |delivered| :: (delivered + queue)[i].seqNum < next
    ensures Increasing(queue)
    ensures HasNumber(delivered + queue, p.seqNum) <==> HasNumber(queue, p.seqNum)
    ensures Placed(delivered + queue, p) == delivered + Placed(queue, p)
    ensures (delivered + Placed(queue, p))[|delivered|..] == Placed(queue, p)
  {
    var line := delivered + queue;
    assert forall i | 0 <= i < |delivered| :: delivered[i] == line[i];
    QueueIncreasing(delivered, queue);
    PlacedAfter(delivered, queue, p);
    if i :| 0 <= i < |queue| && queue[i].seqNum == p.seqNum {
      assert line[|delivered| + i].seqNum == p.seqNum;
    }
    if i :| 0 <= i < |line| && line[i].seqNum == p.seqNum {
      assert queue[i - |delivered|].seqNum == p.seqNum;
    }
  }

  predicate OpensAnew(e: Event, isOpen: bool) {
    e.Arrives? && (!isOpen || e.cumSeq == 0)
  }

  /** What a packet does to an open connection: below the pointer, or a second time, nothing. */
  ghost predicate Took(line: seq<Packet>, next: int, p: Packet, line': seq<Packet>, next': int) {
    && line' == (if p.seqNum < next || HasNumber(line, p.seqNum) then line else Placed(line, p))
    && next' >= next && Passed(line', next, next')
  }

  /** What an event does to a connection that stays. */
  ghost predicate Handled(e: Event, line: seq<Packet>, next: int, line': seq<Packet>, next': int) {
    match e
    case Arrives(p, _) => Took(line, next, p, line', next')
    case TimerFires => line' == line && next' >= next && (next' > next ==> HasNumber(line, next' - 1))
    case _ => line' == line && next' >= next && Passed(line, next, next')
  }

  lemma {:induction false} QueueIncreasing(delivered: seq<Packet>, queue: seq<Packet>)
    requires Increasing(delivered + queue)
    ensures Increasing(queue)
  {
    assert forall i | 0 <= i < |queue| :: queue[i] == (delivered + queue)[|delivered| + i];
  }

  lemma {:induction false} PlacedLast(s: seq<Packet>, p: Packet)
    requires Increasing(s) && s != [] && forall k | 0 <= k < |s| :: s[k].seqNum != p.seqNum
    ensures Placed(s, p)[|s|].seqNum >= s[|s| - 1].seqNum
  {
    var i := PlaceOf(s, p);
  }

  lemma {:induction false} PlacedOpens(line: seq<Packet>, p: Packet, k: nat, first: int)
    requires Increasing(line) && WellOpened(line, k, first) && p.seqNum >= first
    requires forall i | 0 <= i < |line| :: line[i].seqNum != p.seqNum
    ensures WellOpened(Placed(line, p), k, first)
  {
    var i := PlaceOf(line, p);
    var r := Placed(line, p);
    assert forall j | 0 <= j < |r| :: r[j] == if j < i then line[j] else if j == i then p else line[j - 1];
  }

  // ---------------------------------------------------------------------------------
  // Whole runs
  // ---------------------------------------------------------------------------------

  datatype Event = Arrives(p: Packet, cumSeq: int) | PortReady | PortTaken | TimerFires

  /** Arrival `at` opened the connection that is there after the first `n` events. */
  ghost predicate Opens(events: seq<Event>, n: nat, at: nat) {
    && at < n <= |events| && events[at].Arrives?
    && (events[at].cumSeq == 0 || forall k | 0 <= k < at :: !events[k].Arrives?)
    && (forall k | at < k < n && events[k].Arrives? :: events[k].cumSeq != 0)
  }

  ghost predicate PatientFrom(events: seq<Event>, at: nat) {
    forall i | at <= i < |events| :: !events[i].TimerFires?
  }

  /** Another connection took the port and it has not reopened. */
  ghost predicate Occupied(events: seq<Event>, n: nat)
    requires n <= |events|
  {
    exists i | 0 <= i < n :: events[i].PortTaken? && forall k | i < k < n :: !events[k].PortReady?
  }

  lemma {:induction false} OccupiedNext(events: seq<Event>, n: nat)
    requires n < |events|
    ensures events[n].PortTaken? ==> Occupied(events, n + 1)
    ensures Occupied(events, n) && !events[n].PortReady? ==> Occupied(events, n + 1)
  {
    if Occupied(events, n) && !events[n].PortReady? {
      var i :| 0 <= i < n && events[i].PortTaken? && forall k | i < k < n :: !events[k].PortReady?;
      assert forall k | i < k < n + 1 :: !events[k].PortReady?;
    }
  }

  /** The sender does not start over. */
  ghost predicate OneConnection(events: seq<Event>) {
    forall i, j | 0 <= i < j < |events| && events[i].Arrives? && events[j].Arrives? :: events[j].cumSeq != 0
  }

  lemma {:induction false} FirstConnection(events: seq<Event>, n: nat, at: int)
    requires n < |events| && OpenedAt(events, n, at) && OneConnection(events)
    requires events[n].Arrives? && events[n].cumSeq == 0
    ensures at < 0
  {
  }

  /** A packet with number `k` arrived in the connection opened at `at`. */
  ghost predicate CameIn(events: seq<Event>, at: nat, n: nat, k: int)
    requires n <= |events|
  {
    exists j | at <= j < n :: events[j].Arrives? && events[j].p.seqNum == k
  }

  ghost predicate AllCameIn(events: seq<Event>, at: nat, n: nat, a: int, b: int)
    requires n <= |events|
  {
    forall k | a <= k < b :: CameIn(events, at, n, k)
  }

  /** `x` is the first packet with its number in the connection. */
  ghost predicate FirstOfNumber(events: seq<Event>, at: nat, n: nat, x: Packet)
    requires n <= |events|
  {
    exists j: nat | at <= j < n && events[j].Arrives? && events[j].p == x :: !CameIn(events, at, j, x.seqNum)
  }

  /**
   The pointer moves from `a` to `b` at event `i`: over numbers that came in, except that a timeout may
   take it past what is missing before one that did.
   */
  ghost predicate PointerMoves(events: seq<Event>, at: nat, i: nat, a: int, b: int)
    requires i < |events|
  {
    && a <= b
    && (events[i].TimerFires? ==> a < b ==> CameIn(events, at, i + 1, b - 1))
    && (!events[i].TimerFires? ==> AllCameIn(events, at, i + 1, a, b))
  }

  /** The pointer before each event: it starts from the CUMSEQ that opened the connection. */
  ghost predicate Pointers(events: seq<Event>, at: nat, n: nat, pointers: seq<int>)
    requires at < n <= |events| && |pointers| == n + 1 && events[at].Arrives?
  {
    && PointerMoves(events, at, at, events[at].cumSeq, pointers[at + 1])
    && forall i: nat | at < i < n :: PointerMoves(events, at, i, pointers[i], pointers[i + 1])
  }

  /** Nothing is lost: the number of every arrival is in the line, or was below the pointer when it came. */
  ghost predicate NothingLost(events: seq<Event>, at: nat, n: nat, pointers: seq<int>, line: seq<Packet>)
    requires at < n <= |events| && |pointers| == n + 1
  {
    forall i: nat | at <= i < n && events[i].Arrives? ::
      HasNumber(line, events[i].p.seqNum) || (i > at && events[i].p.seqNum < pointers[i])
  }

  /** What holds of a connection after the first `n` events. */
  ghost predicate Account(events: seq<Event>, at: nat, n: nat, pointers: seq<int>, line: seq<Packet>)
    requires at < n <= |events| && |pointers| == n + 1 && events[at].Arrives?
  {
    && Pointers(events, at, n, pointers) && NothingLost(events, at, n, pointers, line)
    && forall x | x in line :: FirstOfNumber(events, at, n, x)
  }

  lemma {:induction false} LineCameIn(events: seq<Event>, at: nat, n: nat, line: seq<Packet>, k: int)
    requires n <= |events| && (forall x | x in line :: FirstOfNumber(events, at, n, x)) && HasNumber(line, k)
    ensures CameIn(events, at, n, k)
  {
    var i :| 0 <= i < |line| && line[i].seqNum == k;
    assert FirstOfNumber(events, at, n, line[i]);
  }

  lemma {:induction false} PassedCameIn(events: seq<Event>, at: nat, n: nat, line: seq<Packet>, a: int, b: int)
    requires n <= |events| && (forall x | x in line :: FirstOfNumber(events, at, n, x)) && Passed(line, a, b)
    ensures AllCameIn(events, at, n, a, b)
  {
    forall k | a <= k < b ensures CameIn(events, at, n, k) {
      assert HasNumber(line, k);
      LineCameIn(events, at, n, line, k);
    }
  }

  lemma {:induction false} StaysFirst(events: seq<Event>, at: nat, n: nat, line: seq<Packet>)
    requires n < |events| && forall x | x in line :: FirstOfNumber(events, at, n, x)
    ensures forall x | x in line :: FirstOfNumber(events, at, n + 1, x)
  {
    forall x | x in line ensures FirstOfNumber(events, at, n + 1, x) {
      assert FirstOfNumber(events, at, n, x);
      var j: nat :| at <= j < n && events[j].Arrives? && events[j].p == x && !CameIn(events, at, j, x.seqNum);
      assert j < n + 1;
    }
  }

  lemma {:induction false} PointersGrow(events: seq<Event>, at: nat, n: nat, pointers: seq<int>, i: nat)
    requires at < n <= |events| && |pointers| == n + 1 && events[at].Arrives? && at < i <= n
    requires Pointers(events, at, n, pointers)
    ensures pointers[i] <= pointers[n]
    decreases n - i
  {
    if i < n {
      assert PointerMoves(events, at, i, pointers[i], pointers[i + 1]);
      PointersGrow(events, at, n, pointers, i + 1);
    }
  }

  /** A number at or above the pointer that is not in the line has not come in before. */
  lemma {:induction false} NewNumber(events: seq<Event>, at: nat, n: nat, pointers: seq<int>, line: seq<Packet>, k: int)
    requires at < n <= |events| && |pointers| == n + 1 && events[at].Arrives?
    requires Account(events, at, n, pointers, line) && k >= pointers[n] && !HasNumber(line, k)
    ensures !CameIn(events, at, n, k)
  {
    if CameIn(events, at, n, k) {
      var j: nat :| at <= j < n && events[j].Arrives? && events[j].p.seqNum == k;
      PointersGrow(events, at, n, pointers, if j > at then j else n);
    }
  }

  lemma {:induction false} AccountOpens(events: seq<Event>, n: nat, pointers: seq<int>, next: int)
    requires n < |events| && |pointers| == n + 1 && events[n].Arrives? && next >= events[n].cumSeq
    requires Passed([events[n].p], events[n].cumSeq, next)
    ensures Account(events, n, n + 1, pointers + [next], [events[n].p])
  {
    var (p, line) := (events[n].p, [events[n].p]);
    assert !CameIn(events, n, n, p.seqNum);
    assert FirstOfNumber(events, n, n + 1, p);
    PassedCameIn(events, n, n + 1, line, events[n].cumSeq, next);
    assert line[0].seqNum == p.seqNum;
  }

  lemma {:induction false} PointersExtend(events: seq<Event>, at: nat, n: nat, pointers: seq<int>, next: int)
    requires at < n < |events| && |pointers| == n + 1 && events[at].Arrives? && Pointers(events, at, n, pointers)
    requires PointerMoves(events, at, n, pointers[n], next)
    ensures Pointers(events, at, n + 1, pointers + [next])
  {
    var now := pointers + [next];
    forall i: nat | at < i < n + 1 ensures PointerMoves(events, at, i, now[i], now[i + 1]) {
      if i < n {
        assert PointerMoves(events, at, i, pointers[i], pointers[i + 1]);
      }
    }
  }

  lemma {:induction false} LostExtend(events: seq<Event>, at: nat, n: nat, pointers: seq<int>, next: int,
                                      line: seq<Packet>, line': seq<Packet>)
    requires at < n < |events| && |pointers| == n + 1 && NothingLost(events, at, n, pointers, line)
    requires forall k | HasNumber(line, k) :: HasNumber(line', k)
    requires events[n].Arrives? ==> HasNumber(line', events[n].p.seqNum) || events[n].p.seqNum < pointers[n]
    ensures NothingLost(events, at, n + 1, pointers + [next], line')
  {
  }

  /** The packets of the line after an event are still the first ones with their numbers. */
  lemma {:induction false} FirstsExtend(events: seq<Event>, at: nat, n: nat, pointers: seq<int>, line: seq<Packet>,
                                        line': seq<Packet>, next: int)
    requires at < n < |events| && |pointers| == n + 1 && events[at].Arrives? && Increasing(line)
    requires Account(events, at, n, pointers, line) && Handled(events[n], line, pointers[n], line', next)
    ensures forall x | x in line' :: FirstOfNumber(events, at, n + 1, x)
    ensures forall k | HasNumber(line, k) :: HasNumber(line', k)
    ensures events[n].Arrives? ==> HasNumber(line', events[n].p.seqNum) || events[n].p.seqNum < pointers[n]
  {
    StaysFirst(events, at, n, line);
    if events[n].Arrives? && line' != line {
      var p := events[n].p;
      PlacedNumbers(line, p);
      PlacedMembers(line, p);
      NewNumber(events, at, n, pointers, line, p.seqNum);
      assert FirstOfNumber(events, at, n + 1, p);
    }
  }

  lemma {:induction false} AccountStep(events: seq<Event>, at: nat, n: nat, pointers: seq<int>, line: seq<Packet>,
                                       line': seq<Packet>, next: int)
    requires at < n < |events| && |pointers| == n + 1 && events[at].Arrives? && Increasing(line)
    requires Account(events, at, n, pointers, line) && Handled(events[n], line, pointers[n], line', next)
    ensures Account(events, at, n + 1, pointers + [next], line')
  {
    FirstsExtend(events, at, n, pointers, line, line', next);
    if events[n].TimerFires? {
      if next > pointers[n] {
        LineCameIn(events, at, n + 1, line', next - 1);
      }
    } else {
      PassedCameIn(events, at, n + 1, line', pointers[n], next);
    }
    PointersExtend(events, at, n, pointers, next);
    LostExtend(events, at, n, pointers, next, line, line');
  }

  /** The numbers delivered, when nothing timed out: without a gap from the opening CUMSEQ on. */
  ghost predicate InSequence(delivered: seq<Packet>, first: Packet, cumSeq: int) {
    if first.seqNum >= cumSeq then
      forall i | 0 <= i < |delivered| :: delivered[i].seqNum == cumSeq + i
    else
      forall i | 0 <= i < |delivered| :: if i == 0 then delivered[i] == first else delivered[i].seqNum == cumSeq + i - 1
  }

  /** Every arrival of the connection numbered from `from` on has its number in the line. */
  ghost predicate KeepsAllFrom(events: seq<Event>, at: nat, from: int, line: seq<Packet>) {
    forall i | at <= i < |events| && events[i].Arrives? && events[i].p.seqNum >= from ::
      HasNumber(line, events[i].p.seqNum)
  }

  lemma {:induction false} PatientKeepsAll(events: seq<Event>, at: nat, pointers: seq<int>, line: seq<Packet>, d: nat,
                                           first: Packet)
    requires at < |events| && |pointers| == |events| + 1 && events[at].Arrives?
    requires Account(events, at, |events|, pointers, line)
    requires LineValid(line, d, pointers[|events|], events[at].cumSeq, first, false)
    ensures KeepsAllFrom(events, at, events[at].cumSeq, line)
  {
    var (n, opening, k) := (|events|, events[at].cumSeq, Below(first, events[at].cumSeq));
    forall i: nat | at <= i < n && events[i].Arrives? && events[i].p.seqNum >= opening
      ensures HasNumber(line, events[i].p.seqNum)
    {
      var m := events[i].p.seqNum;
      if i > at && m < pointers[i] {
        PointersGrow(events, at, n, pointers, i);
        assert line[k + (m - opening)].seqNum == m;
      }
    }
  }

  lemma {:induction false} DeliveredInSequence(delivered: seq<Packet>, queue: seq<Packet>, next: int, opening: int,
                                               first: Packet)
    requires LineValid(delivered + queue, |delivered|, next, opening, first, false)
    ensures InSequence(delivered, first, opening)
  {
    assert forall i | 0 <= i < |delivered| :: (delivered + queue)[i] == delivered[i];
  }

  lemma {:induction false} DeliveredBelow(delivered: seq<Packet>, queue: seq<Packet>, next: int, opening: int,
                                          first: Packet, timedOut: bool)
    requires LineValid(delivered + queue, |delivered|, next, opening, first, timedOut)
    ensures Increasing(delivered + queue) && forall x | x in delivered :: x.seqNum < next
  {
    forall x | x in delivered ensures x.seqNum < next {
      var i :| 0 <= i < |delivered| && delivered[i] == x;
      assert (delivered + queue)[i] == x;
    }
  }

  /** What is promised of the connection opened at `at`, at the end of a run. */
  ghost predicate Promised(events: seq<Event>, at: nat, pointers: seq<int>, delivered: seq<Packet>,
                           waiting: seq<Packet>)
    requires at < |events| && |pointers| == |events| + 1 && events[at].Arrives?
  {
    && Increasing(delivered + waiting) && Account(events, at, |events|, pointers, delivered + waiting)
    && (forall x | x in delivered :: x.seqNum < pointers[|events|])
    && (PatientFrom(events, at) ==>
          && InSequence(delivered, events[at].p, events[at].cumSeq)
          && KeepsAllFrom(events, at, events[at].cumSeq, delivered + waiting))
  }

  // What a step means for the line of an open connection.

  lemma {:induction false} PointerMore(s: Snapshot, i: nat)
    requires Increasing(s.line) && s.sent <= i < |s.line| && Due(s, i)
    ensures PointerAt(s, i + 1) == if s.line[i].seqNum == PointerAt(s, i) then PointerAt(s, i) + 1 else PointerAt(s, i)
  {
  }

  /** While packets that are due go out, the pointer passes only numbers in the line. */
  lemma {:induction false} DueKeepsLine(s: Snapshot, i: nat, opening: int, first: Packet, timedOut: bool)
    requires LineValid(s.line, s.sent, s.next, opening, first, timedOut) && s.sent <= i <= |s.line|
    requires forall j | s.sent <= j < i :: Due(s, j)
    ensures LineValid(s.line, i, PointerAt(s, i), opening, first, timedOut) == true
    ensures PointerAt(s, i) >= s.next && Passed(s.line, s.next, PointerAt(s, i)) == true
  {
    if i > s.sent {
      DueKeepsLine(s, i - 1, opening, first, timedOut);
      PointerMore(s, i - 1);
      DeliverStep(s.line, i - 1, PointerAt(s, i - 1), opening, first, timedOut);
      assert Passed(s.line, PointerAt(s, i - 1), PointerAt(s, i));
      PassedOn(s.line, s.next, PointerAt(s, i - 1), PointerAt(s, i));
    }
  }

  lemma {:induction false} FlushedLine(ready: nat -> bool, s: Snapshot, s': Snapshot, opening: int, first: Packet,
                                       timedOut: bool)
    requires Flushed(ready, s, s') && LineValid(s.line, s.sent, s.next, opening, first, timedOut) == true
    ensures LineValid(s'.line, s'.sent, s'.next, opening, first, timedOut) == true && s'.line == s.line
    ensures s'.next >= s.next && Passed(s.line, s.next, s'.next) == true
  {
    if s.outOn {
      DueKeepsLine(s, s'.sent, opening, first, timedOut);
    }
  }

  lemma {:induction false} AcceptedLine(s: Snapshot, p: Packet, opening: int, first: Packet, timedOut: bool)
    requires LineValid(s.line, s.sent, s.next, opening, first, timedOut) && p.seqNum >= s.next
    ensures var s' := Accepted(s, p);
            && LineValid(s'.line, s.sent, s'.next, opening, first, timedOut) == true
            && s'.next >= s.next && Passed(s'.line, s.next, s'.next) == true
  {
    if !HasNumber(s.line, p.seqNum) {
      AcceptStep(s.line, s.sent, s.next, opening, first, timedOut, p);
      var line := Placed(s.line, p);
      AdvanceGrows(line[s.sent..], s.next);
      AdvancePasses(line[s.sent..], s.next);
      PassedInLine(line[..s.sent], line[s.sent..], s.next, Advance(line[s.sent..], s.next));
      assert line[..s.sent] + line[s.sent..] == line;
    }
  }

  lemma {:induction false} GaveUpLine(s: Snapshot, opening: int, first: Packet, timedOut: bool)
    requires Sound(s) && s.timer && LineValid(s.line, s.sent, s.next, opening, first, timedOut)
    ensures LineValid(s.line, s.sent, GaveUp(s).next, opening, first, true) == true
    ensures GaveUp(s).next >= s.next && HasNumber(s.line, GaveUp(s).next - 1)
  {
  }

  /** After giving up, everything is due and the pointer stays. */
  lemma {:induction false} GaveUpFlushed(ready: nat -> bool, s: Snapshot, s': Snapshot)
    requires Sound(s) && s.timer && Flushed(ready, GaveUp(s), s')
    ensures s'.next == GaveUp(s).next && (s'.outOn ==> s'.sent == |s'.line|)
  {
  }

  /** What an event does to a connection that stays. */
  lemma {:induction false} StepLine(ready: nat -> bool, e: Event, s: Snapshot, s': Snapshot, opening: int,
                                    first: Packet, timedOut: bool)
    requires s.isOpen && !OpensAnew(e, true) && Step(ready, e, s, s') && Sound(s) == true
    requires LineValid(s.line, s.sent, s.next, opening, first, timedOut) == true
    ensures s'.isOpen && LineValid(s'.line, s'.sent, s'.next, opening, first, timedOut || e.TimerFires?) == true
    ensures Handled(e, s.line, s.next, s'.line, s'.next) == true
  {
    match e
    case Arrives(p, _) =>
      assert Passed(s.line, s.next, s.next);
      if p.seqNum >= s.next {
        AcceptedLine(s, p, opening, first, timedOut);
        var t := Accepted(s, p);
        FlushedLine(ready, t, s', opening, first, timedOut);
        PassedOn(t.line, s.next, t.next, s'.next);
      }
    case PortReady => FlushedLine(ready, s.(outOn := true), s', opening, first, timedOut);
    case PortTaken => assert Passed(s.line, s.next, s.next);
    case TimerFires =>
      if s.timer {
        GaveUpLine(s, opening, first, timedOut);
        GaveUpFlushed(ready, s, s');
        FlushedLine(ready, GaveUp(s), s', opening, first, true);
      }
  }

  lemma {:induction false} StepOpens(ready: nat -> bool, e: Event, s: Snapshot, s': Snapshot)
    requires OpensAnew(e, s.isOpen) && Step(ready, e, s, s')
    ensures s'.isOpen && s'.line == [e.p] && LineValid(s'.line, s'.sent, s'.next, e.cumSeq, e.p, false) == true
    ensures s'.next >= e.cumSeq && Passed(s'.line, e.cumSeq, s'.next) == true
  {
    var t := Opened(s, e.p, e.cumSeq);
    OpenStep(e.p, e.cumSeq);
    AdvanceGrows([e.p], e.cumSeq);
    AdvancePasses([e.p], e.cumSeq);
    FlushedLine(ready, t, s', e.cumSeq, e.p, false);
    PassedOn(t.line, e.cumSeq, t.next, s'.next);
  }

  /** Nothing that is due waits behind an open port, and what waits there has a timer running. */
  ghost predicate Settled(s: Snapshot) {
    s.outOn && s.sent < |s.line| ==> s.timer && s.line[s.sent].seqNum > s.next
  }

  lemma {:induction false} StepSettles(ready: nat -> bool, e: Event, s: Snapshot, s': Snapshot)
    requires Step(ready, e, s, s') && Sound(s) && Settled(s)
    ensures Settled(s') && (e.TimerFires? && s'.outOn ==> s'.sent == |s'.line|)
  {
    if e.TimerFires? && s.isOpen && s.timer {
      GaveUpFlushed(ready, s, s');
    }
  }

  // Whole traces.

  /** Every state follows from the one before by the next event. */
  ghost predicate Traced(ready: nat -> bool, events: seq<Event>, trace: seq<Snapshot>) {
    && 0 < |trace| <= |events| + 1 && trace[0] == Fresh()
    && (forall i | 0 <= i < |trace| :: Sound(trace[i]))
    && forall i | 0 <= i < |trace| - 1 :: Step(ready, events[i], trace[i], trace[i + 1])
  }

  lemma {:induction false} TracedNext(ready: nat -> bool, events: seq<Event>, trace: seq<Snapshot>, s: Snapshot)
    requires Traced(ready, events, trace) && |trace| <= |events| && Sound(s) == true
    requires Step(ready, events[|trace| - 1], trace[|trace| - 1], s) == true
    ensures Traced(ready, events, trace + [s]) == true
  {
  }

  /**
   A delivery that closes the port cancels the timer: until the port is ready again nothing goes out, the
   timer stays off and timeouts change nothing.
   */
  lemma {:induction false} ClosedByDelivery(ready: nat -> bool, events: seq<Event>, trace: seq<Snapshot>, i: nat,
                                            j: nat)
    requires Traced(ready, events, trace) == true && i < j < |trace| <= |events| + 1
    requires trace[i + 1].taken > trace[i].taken && !trace[i + 1].outOn
    requires forall k | i < k < j :: !events[k].PortReady?
    ensures !trace[j].outOn && !trace[j].timer && trace[j].taken == trace[i + 1].taken
    ensures j + 1 < |trace| && events[j].TimerFires? ==> trace[j + 1] == trace[j]
  {
    TracedAt(ready, events, trace, j - 1, j);
    if j == i + 1 {
      StepCloses(ready, events[i], trace[i], trace[j]);
    } else {
      ClosedByDelivery(ready, events, trace, i, j - 1);
      StaysClosed(ready, events[j - 1], trace[j - 1], trace[j]);
    }
    if j + 1 < |trace| && events[j].TimerFires? {
      TracedAt(ready, events, trace, j, j + 1);
      NothingToGiveUp(ready, events[j], trace[j], trace[j + 1]);
    }
  }

  lemma {:induction false} NothingToGiveUp(ready: nat -> bool, e: Event, s: Snapshot, s': Snapshot)
    requires Step(ready, e, s, s') && e.TimerFires? && !s.timer
    ensures s' == s
  {
  }

  lemma {:induction false} StepCloses(ready: nat -> bool, e: Event, s: Snapshot, s': Snapshot)
    requires Step(ready, e, s, s') && s'.taken > s.taken && !s'.outOn
    ensures !s'.timer
  {
  }

  lemma {:induction false} StaysClosed(ready: nat -> bool, e: Event, s: Snapshot, s': Snapshot)
    requires Step(ready, e, s, s') && !s.outOn && !s.timer && !e.PortReady?
    ensures !s'.outOn && !s'.timer && s'.taken == s.taken
  {
  }

  /** Tuples went out only while the port took them: each but the last left it open. */
  ghost predicate TakenOpen(ready: nat -> bool, e: Event, s: Snapshot, s': Snapshot) {
    && s'.taken >= s.taken
    && (s'.taken > s.taken ==>
          && (s.outOn || e.PortReady?) && (s'.outOn <==> ready(s'.taken - 1))
          && forall t | s.taken <= t < s'.taken - 1 :: ready(t))
  }

  lemma {:induction false} FlushTakesOpen(ready: nat -> bool, s: Snapshot, s': Snapshot)
    requires Flushed(ready, s, s')
    ensures s'.taken >= s.taken && (s'.taken > s.taken ==> s.outOn && s'.outOn == ready(s'.taken - 1))
    ensures forall t | s.taken <= t < s'.taken - 1 :: ready(t)
  {
  }

  lemma {:induction false} StepTakesOpen(ready: nat -> bool, e: Event, s: Snapshot, s': Snapshot)
    requires Step(ready, e, s, s')
    ensures TakenOpen(ready, e, s, s') == true
  {
    match e
    case Arrives(p, cumSeq) =>
      if OpensAnew(e, s.isOpen) {
        FlushTakesOpen(ready, Opened(s, p, cumSeq), s');
      } else if p.seqNum >= s.next {
        FlushTakesOpen(ready, Accepted(s, p), s');
      }
    case PortReady =>
      if s.isOpen {
        FlushTakesOpen(ready, s.(outOn := true), s');
      }
    case PortTaken =>
    case TimerFires =>
      if s.isOpen && s.timer {
        FlushTakesOpen(ready, GaveUp(s), s');
      }
  }

  lemma {:induction false} TakenWhileOpen(ready: nat -> bool, events: seq<Event>, trace: seq<Snapshot>, i: nat)
    requires Traced(ready, events, trace) == true && i + 1 < |trace| <= |events| + 1
    ensures TakenOpen(ready, events[i], trace[i], trace[i + 1])
  {
    TracedAt(ready, events, trace, i, i + 1);
    StepTakesOpen(ready, events[i], trace[i], trace[i + 1]);
  }

  /** The port was closed at event `i`, by a tuple or another connection, and is not ready again before `n`. */
  ghost predicate ClosedSince(events: seq<Event>, trace: seq<Snapshot>, i: nat, n: nat) {
    && i < n < |trace| <= |events| + 1
    && !trace[i + 1].outOn && (events[i].PortTaken? || trace[i + 1].taken > trace[i].taken)
    && forall k | i < k < n :: !events[k].PortReady?
  }

  /** The port is closed exactly while such an event is behind it; a port that is ready again opens. */
  lemma {:induction false} WhyClosed(ready: nat -> bool, events: seq<Event>, trace: seq<Snapshot>, n: nat)
    requires Traced(ready, events, trace) == true && n < |trace| <= |events| + 1
    ensures !trace[n].outOn <==> exists i: nat :: ClosedSince(events, trace, i, n)
  {
    if n == 0 {
      TracedFirst(ready, events, trace);
    } else {
      var m := n - 1;
      WhyClosed(ready, events, trace, m);
      TracedAt(ready, events, trace, m, n);
      ClosingStep(ready, events[m], trace[m], trace[n]);
      ClosedNext(events, trace, m, n);
    }
  }

  lemma {:induction false} ClosedNext(events: seq<Event>, trace: seq<Snapshot>, m: nat, n: nat)
    requires n == m + 1 < |trace| <= |events| + 1
    requires !trace[m].outOn <==> exists i: nat :: ClosedSince(events, trace, i, m)
    requires var (e, s, s') := (events[m], trace[m], trace[n]);
             && (!s'.outOn ==> e.PortTaken? || s'.taken > s.taken || (!s.outOn && !e.PortReady?))
             && (!s.outOn && !e.PortReady? ==> !s'.outOn)
    ensures !trace[n].outOn <==> exists i: nat :: ClosedSince(events, trace, i, n)
  {
    if i: nat :| ClosedSince(events, trace, i, m) && !events[m].PortReady? {
      assert ClosedSince(events, trace, i, n);
    }
    if i: nat :| i < m && ClosedSince(events, trace, i, n) {
      assert ClosedSince(events, trace, i, m);
    }
    assert !trace[n].outOn && (events[m].PortTaken? || trace[n].taken > trace[m].taken) ==>
        ClosedSince(events, trace, m, n);
  }

  lemma {:induction false} ClosingStep(ready: nat -> bool, e: Event, s: Snapshot, s': Snapshot)
    requires Step(ready, e, s, s')
    ensures !s'.outOn ==> e.PortTaken? || s'.taken > s.taken || (!s.outOn && !e.PortReady?)
    ensures !s.outOn && !e.PortReady? ==> !s'.outOn
  {
  }

  ghost predicate PatientUntil(events: seq<Event>, at: nat, n: nat)
    requires n <= |events|
  {
    forall i | at <= i < n :: !events[i].TimerFires?
  }

  /** The state after the first `n` events, of which `at` opened the connection. */
  ghost predicate Tracked(events: seq<Event>, n: nat, at: int, pointers: seq<int>, s: Snapshot) {
    && n <= |events| && |pointers| == n + 1 && pointers[n] == s.next
    && OpenedAt(events, n, at) && (s.isOpen <==> at >= 0)
    && (s.isOpen ==>
          && LineValid(s.line, s.sent, s.next, events[at].cumSeq, events[at].p, !PatientUntil(events, at, n)) == true
          && Account(events, at, n, pointers, s.line))
  }

  lemma {:induction false} TrackedStep(ready: nat -> bool, events: seq<Event>, n: nat, at: int, pointers: seq<int>,
                                       s: Snapshot, s': Snapshot)
    requires n < |events| && Tracked(events, n, at, pointers, s) && Sound(s) == true
    requires Step(ready, events[n], s, s') == true
    ensures Tracked(events, n + 1, if OpensAnew(events[n], s.isOpen) then n else at, pointers + [s'.next], s') == true
  {
    var e := events[n];
    OpenedNext(events, n, at);
    if OpensAnew(e, s.isOpen) {
      StepOpens(ready, e, s, s');
      AccountOpens(events, n, pointers, s'.next);
    } else if s.isOpen {
      StepLine(ready, e, s, s', events[at].cumSeq, events[at].p, !PatientUntil(events, at, n));
      AccountStep(events, at, n, pointers, s.line, s'.line, s'.next);
      assert !PatientUntil(events, at, n + 1) <==> !PatientUntil(events, at, n) || e.TimerFires?;
    }
  }

  /** Only a tuple taken, or another connection, closes the port. */
  ghost predicate PortTracked(ready: nat -> bool, events: seq<Event>, n: nat, at: int, s: Snapshot)
    requires n <= |events|
  {
    && (!s.outOn ==> Occupied(events, n) || (s.taken > 0 && !ready(s.taken - 1)))
    && s.taken >= s.sent && (OneConnection(events) ==> s.taken == s.sent)
    && (at < 0 ==> s.taken == 0)
  }

  lemma {:induction false} StepPort(ready: nat -> bool, e: Event, s: Snapshot, s': Snapshot)
    requires Step(ready, e, s, s')
    ensures s'.taken - s'.sent == if OpensAnew(e, s.isOpen) then s.taken else s.taken - s.sent
    ensures !s'.outOn ==>
              || (s'.taken > 0 && !ready(s'.taken - 1))
              || e.PortTaken?
              || (!s.outOn && s'.taken == s.taken && !e.PortReady?)
    ensures s'.taken >= s.taken && (!s.isOpen && !e.Arrives? ==> s'.taken == s.taken)
  {
  }

  lemma {:induction false} PortTrackedStep(ready: nat -> bool, events: seq<Event>, n: nat, at: int, pointers: seq<int>,
                                           s: Snapshot, s': Snapshot)
    requires n < |events| && Tracked(events, n, at, pointers, s) && PortTracked(ready, events, n, at, s)
    requires Step(ready, events[n], s, s') == true
    ensures PortTracked(ready, events, n + 1, if OpensAnew(events[n], s.isOpen) then n else at, s') == true
  {
    StepPort(ready, events[n], s, s');
    OccupiedNext(events, n);
    if OneConnection(events) && events[n].Arrives? && events[n].cumSeq == 0 {
      FirstConnection(events, n, at);
    }
  }

  /** The pointer before every event and after the last of the first `n`. */
  ghost function PointersUpTo(trace: seq<Snapshot>, n: nat): (pointers: seq<int>)
    requires n < |trace|
    ensures |pointers| == n + 1
  {
    if n == 0 then [trace[0].next] else PointersUpTo(trace, n - 1) + [trace[n].next]
  }

  lemma {:induction false} PointerIs(trace: seq<Snapshot>, n: nat, i: nat)
    requires i <= n < |trace|
    ensures PointersUpTo(trace, n)[i] == trace[i].next
  {
    if i < n {
      PointerIs(trace, n - 1, i);
    }
  }

  lemma {:induction false} TracedAt(ready: nat -> bool, events: seq<Event>, trace: seq<Snapshot>, i: nat, j: nat)
    requires Traced(ready, events, trace) && j == i + 1 < |trace|
    ensures Sound(trace[i]) == true && Sound(trace[j]) == true && Step(ready, events[i], trace[i], trace[j]) == true
  {
  }

  /** A timeout leaves nothing waiting behind an open port. */
  ghost predicate SentOnTimeout(events: seq<Event>, n: nat, s: Snapshot)
    requires n <= |events|
  {
    n > 0 && events[n - 1].TimerFires? && s.outOn ==> s.sent == |s.line|
  }

  /** What holds after the first `n` events. */
  ghost predicate Kept(ready: nat -> bool, events: seq<Event>, n: nat, at: int, pointers: seq<int>, s: Snapshot) {
    && n <= |events|
    && Tracked(events, n, at, pointers, s) == true && PortTracked(ready, events, n, at, s) == true
    && Settled(s) == true && SentOnTimeout(events, n, s) == true
  }

  lemma {:induction false} KeptStep(ready: nat -> bool, events: seq<Event>, n: nat, at: int, pointers: seq<int>,
                                    s: Snapshot, s': Snapshot)
    requires Kept(ready, events, n, at, pointers, s) && n < |events|
    requires Sound(s) == true && Step(ready, events[n], s, s') == true
    ensures Kept(ready, events, n + 1, if OpensAnew(events[n], s.isOpen) then n else at, pointers + [s'.next],
                 s') == true
  {
    TrackedStep(ready, events, n, at, pointers, s, s');
    PortTrackedStep(ready, events, n, at, pointers, s, s');
    StepSettles(ready, events[n], s, s');
  }

  lemma {:induction false} KeptFirst(ready: nat -> bool, events: seq<Event>)
    ensures Kept(ready, events, 0, -1, [0], Fresh()) == true
  {
  }

  /** What every trace keeps. */
  lemma {:induction false} TraceKept(ready: nat -> bool, events: seq<Event>, trace: seq<Snapshot>, n: nat)
    returns (at: int)
    requires Traced(ready, events, trace) == true && n < |trace| <= |events| + 1
    ensures Kept(ready, events, n, at, PointersUpTo(trace, n), trace[n]) == true
  {
    if n == 0 {
      at := -1;
      KeptFirst(ready, events);
      TracedFirst(ready, events, trace);
    } else {
      var before := TraceKept(ready, events, trace, n - 1);
      TracedAt(ready, events, trace, n - 1, n);
      KeptStep(ready, events, n - 1, before, PointersUpTo(trace, n - 1), trace[n - 1], trace[n]);
      at := if OpensAnew(events[n - 1], trace[n - 1].isOpen) then n - 1 else before;
    }
  }

  lemma {:induction false} TracedFirst(ready: nat -> bool, events: seq<Event>, trace: seq<Snapshot>)
    requires Traced(ready, events, trace)
    ensures trace[0] == Fresh() && PointersUpTo(trace, 0) == [0]
  {
  }

  /**
   Any interleaving of arrivals, restarts, port changes and timeouts.  Of the last connection: numbers go
   out in strictly increasing order; each packet kept is the first with its number, and every arrival is
   among them by number or came below the pointer, which only numbers that came in, or a timeout, move.
   Without timeouts delivery starts at the opening CUMSEQ (after the first packet, if that was below it),
   skips nothing and loses nothing from there on.  While the port is open nothing that is due waits, and
   a timeout leaves nothing waiting.
   */
  lemma {:induction false} TracePromises(ready: nat -> bool, events: seq<Event>, trace: seq<Snapshot>)
    requires Traced(ready, events, trace) && |trace| == |events| + 1
    ensures EndsWell(ready, events, PointersUpTo(trace, |events|), trace[|events|])
  {
    var n := |events|;
    var at := TraceKept(ready, events, trace, n);
    KeptEndsWell(ready, events, at, PointersUpTo(trace, n), trace[n]);
  }

  ghost predicate EndsWell(ready: nat -> bool, events: seq<Event>, pointers: seq<int>, s: Snapshot)
    requires |pointers| == |events| + 1
  {
    && s.sent <= |s.line| && Settled(s) && SentOnTimeout(events, |events|, s)
    && (s.outOn ==> !HasNumber(s.line, s.next))
    && ((forall i | 0 <= i < |events| :: !events[i].Arrives?) ==> s.line == [])
    && (forall at | Opens(events, |events|, at) ::
          Promised(events, at, pointers, s.line[..s.sent], s.line[s.sent..]))
    && (!s.outOn ==> Occupied(events, |events|) || (s.taken > 0 && !ready(s.taken - 1)))
    && s.taken >= s.sent && (OneConnection(events) ==> s.taken == s.sent)
  }

  lemma {:induction false} KeptEndsWell(ready: nat -> bool, events: seq<Event>, at: int, pointers: seq<int>,
                                        s: Snapshot)
    requires |pointers| == |events| + 1 && Kept(ready, events, |events|, at, pointers, s) && Sound(s)
    ensures EndsWell(ready, events, pointers, s) == true
  {
    LastConnection(events, at, pointers, s, s.line[..s.sent], s.line[s.sent..]);
    SettledPointer(s);
  }

  /** Behind an open port the pointer is at a missing number. */
  lemma {:induction false} SettledPointer(s: Snapshot)
    requires Sound(s) && Settled(s)
    ensures s.outOn ==> !HasNumber(s.line, s.next)
  {
  }

  lemma {:induction false} LastConnection(events: seq<Event>, at: int, pointers: seq<int>, s: Snapshot,
                                          delivered: seq<Packet>, waiting: seq<Packet>)
    requires Tracked(events, |events|, at, pointers, s) && Sound(s)
    requires delivered == s.line[..s.sent] && waiting == s.line[s.sent..]
    ensures forall a | Opens(events, |events|, a) :: Promised(events, a, pointers, delivered, waiting)
    ensures (forall i | 0 <= i < |events| :: !events[i].Arrives?) ==> s.line == []
  {
    assert delivered + waiting == s.line;
    if s.isOpen {
      Conclude(events, at, pointers, delivered, waiting, events[at].p, !PatientUntil(events, at, |events|));
    }
    forall a | Opens(events, |events|, a) ensures Promised(events, a, pointers, delivered, waiting) {
      OpensOnce(events, |events|, a, at);
    }
  }

  /** Every run of the element is such a trace, and ends as a trace does. */
  method Run(ready: nat -> bool, events: seq<Event>) returns (trace: seq<Snapshot>)
    ensures |trace| == |events| + 1 && Traced(ready, events, trace)
    ensures EndsWell(ready, events, PointersUpTo(trace, |events|), trace[|events|])
  {
    var o := new ODelivery(ready);
    trace := [o.Snap()];
    for n := 0 to |events|
      invariant fresh(o) && o.ready == ready && o.Valid() && |trace| == n + 1 && trace[n] == o.Snap()
      invariant Traced(ready, events, trace) == true  // kept folded
    {
      o.Handle(events[n]);
      TracedNext(ready, events, trace, o.Snap());
      trace := trace + [o.Snap()];
    }
    TracePromises(ready, events, trace);
  }

  lemma {:induction false} Conclude(events: seq<Event>, at: nat, pointers: seq<int>, delivered: seq<Packet>,
                                    waiting: seq<Packet>, first: Packet, timedOut: bool)
    requires at < |events| && |pointers| == |events| + 1 && events[at].Arrives? && first == events[at].p
    requires Account(events, at, |events|, pointers, delivered + waiting)
    requires LineValid(delivered + waiting, |delivered|, pointers[|events|], events[at].cumSeq, first, timedOut)
    requires timedOut ==> !PatientFrom(events, at)
    ensures Promised(events, at, pointers, delivered, waiting)
  {
    DeliveredBelow(delivered, waiting, pointers[|events|], events[at].cumSeq, first, timedOut);
    if !timedOut {
      DeliveredInSequence(delivered, waiting, pointers[|events|], events[at].cumSeq, first);
      PatientKeepsAll(events, at, pointers, delivered + waiting, |delivered|, first);
    }
  }

  /** Position `at` opened the connection that is there after the first `n` events, or is -1. */
  ghost predicate OpenedAt(events: seq<Event>, n: nat, at: int)
    requires n <= |events|
  {
    && -1 <= at < n
    && (at >= 0 ==> Opens(events, n, at))
    && (at < 0 ==> forall i | 0 <= i < n :: !events[i].Arrives?)
  }

  lemma {:induction false} OpenedNext(events: seq<Event>, n: nat, at: int)
    requires n < |events| && OpenedAt(events, n, at)
    ensures OpenedAt(events, n + 1, if events[n].Arrives? && (at < 0 || events[n].cumSeq == 0) then n else at)
  {
  }

  lemma {:induction false} OpensOnce(events: seq<Event>, n: nat, a: nat, at: int)
    requires n <= |events| && Opens(events, n, a) && OpenedAt(events, n, at)
    ensures a == at
  {
  }
}
