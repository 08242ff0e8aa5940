/**
 Retransmission (net/rdelivery.C): a connection keeps the tuples not yet acknowledged, sends each again
 on every timeout, and gives a tuple up after `maxRetry` retries.
 */
module Retransmission {

  /** An outstanding tuple.  `id` stands for the tuple itself. */
  datatype Pending = Pending(number: nat, id: nat, retries: nat)

  /** Older tuples were retried at least as often as younger ones, none more than `max` times. */
  ghost predicate Aging(q: seq<Pending>, max: nat) {
    && (forall i, j | 0 <= i < j < |q| :: q[i].retries >= q[j].retries)
    && (forall i | 0 <= i < |q| :: q[i].retries <= max)
  }

  /** The length of the front part that has used up its retries. */
  function Exhausted(q: seq<Pending>, max: nat): (k: nat)
    ensures k <= |q|
  {
    if q == [] || q[0].retries < max then 0 else Exhausted(q[1..], max) + 1
  }

  lemma {:induction false} ExhaustedFront(q: seq<Pending>, max: nat)
    ensures var k := Exhausted(q, max);
            (forall i | 0 <= i < k :: q[i].retries >= max) && (k < |q| ==> q[k].retries < max)
  {
    if q != [] && q[0].retries >= max {
      ExhaustedFront(q[1..], max);
      assert forall i | 0 < i < |q| :: q[i] == q[1..][i - 1];
    }
  }

  /** The length of the front part numbered at most `cum`. */
  function Covered(q: seq<Pending>, cum: nat): (k: nat)
    ensures k <= |q|
  {
    if q == [] || q[0].number > cum then 0 else Covered(q[1..], cum) + 1
  }

  /** What an acknowledgement of `cum` leaves. */
  function Uncovered(q: seq<Pending>, cum: nat): seq<Pending> {
    q[Covered(q, cum)..]
  }

  lemma {:induction false} CoveredFront(q: seq<Pending>, cum: nat)
    ensures var k := Covered(q, cum);
            (forall i | 0 <= i < k :: q[i].number <= cum) && (k < |q| ==> q[k].number > cum)
  {
    if q != [] && q[0].number <= cum {
      CoveredFront(q[1..], cum);
      assert forall i | 0 < i < |q| :: q[i] == q[1..][i - 1];
    }
  }

  function Retried(p: Pending): Pending {
    p.(retries := p.retries + 1)
  }

  function Bumped(q: seq<Pending>): (r: seq<Pending>) {
    seq(|q|, i requires 0 <= i < |q| => Retried(q[i]))
  }

  function AfterFailure(q: seq<Pending>, max: nat): seq<Pending> {
    Bumped(q[Exhausted(q, max)..])
  }

  function Max(x: nat, y: nat): nat {
    if x < y then y else x
  }

  /** The largest number among the front `k`, or `cum`. */
  function CumOf(q: seq<Pending>, k: nat, cum: nat): (c: nat)
    requires k <= |q|
    ensures c >= cum && forall i | 0 <= i < k :: q[i].number <= c
    ensures c == cum || exists i | 0 <= i < k :: q[i].number == c
  {
    if k == 0 then cum else
      Max(CumOf(q, k - 1, cum), q[k - 1].number)
  }

  // ---------------------------------------------------------------------------------
  // What a timeout does
  // ---------------------------------------------------------------------------------

  /** Behind the exhausted front everything has retries left, so the loop erases at the front alone. */
  lemma {:induction false} ExhaustedExactly(q: seq<Pending>, max: nat, i: nat)
    requires Aging(q, max) && i < |q|
    ensures i < Exhausted(q, max) <==> q[i].retries == max
  {
    var k := Exhausted(q, max);
    ExhaustedFront(q, max);
    if k < i {
      assert q[k].retries >= q[i].retries;
    }
  }

  lemma {:induction false} FailureKeepsAging(q: seq<Pending>, max: nat)
    requires Aging(q, max)
    ensures Aging(AfterFailure(q, max), max)
  {
    var k := Exhausted(q, max);
    forall i | k <= i < |q| ensures q[i].retries < max {
      ExhaustedExactly(q, max, i);
    }
  }

  function AfterFailures(q: seq<Pending>, max: nat, n: nat): seq<Pending>
    decreases n
  {
    if n == 0 then q else AfterFailures(AfterFailure(q, max), max, n - 1)
  }

  /** What `n` timeouts in a row leave: nothing, exactly when the youngest tuple has run out of retries. */
  lemma {:induction false} FailuresEmpty(q: seq<Pending>, max: nat, n: nat)
    requires Aging(q, max) && q != []
    ensures AfterFailures(q, max, n) == [] <==> q[|q| - 1].retries + n > max
    decreases n
  {
    if n > 0 {
      var r := AfterFailure(q, max);
      FailureKeepsAging(q, max);
      ExhaustedExactly(q, max, |q| - 1);
      if r == [] {
        NothingLeft(max, n - 1);
      } else {
        FailuresEmpty(r, max, n - 1);
      }
    }
  }

  lemma {:induction false} NothingLeft(max: nat, n: nat)
    ensures AfterFailures([], max, n) == []
  {
    if n > 0 {
      NothingLeft(max, n - 1);
    }
  }

  /** `maxRetry` + 1 timeouts in a row empty every queue that can arise. */
  lemma {:induction false} TimeoutsDrain(q: seq<Pending>, max: nat)
    requires Aging(q, max)
    ensures AfterFailures(q, max, max + 1) == []
  {
    if q == [] {
      NothingLeft(max, max + 1);
    } else {
      FailuresEmpty(q, max, max + 1);
    }
  }

  /** Inside the loop of `handle_failure`: `k` tuples erased, `i` of the others queued again. */
  ghost predicate Midway(q: seq<Pending>, max: nat, k: nat, i: nat, out: seq<Pending>, again: seq<nat>) {
    && k <= Exhausted(q, max) && (i > 0 ==> k == Exhausted(q, max))
    && k + |out| == |q| && i <= |out|
    && (forall j | 0 <= j < i :: out[j] == Retried(q[k + j]))
    && (forall j | i <= j < |out| :: out[j] == q[k + j])
    && |again| == i && (forall j | 0 <= j < i :: again[j] == out[j].id)
  }

  lemma {:induction false} MidwayStart(q: seq<Pending>, max: nat)
    ensures Midway(q, max, 0, 0, q, []) == true
  {
  }

  lemma {:induction false} MidwayAt(q: seq<Pending>, max: nat, k: nat, i: nat, out: seq<Pending>, again: seq<nat>)
    requires Aging(q, max) && Midway(q, max, k, i, out, again) && i < |out|
    ensures k + i < |q| && out[i] == q[k + i]
    ensures out[i].retries < max ==> k == Exhausted(q, max)
    ensures out[i].retries >= max ==> i == 0 && k < Exhausted(q, max)
  {
    ExhaustedExactly(q, max, k + i);
  }

  lemma {:induction false} MidwayRetry(q: seq<Pending>, max: nat, k: nat, i: nat, out: seq<Pending>, again: seq<nat>)
    requires Midway(q, max, k, i, out, again) && i < |out| && k == Exhausted(q, max)
    ensures Midway(q, max, k, i + 1, out[i := Retried(out[i])], again + [out[i].id]) == true
  {
  }

  lemma {:induction false} MidwayDrop(q: seq<Pending>, max: nat, k: nat, i: nat, out: seq<Pending>, again: seq<nat>)
    requires Midway(q, max, k, i, out, again) && i == 0 < |out| && k < Exhausted(q, max)
    ensures Midway(q, max, k + 1, 0, out[..i] + out[i + 1..], again) == true
  {
    var rest := out[..i] + out[i + 1..];
    forall j | 0 <= j < |rest| ensures rest[j] == q[k + 1 + j] {
      assert out[j + 1] == q[k + (j + 1)];
    }
  }

  lemma {:induction false} MidwayEnd(q: seq<Pending>, max: nat, k: nat, out: seq<Pending>, again: seq<nat>)
    requires Aging(q, max) && Midway(q, max, k, |out|, out, again)
    ensures k == Exhausted(q, max) && out == AfterFailure(q, max) && again == Ids(out)
  {
  }

  lemma {:induction false} AgingSend(q: seq<Pending>, max: nat, p: Pending)
    requires Aging(q, max) && p.retries == 0
    ensures Aging(q + [p], max) == true
  {
  }

  lemma {:induction false} AgingUncovered(q: seq<Pending>, max: nat, cum: nat)
    requires Aging(q, max)
    ensures Aging(Uncovered(q, cum), max) == true
  {
  }

  lemma {:induction false} UncoveredNext(q: seq<Pending>, cum: nat)
    requires q != [] && q[0].number <= cum
    ensures Uncovered(q[1..], cum) == Uncovered(q, cum)
  {
  }

  lemma {:induction false} UncoveredDone(q: seq<Pending>, cum: nat)
    requires q != [] ==> q[0].number > cum
    ensures Uncovered(q, cum) == q
  {
  }

  class Connection {
    const maxRetry: nat
    var outstanding: seq<Pending>
    var cumSeq: nat
    var timer: bool

    ghost predicate Valid()
      reads this
    {
      Aging(outstanding, maxRetry) == true && (timer <==> outstanding != [])  // kept folded
    }

    constructor (maxRetry: nat)
      ensures Valid() && this.maxRetry == maxRetry && outstanding == [] && cumSeq == 0
    {
      this.maxRetry := maxRetry;
      outstanding, cumSeq, timer := [], 0, false;
    }

    /** `tuple`: records a tuple about to be sent, stamped with the cumulative number. */
    method Send(number: nat, id: nat) returns (stamp: nat)
      requires Valid()
      modifies this
      ensures Valid() && stamp == cumSeq == old(cumSeq)
      ensures outstanding == old(outstanding) + [Pending(number, id, 0)]
    {
      AgingSend(outstanding, maxRetry, Pending(number, id, 0));
      outstanding := outstanding + [Pending(number, id, 0)];
      if !timer {
        timer := true;
      }
      stamp := cumSeq;
    }

    /** `ack`: a cumulative number that is news removes the front it covers. */
    method Ack(cum: nat)
      requires Valid()
      modifies this
      ensures Valid() && cumSeq == Max(old(cumSeq), cum)
      ensures outstanding == if old(cumSeq) < cum then Uncovered(old(outstanding), cum) else old(outstanding)
    {
      if cumSeq < cum {
        timer := false;
        cumSeq := cum;
        ghost var q := outstanding;
        AgingUncovered(q, maxRetry, cum);
        while |outstanding| > 0 && outstanding[0].number <= cumSeq
          invariant cumSeq == cum && !timer && Uncovered(outstanding, cum) == Uncovered(q, cum)
          decreases |outstanding|
        {
          UncoveredNext(outstanding, cum);
          outstanding := outstanding[1..];
        }
        UncoveredDone(outstanding, cum);
        if |outstanding| > 0 {
          timer := true;
        }
      }
    }

    /**
     `handle_failure`: erases the tuples without retries left, which are all at the front, and queues
     the others once more, in order.
     */
    method HandleFailure() returns (again: seq<nat>)
      requires Valid() && timer
      modifies this
      ensures Valid() && outstanding == AfterFailure(old(outstanding), maxRetry)
      ensures cumSeq == CumOf(old(outstanding), old(Exhausted(outstanding, maxRetry)), old(cumSeq))
      ensures again == Ids(outstanding)
    {
      timer := false;
      again := [];
      var i: nat := 0;
      ghost var q := outstanding;
      ghost var k: nat := 0;
      MidwayStart(q, maxRetry);
      while i < |outstanding|
        invariant Midway(q, maxRetry, k, i, outstanding, again) == true && k <= |q|
        invariant !timer && cumSeq == CumOf(q, k, old(cumSeq)) && i <= |outstanding|
        decreases |outstanding| - i
      {
        MidwayAt(q, maxRetry, k, i, outstanding, again);
        if outstanding[i].retries < maxRetry {
          MidwayRetry(q, maxRetry, k, i, outstanding, again);
          again := again + [outstanding[i].id];
          outstanding := outstanding[i := Retried(outstanding[i])];
          i := i + 1;
        } else {
          MidwayDrop(q, maxRetry, k, i, outstanding, again);
          if cumSeq < outstanding[i].number {
            cumSeq := outstanding[i].number;
          }
          assert i == 0;
          outstanding := outstanding[..i] + outstanding[i + 1..];
          k := k + 1;
        }
      }
      MidwayEnd(q, maxRetry, k, outstanding, again);
      FailureKeepsAging(q, maxRetry);
      if |outstanding| > 0 {
        timer := true;
      }
    }

    ghost function Now(id: nat, log: seq<nat>): State
      reads this
    {
      State(outstanding, cumSeq, id, log)
    }

    /** One event; `log` lists every tuple ever queued again. */
    method Handle(e: Event, id: nat, log: seq<nat>) returns (id': nat, log': seq<nat>)
      requires Valid()
      modifies this
      ensures Valid() && Now(id', log') == Next(old(Now(id, log)), e, maxRetry)
    {
      id', log' := id, log;
      if e.Sent? {
        HandleSent(e, id, log);
        id' := id + 1;
      } else if e.Acked? {
        HandleAcked(e, id, log);
      } else {
        log' := HandleTimeout(e, id, log);
      }
    }

    method HandleSent(e: Event, id: nat, ghost log: seq<nat>)
      requires Valid() && e.Sent?
      modifies this
      ensures Valid() && Now(id + 1, log) == Next(old(Now(id, log)), e, maxRetry)
    {
      var _ := Send(e.number, id);
    }

    method HandleAcked(e: Event, ghost id: nat, ghost log: seq<nat>)
      requires Valid() && e.Acked?
      modifies this
      ensures Valid() && Now(id, log) == Next(old(Now(id, log)), e, maxRetry)
    {
      Ack(e.cum);
    }

    method HandleTimeout(e: Event, ghost id: nat, log: seq<nat>) returns (log': seq<nat>)
      requires Valid() && e.TimedOut?
      modifies this
      ensures Valid() && Now(id, log') == Next(old(Now(id, log)), e, maxRetry)
    {
      log' := log;
      if timer {
        var again := HandleFailure();
        log' := log + again;
      }
    }

    /** Timeouts alone, `maxRetry` + 1 of them at most, empty the queue. */
    method Drain() returns (rounds: nat)
      requires Valid()
      modifies this
      ensures outstanding == [] && !timer && rounds <= maxRetry + 1
    {
      rounds := 0;
      TimeoutsDrain(outstanding, maxRetry);
      while timer
        invariant Valid() && rounds <= maxRetry + 1
        invariant AfterFailures(outstanding, maxRetry, maxRetry + 1 - rounds) == []
        decreases maxRetry + 1 - rounds
      {
        var again := HandleFailure();
        rounds := rounds + 1;
      }
    }
  }

  // ---------------------------------------------------------------------------------
  // Runs of a connection
  // ---------------------------------------------------------------------------------

  datatype Event = Sent(number: nat) | Acked(cum: nat) | TimedOut

  /** How often tuple `id` went to the retry queue, given everything that ever did. */
  function Requeues(log: seq<nat>, id: nat): nat {
    multiset(log)[id]
  }

  lemma {:induction false} RequeuesOfRound(again: seq<nat>, first: nat, id: nat)
    requires forall i | 0 <= i < |again| :: again[i] == first + i
    ensures Requeues(again, id) == if first <= id < first + |again| then 1 else 0
  {
    if again != [] {
      var n := |again| - 1;
      assert again == again[..n] + [again[n]];
      RequeuesOfRound(again[..n], first, id);
    }
  }

  lemma {:induction false} RequeuesAdd(log: seq<nat>, again: seq<nat>, id: nat)
    ensures Requeues(log + again, id) == Requeues(log, id) + Requeues(again, id)
  {
  }

  /**
   The outstanding tuples are the last ones sent, each with its number and the count of its retries;
   `sent[id]` is the number of tuple `id`.
   */
  ghost predicate Tracks(sent: seq<nat>, log: seq<nat>, q: seq<Pending>, max: nat) {
    && |q| <= |sent|
    && (forall j | 0 <= j < |q| :: q[j].id == |sent| - |q| + j && q[j].number == sent[|sent| - |q| + j])
    && (forall j | 0 <= j < |q| :: q[j].retries == Requeues(log, q[j].id))
    && (forall id: nat :: Requeues(log, id) <= if id < |sent| then max else 0)
  }

  lemma {:induction false} TracksSend(sent: seq<nat>, log: seq<nat>, q: seq<Pending>, max: nat, number: nat)
    requires Tracks(sent, log, q, max)
    ensures Tracks(sent + [number], log, q + [Pending(number, |sent|, 0)], max)
  {
    assert Requeues(log, |sent|) == 0;
  }

  lemma {:induction false} TracksPop(sent: seq<nat>, log: seq<nat>, q: seq<Pending>, max: nat, k: nat)
    requires Tracks(sent, log, q, max) && k <= |q|
    ensures Tracks(sent, log, q[k..], max)
  {
  }

  lemma {:induction false} AfterFailureAt(q: seq<Pending>, max: nat, j: nat)
    requires Aging(q, max) && j < |AfterFailure(q, max)|
    ensures var k := Exhausted(q, max);
            AfterFailure(q, max)[j] == Retried(q[k + j]) && q[k + j].retries < max
  {
    ExhaustedExactly(q, max, Exhausted(q, max) + j);
  }

  /** A timeout: each tuple still outstanding is queued exactly once more. */
  lemma {:induction false} RequeuesAfter(sent: seq<nat>, log: seq<nat>, q: seq<Pending>, max: nat, again: seq<nat>,
                                         id: nat)
    requires Tracks(sent, log, q, max) && Aging(q, max)
    requires var r := AfterFailure(q, max);
             |again| == |r| && forall i | 0 <= i < |again| :: again[i] == r[i].id
    ensures Requeues(log + again, id) == Requeues(log, id) + if |sent| - |again| <= id < |sent| then 1 else 0
    ensures Requeues(log + again, id) <= if id < |sent| then max else 0
  {
    var (k, first) := (Exhausted(q, max), |sent| - |again|);
    forall i | 0 <= i < |again| ensures again[i] == first + i {
      AfterFailureAt(q, max, i);
    }
    RequeuesOfRound(again, first, id);
    RequeuesAdd(log, again, id);
    if first <= id < |sent| {
      AfterFailureAt(q, max, id - first);
      assert q[k + (id - first)].id == id;
    }
  }

  lemma {:induction false} TracksOne(sent: seq<nat>, log: seq<nat>, q: seq<Pending>, max: nat, again: seq<nat>, j: nat)
    requires Tracks(sent, log, q, max) && Aging(q, max) && j < |AfterFailure(q, max)|
    requires var r := AfterFailure(q, max);
             |again| == |r| && forall i | 0 <= i < |again| :: again[i] == r[i].id
    ensures var r := AfterFailure(q, max);
            && r[j].id == |sent| - |r| + j && r[j].number == sent[r[j].id]
            && r[j].retries == Requeues(log + again, r[j].id)
  {
    var p := q[Exhausted(q, max) + j];
    AfterFailureAt(q, max, j);
    RequeuesAfter(sent, log, q, max, again, p.id);
  }

  lemma {:induction false} TracksFailure(sent: seq<nat>, log: seq<nat>, q: seq<Pending>, max: nat, again: seq<nat>)
    requires Tracks(sent, log, q, max) && Aging(q, max)
    requires var r := AfterFailure(q, max);
             |again| == |r| && forall i | 0 <= i < |again| :: again[i] == r[i].id
    ensures Tracks(sent, log + again, AfterFailure(q, max), max)
  {
    var r := AfterFailure(q, max);
    forall j | 0 <= j < |r|
      ensures r[j].id == |sent| - |r| + j && r[j].number == sent[r[j].id]
      ensures r[j].retries == Requeues(log + again, r[j].id)
    {
      TracksOne(sent, log, q, max, again, j);
    }
    forall id: nat ensures Requeues(log + again, id) <= if id < |sent| then max else 0 {
      RequeuesAfter(sent, log, q, max, again, id);
    }
  }

  /** Sent in increasing order, and no acknowledgement of what was never sent. */
  ghost predicate Honest(events: seq<Event>) {
    && (forall i, j | 0 <= i < j < |events| && events[i].Sent? && events[j].Sent? ::
          events[i].number < events[j].number)
    && (forall j | 0 <= j < |events| && events[j].Acked? :: Sanctioned(events, j))
  }

  ghost predicate Sanctioned(events: seq<Event>, j: nat)
    requires j < |events| && events[j].Acked?
  {
    events[j].cum == 0 || exists i | 0 <= i < j :: events[i].Sent? && events[j].cum <= events[i].number
  }

  /**
   Of an honest run: the tuples no longer outstanding are those the cumulative number covers.  Number 0
   is the exception, since acknowledging it is no news.
   */
  ghost predicate Settled(sent: seq<nat>, q: seq<Pending>, cum: nat)
    requires |q| <= |sent|
  {
    && (forall i, j | 0 <= i < j < |sent| :: sent[i] < sent[j])
    && (forall i | 0 <= i < |sent| :: i < |sent| - |q| ==> sent[i] <= cum)
    && (forall i | 0 <= i < |sent| :: i >= |sent| - |q| ==> sent[i] > cum || sent[i] == 0)
    && (cum == 0 || (sent != [] && cum <= sent[|sent| - 1]))
  }

  lemma {:induction false} SettledAck(sent: seq<nat>, log: seq<nat>, q: seq<Pending>, max: nat, cum: nat, cum': nat)
    requires Tracks(sent, log, q, max) && Settled(sent, q, cum)
    requires cum < cum' && sent != [] && cum' <= sent[|sent| - 1]
    ensures Settled(sent, q[Covered(q, cum')..], cum')
  {
    var k := Covered(q, cum');
    var first := |sent| - |q|;
    CoveredFront(q, cum');
    forall i | 0 <= i < |sent| ensures sent[i] <= cum' <==> i < first + k {
      if first <= i {
        assert q[i - first].number == sent[i];
      }
      if k < |q| {
        assert q[k].number == sent[first + k];
      }
    }
  }

  /** Giving up the front `k` moves the cumulative number to exactly cover it. */
  lemma {:induction false} SettledGivenUp(sent: seq<nat>, q: seq<Pending>, cum: nat, k: nat, i: nat)
    requires |q| <= |sent| && Settled(sent, q, cum) && k <= |q| && i < |sent|
    requires forall j | 0 <= j < |q| :: q[j].number == sent[|sent| - |q| + j]
    ensures i < |sent| - |q| + k ==> sent[i] <= CumOf(q, k, cum)
    ensures i >= |sent| - |q| + k ==> sent[i] > CumOf(q, k, cum) || sent[i] == 0
  {
    var (first, cum') := (|sent| - |q|, CumOf(q, k, cum));
    if first <= i < first + k {
      assert q[i - first].number == sent[i];
    } else if i >= first + k && cum' != cum {
      var j :| 0 <= j < k && q[j].number == cum';
      assert sent[first + j] < sent[i];
    }
  }

  lemma {:induction false} SettledFailure(sent: seq<nat>, log: seq<nat>, q: seq<Pending>, max: nat, cum: nat)
    requires Tracks(sent, log, q, max) && Settled(sent, q, cum)
    ensures Settled(sent, AfterFailure(q, max), CumOf(q, Exhausted(q, max), cum))
  {
    SettledDrop(sent, q, cum, Exhausted(q, max), AfterFailure(q, max));
  }

  lemma {:induction false} SettledDrop(sent: seq<nat>, q: seq<Pending>, cum: nat, k: nat, r: seq<Pending>)
    requires |q| <= |sent| && Settled(sent, q, cum) && k <= |q| && |r| == |q| - k
    requires forall j | 0 <= j < |q| :: q[j].number == sent[|sent| - |q| + j]
    ensures Settled(sent, r, CumOf(q, k, cum))
  {
    var cum' := CumOf(q, k, cum);
    forall i | 0 <= i < |sent|
      ensures i < |sent| - |r| ==> sent[i] <= cum'
      ensures i >= |sent| - |r| ==> sent[i] > cum' || sent[i] == 0
    {
      SettledGivenUp(sent, q, cum, k, i);
    }
    if cum' != cum {
      var j :| 0 <= j < k && q[j].number == cum';
      assert cum' == sent[|sent| - |q| + j];
    }
  }

  /** The numbers sent in the first `n` events. */
  ghost function SentNumbers(events: seq<Event>, n: nat): seq<nat>
    requires n <= |events|
  {
    if n == 0 then [] else
      SentNumbers(events, n - 1) + if events[n - 1].Sent? then [events[n - 1].number] else []
  }

  lemma {:induction false} SentEarlier(events: seq<Event>, n: nat, i: nat) returns (j: nat)
    requires n <= |events| && i < |SentNumbers(events, n)|
    ensures j < n && events[j] == Sent(SentNumbers(events, n)[i])
  {
    if i < |SentNumbers(events, n - 1)| {
      j := SentEarlier(events, n - 1, i);
    } else {
      j := n - 1;
    }
  }

  lemma {:induction false} SentListed(events: seq<Event>, n: nat, j: nat)
    requires j < n <= |events| && events[j].Sent?
    ensures events[j].number in SentNumbers(events, n)
  {
    if j < n - 1 {
      SentListed(events, n - 1, j);
    }
  }

  lemma {:induction false} SettledMore(sent: seq<nat>, q: seq<Pending>, cum: nat, number: nat, p: Pending)
    requires |q| <= |sent| && Settled(sent, q, cum) && forall i | 0 <= i < |sent| :: sent[i] < number
    ensures Settled(sent + [number], q + [p], cum)
  {
  }

  lemma {:induction false} SettledSend(events: seq<Event>, n: nat, q: seq<Pending>, cum: nat, p: Pending)
    requires n < |events| && events[n].Sent? && Honest(events)
    requires var sent := SentNumbers(events, n); |q| <= |sent| && Settled(sent, q, cum)
    ensures Settled(SentNumbers(events, n + 1), q + [p], cum)
  {
    var sent := SentNumbers(events, n);
    forall i | 0 <= i < |sent| ensures sent[i] < events[n].number {
      var j := SentEarlier(events, n, i);
    }
    SettledMore(sent, q, cum, events[n].number, p);
  }

  lemma {:induction false} AckIsSent(events: seq<Event>, n: nat)
    requires n < |events| && events[n].Acked? && events[n].cum > 0 && Sanctioned(events, n)
    requires var sent := SentNumbers(events, n); forall i, j | 0 <= i < j < |sent| :: sent[i] < sent[j]
    ensures var sent := SentNumbers(events, n); sent != [] && events[n].cum <= sent[|sent| - 1]
  {
    var i :| 0 <= i < n && events[i].Sent? && events[n].cum <= events[i].number;
    SentListed(events, n, i);
  }

  /** What holds after the first `n` events. */
  ghost predicate Sound(events: seq<Event>, n: nat, max: nat, q: seq<Pending>, cum: nat, log: seq<nat>)
    requires n <= |events|
  {
    && Tracks(SentNumbers(events, n), log, q, max)
    && (Honest(events) ==> Settled(SentNumbers(events, n), q, cum))
    && EndedRightly(events, n, max, |q|, log)
  }

  /** Tuple `id` was covered by an acknowledgement that came after it was sent. */
  ghost predicate AckedSince(events: seq<Event>, n: nat, id: nat)
    requires n <= |events|
  {
    exists j: nat | j < n && events[j].Acked? && id < |SentNumbers(events, j)| ::
      SentNumbers(events, j)[id] <= events[j].cum
  }

  /** A tuple that is no longer outstanding was acknowledged, or was queued again `max` times. */
  ghost predicate EndedRightly(events: seq<Event>, n: nat, max: nat, outstanding: nat, log: seq<nat>)
    requires n <= |events|
  {
    forall id: nat | id + outstanding < |SentNumbers(events, n)| ::
      Requeues(log, id) == max || AckedSince(events, n, id)
  }

  lemma {:induction false} StillAcked(events: seq<Event>, n: nat, id: nat)
    requires n < |events| && AckedSince(events, n, id)
    ensures AckedSince(events, n + 1, id)
  {
    var j: nat :| j < n && events[j].Acked? && id < |SentNumbers(events, j)| &&
                  SentNumbers(events, j)[id] <= events[j].cum;
    assert j < n + 1;
  }

  lemma {:induction false} EndedKeeps(events: seq<Event>, n: nat, max: nat, outstanding: nat, outstanding': nat,
                                      log: seq<nat>)
    requires n < |events| && EndedRightly(events, n, max, outstanding, log)
    requires |SentNumbers(events, n + 1)| - outstanding' == |SentNumbers(events, n)| - outstanding
    ensures EndedRightly(events, n + 1, max, outstanding', log)
  {
    forall id: nat | id + outstanding' < |SentNumbers(events, n + 1)|
      ensures Requeues(log, id) == max || AckedSince(events, n + 1, id)
    {
      if AckedSince(events, n, id) {
        StillAcked(events, n, id);
      }
    }
  }

  lemma {:induction false} AckedNow(events: seq<Event>, n: nat, id: nat)
    requires n < |events| && events[n].Acked? && id < |SentNumbers(events, n)|
    requires SentNumbers(events, n)[id] <= events[n].cum
    ensures AckedSince(events, n + 1, id)
  {
    assert n < n + 1 && events[n].Acked?;
  }

  lemma {:induction false} EndedAck(events: seq<Event>, n: nat, max: nat, q: seq<Pending>, log: seq<nat>)
    requires n < |events| && events[n].Acked? && EndedRightly(events, n, max, |q|, log)
    requires Tracks(SentNumbers(events, n), log, q, max)
    ensures EndedRightly(events, n + 1, max, |q| - Covered(q, events[n].cum), log)
  {
    var (sent, k) := (SentNumbers(events, n), Covered(q, events[n].cum));
    CoveredFront(q, events[n].cum);
    assert SentNumbers(events, n + 1) == sent;
    forall id: nat | id + (|q| - k) < |sent| ensures Requeues(log, id) == max || AckedSince(events, n + 1, id) {
      if id + |q| < |sent| {
        if AckedSince(events, n, id) {
          StillAcked(events, n, id);
        }
      } else {
        assert q[id - (|sent| - |q|)].number == sent[id];
        AckedNow(events, n, id);
      }
    }
  }

  lemma {:induction false} EndedFailure(events: seq<Event>, n: nat, max: nat, q: seq<Pending>, log: seq<nat>,
                                        again: seq<nat>)
    requires n < |events| && events[n].TimedOut? && EndedRightly(events, n, max, |q|, log)
    requires Tracks(SentNumbers(events, n), log, q, max) && Aging(q, max)
    requires var r := AfterFailure(q, max);
             |again| == |r| && forall i | 0 <= i < |again| :: again[i] == r[i].id
    ensures EndedRightly(events, n + 1, max, |again|, log + again)
  {
    var sent := SentNumbers(events, n);
    assert SentNumbers(events, n + 1) == sent;
    forall id: nat | id + |again| < |sent| ensures Requeues(log + again, id) == max || AckedSince(events, n + 1, id) {
      RequeuesAfter(sent, log, q, max, again, id);
      if id + |q| < |sent| {
        if AckedSince(events, n, id) {
          StillAcked(events, n, id);
        }
      } else {
        var i := id - (|sent| - |q|);
        ExhaustedExactly(q, max, i);
        assert q[i].id == id;
      }
    }
  }

  lemma {:induction false} SoundSend(events: seq<Event>, n: nat, max: nat, q: seq<Pending>, cum: nat, log: seq<nat>)
    requires n < |events| && Sound(events, n, max, q, cum, log) && events[n].Sent?
    ensures Sound(events, n + 1, max, q + [Pending(events[n].number, |SentNumbers(events, n)|, 0)], cum, log)
  {
    var sent := SentNumbers(events, n);
    TracksSend(sent, log, q, max, events[n].number);
    if Honest(events) {
      SettledSend(events, n, q, cum, Pending(events[n].number, |sent|, 0));
    }
    EndedKeeps(events, n, max, |q|, |q| + 1, log);
  }

  lemma {:induction false} HonestAck(events: seq<Event>, n: nat, max: nat, q: seq<Pending>, cum: nat, log: seq<nat>)
    requires n < |events| && events[n].Acked? && cum < events[n].cum && Honest(events)
    requires var sent := SentNumbers(events, n); Tracks(sent, log, q, max) && Settled(sent, q, cum)
    ensures Settled(SentNumbers(events, n), q[Covered(q, events[n].cum)..], events[n].cum)
  {
    AckIsSent(events, n);
    SettledAck(SentNumbers(events, n), log, q, max, cum, events[n].cum);
  }

  lemma {:induction false} SoundAck(events: seq<Event>, n: nat, max: nat, q: seq<Pending>, cum: nat, log: seq<nat>)
    requires n < |events| && Sound(events, n, max, q, cum, log) && events[n].Acked? && cum < events[n].cum
    ensures Sound(events, n + 1, max, q[Covered(q, events[n].cum)..], events[n].cum, log)
  {
    var (sent, k) := (SentNumbers(events, n), Covered(q, events[n].cum));
    TracksPop(sent, log, q, max, k);
    if Honest(events) {
      HonestAck(events, n, max, q, cum, log);
    }
    EndedAck(events, n, max, q, log);
    assert SentNumbers(events, n + 1) == sent;
  }

  lemma {:induction false} SoundFailure(events: seq<Event>, n: nat, max: nat, q: seq<Pending>, cum: nat,
                                        log: seq<nat>, again: seq<nat>)
    requires n < |events| && Sound(events, n, max, q, cum, log) && events[n].TimedOut? && Aging(q, max)
    requires var r := AfterFailure(q, max);
             |again| == |r| && forall i | 0 <= i < |again| :: again[i] == r[i].id
    ensures Sound(events, n + 1, max, AfterFailure(q, max), CumOf(q, Exhausted(q, max), cum), log + again)
  {
    var sent := SentNumbers(events, n);
    assert SentNumbers(events, n + 1) == sent;
    TracksFailure(sent, log, q, max, again);
    if Honest(events) {
      SettledFailure(sent, log, q, max, cum);
    }
    EndedFailure(events, n, max, q, log, again);
  }

  lemma {:induction false} SoundSkip(events: seq<Event>, n: nat, max: nat, q: seq<Pending>, cum: nat, log: seq<nat>)
    requires n < |events| && Sound(events, n, max, q, cum, log) && !events[n].Sent?
    ensures Sound(events, n + 1, max, q, cum, log)
  {
    assert SentNumbers(events, n + 1) == SentNumbers(events, n);
    EndedKeeps(events, n, max, |q|, |q|, log);
  }

  // ---------------------------------------------------------------------------------
  // What a connection should do
  // ---------------------------------------------------------------------------------

  datatype State = State(outstanding: seq<Pending>, cumSeq: nat, sent: nat, log: seq<nat>)

  function Ids(q: seq<Pending>): seq<nat> {
    seq(|q|, i requires 0 <= i < |q| => q[i].id)
  }

  function Next(s: State, e: Event, max: nat): State {
    match e
    case Sent(number) => s.(outstanding := s.outstanding + [Pending(number, s.sent, 0)], sent := s.sent + 1)
    case Acked(cum) =>
      if s.cumSeq < cum then s.(outstanding := Uncovered(s.outstanding, cum), cumSeq := cum) else s
    case TimedOut =>
      if s.outstanding == [] then s else
        var now := AfterFailure(s.outstanding, max);
        var cum := CumOf(s.outstanding, Exhausted(s.outstanding, max), s.cumSeq);
        s.(outstanding := now, cumSeq := cum, log := s.log + Ids(now))
  }

  function StateAfter(events: seq<Event>, n: nat, max: nat): State
    requires n <= |events|
  {
    if n == 0 then State([], 0, 0, []) else Next(StateAfter(events, n - 1, max), events[n - 1], max)
  }

  ghost predicate StateHolds(events: seq<Event>, n: nat, max: nat, s: State)
    requires n <= |events|
  {
    && Aging(s.outstanding, max) && s.sent == |SentNumbers(events, n)|
    && Sound(events, n, max, s.outstanding, s.cumSeq, s.log)
  }

  lemma {:induction false} StateStart(events: seq<Event>, max: nat)
    ensures StateHolds(events, 0, max, State([], 0, 0, [])) == true
  {
    assert forall id: nat :: Requeues([], id) == 0;
  }

  lemma {:induction false} NextHolds(events: seq<Event>, n: nat, max: nat)
    requires n < |events| && StateHolds(events, n, max, StateAfter(events, n, max)) == true
    ensures StateHolds(events, n + 1, max, StateAfter(events, n + 1, max)) == true
  {
    var (s, s') := (StateAfter(events, n, max), StateAfter(events, n + 1, max));
    assert s' == Next(s, events[n], max);
    NextSound(events, n, max, s);
  }

  /** What a connection should do keeps every promise. */
  lemma {:induction false} StateSound(events: seq<Event>, n: nat, max: nat)
    requires n <= |events|
    ensures StateHolds(events, n, max, StateAfter(events, n, max)) == true
  {
    StateStart(events, max);
    var m := 0;
    while m < n
      invariant 0 <= m <= n && StateHolds(events, m, max, StateAfter(events, m, max)) == true
    {
      NextHolds(events, m, max);
      m := m + 1;
    }
  }

  lemma {:induction false} NextSound(events: seq<Event>, n: nat, max: nat, s: State)
    requires n < |events| && StateHolds(events, n, max, s) == true
    ensures StateHolds(events, n + 1, max, Next(s, events[n], max)) == true
  {
    match events[n] {
      case Sent(number) => SoundSend(events, n, max, s.outstanding, s.cumSeq, s.log);
      case Acked(cum) =>
        if s.cumSeq < cum {
          SoundAck(events, n, max, s.outstanding, s.cumSeq, s.log);
        } else {
          SoundSkip(events, n, max, s.outstanding, s.cumSeq, s.log);
        }
      case TimedOut =>
        if s.outstanding == [] {
          SoundSkip(events, n, max, s.outstanding, s.cumSeq, s.log);
        } else {
          FailureKeepsAging(s.outstanding, max);
          SoundFailure(events, n, max, s.outstanding, s.cumSeq, s.log, Ids(AfterFailure(s.outstanding, max)));
        }
    }
  }

  /**
   Any run from a new connection; a timeout happens only while the timer is armed.  No tuple is queued
   again more than `maxRetry` times, and one that is no longer outstanding was acknowledged or queued again
   exactly that often.  The timer is armed exactly while tuples are outstanding, and in an honest run
   these are exactly the ones sent with a number above the cumulative one.
   */
  method Run(maxRetry: nat, events: seq<Event>)
    returns (outstanding: seq<Pending>, cumSeq: nat, timer: bool, log: seq<nat>)
    ensures Aging(outstanding, maxRetry) && (timer <==> outstanding != [])
    ensures Tracks(SentNumbers(events, |events|), log, outstanding, maxRetry)
    ensures Honest(events) ==> Settled(SentNumbers(events, |events|), outstanding, cumSeq)
    ensures EndedRightly(events, |events|, maxRetry, |outstanding|, log)
    ensures var s := StateAfter(events, |events|, maxRetry);
            outstanding == s.outstanding && cumSeq == s.cumSeq && log == s.log
  {
    var c := new Connection(maxRetry);
    var id: nat := 0;
    log := [];
    for n := 0 to |events|
      invariant fresh(c) && c.Valid() && c.maxRetry == maxRetry
      invariant c.Now(id, log) == StateAfter(events, n, maxRetry)
    {
      id, log := c.Handle(events[n], id, log);
    }
    StateSound(events, |events|, maxRetry);
    return c.outstanding, c.cumSeq, c.timer, log;
  }
}
