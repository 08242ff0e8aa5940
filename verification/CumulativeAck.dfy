/**
 Cumulative acknowledgements (net/cumulativeAck.C): the receiver confirms sequence numbers in any order
 and reports how far it has them all.
 */
module CumulativeAcks {
  import Sequences

  ghost predicate Increasing(s: seq<int>) {
    forall i, j | 0 <= i < j < |s| :: s[i] < s[j]
  }

  /** `n` is the last number reached from `base` through members of `seen` alone. */
  ghost predicate IsMark(base: int, seen: set<int>, n: int) {
    n >= base && (forall k | base < k <= n :: k in seen) && n + 1 !in seen
  }

  /** The queue lists the members of `seen` above the mark, in order. */
  ghost predicate QueueIs(queue: seq<int>, seen: set<int>, mark: int) {
    Increasing(queue) && forall k :: k in queue <==> k in seen && k > mark
  }

  lemma {:induction false} MarkUnique(base: int, seen: set<int>, m: int, n: int)
    requires IsMark(base, seen, m) && IsMark(base, seen, n)
    ensures m == n
  {
  }

  ghost function Numbers(s: seq<int>): set<int> {
    set k | k in s
  }

  /** Does `confirm` return at once, because it already queued this number? */
  predicate ReturnsEarly(cumSeq: int, queue: seq<int>, n: int) {
    n >= cumSeq && n != cumSeq + 1 && n in queue
  }

  lemma {:induction false} InsertSorted(s: seq<int>, n: int, i: nat)
    requires Increasing(s) && i <= |s|
    requires forall k | 0 <= k < i :: s[k] < n
    requires forall k | i <= k < |s| :: n < s[k]
    ensures Increasing(Sequences.Inserted(s, i, n))
    ensures forall k :: k in Sequences.Inserted(s, i, n) <==> k in s || k == n
  {
    Sequences.InsertedMembers(s, i, n);
  }

  class Connection {
    var cumSeq: int
    var queue: seq<int>

    constructor (cumSeq: int)
      ensures this.cumSeq == cumSeq && queue == []
    {
      this.cumSeq, queue := cumSeq, [];
    }

    /**
     `confirm`: unless it returns early, the mark moves over everything seen without a gap, and the
     queue keeps what lies above it.
     */
    method Confirm(n: int)
      requires Increasing(queue)
      modifies this
      ensures old(ReturnsEarly(cumSeq, queue, n)) ==> cumSeq == old(cumSeq) && queue == old(queue)
      ensures !old(ReturnsEarly(cumSeq, queue, n)) ==>
                var seen := Numbers(old(queue)) + {n};
                IsMark(old(cumSeq), seen, cumSeq) && QueueIs(queue, seen, cumSeq)
    {
      ghost var (start, seen) := (cumSeq, Numbers(queue) + {n});
      if n < cumSeq {
        // already confirmed
      } else if cumSeq + 1 == n {
        cumSeq := cumSeq + 1;
      } else {
        var i := 0;
        while i < |queue|
          invariant i <= |queue| && cumSeq == old(cumSeq) && queue == old(queue)
          invariant forall k | 0 <= k < i :: queue[k] < n
        {
          if n == queue[i] {
            return;
          } else if n < queue[i] {
            break;
          }
          i := i + 1;
        }
        assert forall k | i <= k < |queue| :: n < queue[k];
        InsertSorted(queue, n, i);
        queue := Sequences.Inserted(queue, i, n);
      }
      assert forall k | k > cumSeq :: k in queue <==> k in seen;
      Climb(start, seen);
      Trim(seen);
    }

    /** Moves the mark over the queued numbers that continue it. */
    method Climb(ghost start: int, ghost seen: set<int>)
      requires Increasing(queue) && cumSeq >= start
      requires forall k | start < k <= cumSeq :: k in seen
      requires forall k | k > cumSeq :: k in queue <==> k in seen
      modifies `cumSeq
      ensures IsMark(start, seen, cumSeq) && cumSeq >= old(cumSeq)
    {
      var i := 0;
      while i < |queue|
        invariant i <= |queue| && cumSeq >= old(cumSeq)
        invariant forall k | 0 <= k < i :: queue[k] <= cumSeq
        invariant forall k | start < k <= cumSeq :: k in seen
      {
        if cumSeq + 1 == queue[i] {
          cumSeq := cumSeq + 1;
        } else if cumSeq < queue[i] {
          break;
        }
        i := i + 1;
      }
      assert cumSeq + 1 !in queue by {
        if i < |queue| {
          assert forall k | i <= k < |queue| :: queue[k] > cumSeq + 1;
        }
      }
    }

    /** Erases everything up to the mark. */
    method Trim(ghost seen: set<int>)
      requires Increasing(queue) && forall k | k > cumSeq :: k in queue <==> k in seen
      modifies `queue
      ensures QueueIs(queue, seen, cumSeq)
    {
      var i := 0;
      while i < |queue|
        invariant i <= |queue| && Increasing(queue)
        invariant forall k | 0 <= k < i :: queue[k] > cumSeq
        invariant forall k | k > cumSeq :: k in queue <==> k in seen
        decreases |queue| - i
      {
        if queue[i] <= cumSeq {
          EraseAt(queue, i);
          queue := Sequences.Erased(queue, i);
        } else {
          i := i + 1;
        }
      }
    }
  }

  lemma {:induction false} EraseAt(s: seq<int>, i: nat)
    requires Increasing(s) && i < |s|
    ensures var r := Sequences.Erased(s, i);
            Increasing(r) && forall k :: k in r <==> k in s && k != s[i]
  {
    var r := Sequences.Erased(s, i);
    assert s == s[..i] + [s[i]] + s[i + 1..];
    forall j | 0 <= j < |r| ensures r[j] == s[if j < i then j else j + 1] {
    }
  }

  // ---------------------------------------------------------------------------------
  // Runs of confirmations
  // ---------------------------------------------------------------------------------

  /** The state of a connection that started at `base` and saw exactly the numbers `seen`. */
  ghost predicate Exact(base: int, seen: set<int>, mark: int, queue: seq<int>) {
    IsMark(base, seen, mark) && QueueIs(queue, seen, mark)
  }

  /** One more number, whether or not it makes `confirm` return early. */
  lemma {:induction false} ExactStep(base: int, seen: set<int>, mark: int, queue: seq<int>, n: int,
                                     mark': int, queue': seq<int>)
    requires Exact(base, seen, mark, queue)
    requires ReturnsEarly(mark, queue, n) ==> mark' == mark && queue' == queue
    requires !ReturnsEarly(mark, queue, n) ==>
               IsMark(mark, Numbers(queue) + {n}, mark') && QueueIs(queue', Numbers(queue) + {n}, mark')
    ensures Exact(base, seen + {n}, mark', queue')
  {
    if ReturnsEarly(mark, queue, n) {
      assert seen + {n} == seen;
    } else {
      assert forall k | k > mark :: k in Numbers(queue) <==> k in seen;
    }
  }

  /** Whatever numbers are confirmed, in whatever order: the mark is the largest one reached without a gap. */
  method ConfirmAll(base: int, numbers: seq<int>) returns (mark: int, queue: seq<int>)
    ensures Exact(base, Numbers(numbers), mark, queue)
  {
    var c := new Connection(base);
    ghost var seen := {};
    for i := 0 to |numbers|
      invariant fresh(c) && seen == Numbers(numbers[..i])
      invariant Exact(base, seen, c.cumSeq, c.queue)
    {
      ghost var (m, q) := (c.cumSeq, c.queue);
      c.Confirm(numbers[i]);
      ExactStep(base, seen, m, q, numbers[i], c.cumSeq, c.queue);
      assert numbers[..i + 1] == numbers[..i] + [numbers[i]];
      seen := seen + {numbers[i]};
    }
    assert numbers[..|numbers|] == numbers;
    return c.cumSeq, c.queue;
  }

  // ---------------------------------------------------------------------------------
  // Jumps of the sender
  // ---------------------------------------------------------------------------------

  /**
   What holds with jumps: the mark covers only numbers that were confirmed or that the sender's own
   cumulative number (at most `jump`) covers, and no confirmed number above the mark is forgotten, nor
   the mark itself while its successor waits.
   */
  ghost predicate Sound(base: int, seen: set<int>, jump: int, mark: int, queue: seq<int>) {
    && mark >= base && mark >= jump
    && (forall k | base < k <= mark :: k in seen || k <= jump)
    && Increasing(queue)
    && (forall k | k in queue :: k in seen)
    && (forall k | k in seen && k > mark :: k in queue)
    && (mark + 1 in queue && mark in seen ==> mark in queue)
  }

  function Max(x: int, y: int): int {
    if x < y then y else x
  }

  lemma {:induction false} SoundStep(base: int, seen: set<int>, jump: int, mark: int, queue: seq<int>,
                                     n: int, cum: int, mark': int, queue': seq<int>)
    requires Sound(base, seen, jump, mark, queue)
    requires var m := Max(mark, cum);
             && (ReturnsEarly(m, queue, n) ==> mark' == m && queue' == queue)
             && (!ReturnsEarly(m, queue, n) ==>
                   IsMark(m, Numbers(queue) + {n}, mark') && QueueIs(queue', Numbers(queue) + {n}, mark'))
    ensures Sound(base, seen + {n}, Max(jump, cum), mark', queue')
    ensures mark' >= mark && mark' >= cum
    ensures mark' + 1 in seen + {n} <==> Overlooked(mark, seen, n, cum)
    ensures Overlooked(mark, seen, n, cum) ==> mark' == Max(mark, cum)
  {
    var m := Max(mark, cum);
    if ReturnsEarly(m, queue, n) {
      assert seen + {n} == seen;
    } else {
      forall k | k in seen + {n} && k > mark' ensures k in queue' {
        assert k in Numbers(queue) + {n};
      }
      forall k | base < k <= mark' ensures k in seen + {n} || k <= Max(jump, cum) {
        assert k > m ==> k in Numbers(queue) + {n};
      }
    }
  }

  /** What there is to know of a connection. */
  datatype Knowledge = Knowledge(isOpen: bool, base: int, seen: set<int>, jump: int, mark: int)

  /** What an arrival does: it starts a connection, or moves the mark of the one there is. */
  ghost predicate Answers(n: nat, senderCum: nat, k: Knowledge, k': Knowledge) {
    && k'.isOpen
    && (senderCum == 0 ==> k'.base == n && k'.seen == {n as int} && k'.jump == n && k'.mark == n)
    && (senderCum != 0 && !k.isOpen ==>
          k'.base == 0 && k'.seen == {n as int} && k'.jump == senderCum && k'.mark + 1 != n)
    && (senderCum != 0 && k.isOpen ==>
          && k'.base == k.base && k'.seen == k.seen + {n as int} && k'.jump == Max(k.jump, senderCum)
          && k'.mark >= k.mark && (k'.mark + 1 in k'.seen <==> Overlooked(k.mark, k.seen, n, senderCum))
          && (Overlooked(k.mark, k.seen, n, senderCum) ==> k'.mark == Max(k.mark, senderCum)))
  }

  /** What is known of a connection before the arrival counts: a new one, or the one there is. */
  ghost function Started(n: nat, senderCum: nat, k: Knowledge): Knowledge {
    if senderCum == 0 then Knowledge(true, n, {}, n, n)
    else if !k.isOpen then Knowledge(true, 0, {}, 0, 0)
    else k
  }

  lemma {:induction false} AnswerStep(n: nat, senderCum: nat, k: Knowledge, queue: seq<int>, mark': int,
                                      queue': seq<int>)
    requires var s := Started(n, senderCum, k);
             var m := Max(s.mark, senderCum);
             && Sound(s.base, s.seen, s.jump, s.mark, queue)
             && (ReturnsEarly(m, queue, n) ==> mark' == m && queue' == queue)
             && (!ReturnsEarly(m, queue, n) ==>
                   IsMark(m, Numbers(queue) + {n}, mark') && QueueIs(queue', Numbers(queue) + {n}, mark'))
    ensures var s := Started(n, senderCum, k);
            var (seen, jump) := (s.seen + {n as int}, Max(s.jump, senderCum));
            && Sound(s.base, seen, jump, mark', queue') == true
            && Answers(n, senderCum, k, Knowledge(true, s.base, seen, jump, mark')) == true
  {
    var s := Started(n, senderCum, k);
    SoundStep(s.base, s.seen, s.jump, s.mark, queue, n, senderCum, mark', queue');
    if s.seen == {} {
      assert n + 1 !in Numbers(queue) + {n};
    }
  }

  /**
   The element, for one source.  A sender that announces cumulative number 0 starts a new connection;
   otherwise the mark follows the sender's own before the number is confirmed.
   */
  class CumulativeAck {
    var connection: Connection?
    ghost var base: int
    ghost var seen: set<int>
    ghost var jump: int

    ghost function Now(): Knowledge
      reads this, connection
    {
      Knowledge(connection != null, base, seen, jump, if connection == null then 0 else connection.cumSeq)
    }

    ghost predicate Valid()
      reads this, connection
    {
      connection != null ==> Sound(base, seen, jump, connection.cumSeq, connection.queue)
    }

    constructor ()
      ensures connection == null
    {
      connection := null;
    }

    /** `simple_action`: returns the mark that goes into the acknowledgement. */
    method Acknowledge(n: nat, senderCum: nat) returns (ack: int)
      requires Valid()
      modifies this, connection
      ensures Valid() && connection != null && ack == connection.cumSeq
      ensures connection == old(connection) || fresh(connection)
      ensures Answers(n, senderCum, old(Now()), Now()) == true
    {
      if senderCum == 0 {
        connection := null;
      }
      if connection == null {
        connection := new Connection(0);
        base, seen, jump := 0, {}, 0;
      }
      if senderCum == 0 {
        connection.cumSeq := n;
        base, jump := n, n;
      }
      ghost var (mark, queue) := (connection.cumSeq, connection.queue);
      if senderCum != 0 && connection.cumSeq < senderCum {
        connection.cumSeq := senderCum;
      }
      connection.Confirm(n);
      AnswerStep(n, senderCum, old(Now()), queue, connection.cumSeq, connection.queue);
      seen := seen + {n};
      jump := Max(jump, senderCum);
      ack := connection.cumSeq;
    }
  }

  /**
   The one way the mark stops short of a number the receiver has: a repeated number makes `confirm`
   return although, after the sender's jump, the successor of the mark was confirmed before.
   */
  predicate Overlooked(mark: int, seen: set<int>, n: int, senderCum: int) {
    var m := Max(mark, senderCum);
    n >= m && n != m + 1 && n in seen && m + 1 in seen
  }

  datatype Arrival = Arrival(n: nat, senderCum: nat)

  /** No new connection starts after arrival `i`, up to and including arrival `j`. */
  ghost predicate SameConnection(arrivals: seq<Arrival>, i: nat, j: nat)
    requires i <= j < |arrivals|
  {
    forall h | i < h <= j :: arrivals[h].senderCum != 0
  }

  /** Arrival `i` accounts for `k`: it is the number, or the sender counts it as settled. */
  ghost predicate Accounts(a: Arrival, k: int) {
    a.n == k || k <= a.senderCum || (a.senderCum == 0 && k <= a.n)
  }

  ghost predicate Accounted(arrivals: seq<Arrival>, i: nat, k: int)
    requires i < |arrivals|
  {
    exists j: nat | j <= i :: SameConnection(arrivals, j, i) && Accounts(arrivals[j], k)
  }

  lemma {:induction false} AccountedStays(arrivals: seq<Arrival>, i: nat, k: int)
    requires i + 1 < |arrivals| && arrivals[i + 1].senderCum != 0
    requires Accounted(arrivals, i, k)
    ensures Accounted(arrivals, i + 1, k)
  {
    var j: nat :| j <= i && SameConnection(arrivals, j, i) && Accounts(arrivals[j], k);
    assert SameConnection(arrivals, j, i + 1);
  }

  lemma {:induction false} AccountedNow(arrivals: seq<Arrival>, i: nat, k: int)
    requires i < |arrivals| && Accounts(arrivals[i], k)
    ensures Accounted(arrivals, i, k)
  {
    assert SameConnection(arrivals, i, i);
  }

  /** Everything the connection stands on comes from its own arrivals. */
  ghost predicate Grounded(arrivals: seq<Arrival>, i: nat, base: int, seen: set<int>, jump: int)
    requires i < |arrivals|
  {
    forall k | k > 0 && (k <= base || k in seen || k <= jump) :: Accounted(arrivals, i, k)
  }

  lemma {:induction false} GroundedStep(arrivals: seq<Arrival>, i: nat, base: int, seen: set<int>, jump: int)
    requires i + 1 < |arrivals| && arrivals[i + 1].senderCum != 0
    requires Grounded(arrivals, i, base, seen, jump)
    ensures Grounded(arrivals, i + 1, base, seen + {arrivals[i + 1].n}, Max(jump, arrivals[i + 1].senderCum))
  {
    var (next, a) := (i + 1, arrivals[i + 1]);
    forall k | k > 0 && (k <= base || k in seen + {a.n} || k <= Max(jump, a.senderCum))
      ensures Accounted(arrivals, next, k)
    {
      if Accounts(a, k) {
        AccountedNow(arrivals, next, k);
      } else {
        AccountedStays(arrivals, i, k);
      }
    }
  }

  lemma {:induction false} GroundedStart(arrivals: seq<Arrival>, i: nat, base: int, jump: int)
    requires i < |arrivals|
    requires var a := arrivals[i];
             if a.senderCum == 0 then base == a.n && jump == a.n else base == 0 && jump == a.senderCum
    ensures Grounded(arrivals, i, base, {arrivals[i].n}, jump)
  {
    forall k | k > 0 && (k <= base || k in {arrivals[i].n} || k <= jump) ensures Accounted(arrivals, i, k) {
      AccountedNow(arrivals, i, k);
    }
  }

  /** The numbers that arrived in the connection of arrival `i`, up to it. */
  ghost function SeenAt(arrivals: seq<Arrival>, i: nat): set<int>
    requires i < |arrivals|
  {
    if i == 0 || arrivals[i].senderCum == 0 then {arrivals[i].n as int}
    else SeenAt(arrivals, i - 1) + {arrivals[i].n as int}
  }

  /** Acknowledgement `i`, after one of `previous`, is maximal but for the overlooked case. */
  ghost predicate Maximal(arrivals: seq<Arrival>, i: nat, previous: int, ack: int)
    requires i < |arrivals|
  {
    var a := arrivals[i];
    && ack >= a.senderCum && (a.senderCum == 0 ==> ack == a.n)
    && (ack + 1 in SeenAt(arrivals, i) <==>
          i > 0 && a.senderCum != 0 && Overlooked(previous, SeenAt(arrivals, i - 1), a.n, a.senderCum))
    && (ack + 1 in SeenAt(arrivals, i) ==> ack == Max(previous, a.senderCum))
  }

  function Previous(acks: seq<int>, i: nat): int
    requires i <= |acks|
  {
    if i == 0 then 0 else acks[i - 1]
  }

  ghost predicate AllAccounted(arrivals: seq<Arrival>, i: nat, ack: int)
    requires i < |arrivals|
  {
    forall k | 0 < k <= ack :: Accounted(arrivals, i, k)
  }

  /**
   Over any run, with any number of restarts: within a connection acknowledgements never go back, and
   each covers only numbers its own connection accounts for, all of them up to the first gap but for
   the overlooked case.
   */
  method AcknowledgeAll(arrivals: seq<Arrival>) returns (acks: seq<int>)
    ensures |acks| == |arrivals|
    ensures forall i, j | 0 <= i < j < |acks| && SameConnection(arrivals, i, j) :: acks[i] <= acks[j]
    ensures forall i | 0 <= i < |acks| :: AllAccounted(arrivals, i, acks[i])
    ensures forall i {:trigger Maximal(arrivals, i, Previous(acks, i), acks[i])} | 0 <= i < |acks| ::
      Maximal(arrivals, i, Previous(acks, i), acks[i])
  {
    acks := [];
    var a := new CumulativeAck();
    for n := 0 to |arrivals|
      invariant fresh(a) && a.Valid() && (a.connection == null || fresh(a.connection))
      invariant Progress(arrivals, n, acks, a.Now()) == true  // kept folded
    {
      ghost var k := a.Now();
      var ack := a.Acknowledge(arrivals[n].n, arrivals[n].senderCum);
      ProgressStep(arrivals, n, acks, k, a.Now(), a.connection.queue);
      acks := acks + [ack];
    }
  }

  /** The acknowledgements given so far, and what the receiver knows after them. */
  ghost predicate Progress(arrivals: seq<Arrival>, n: nat, acks: seq<int>, k: Knowledge) {
    && n == |acks| <= |arrivals| && (k.isOpen <==> n > 0) && Answered(arrivals, acks)
    && (n > 0 ==>
          && acks[n - 1] == k.mark && k.seen == SeenAt(arrivals, n - 1)
          && Grounded(arrivals, n - 1, k.base, k.seen, k.jump))
  }

  lemma {:induction false} GroundedNext(arrivals: seq<Arrival>, n: nat, k: Knowledge, k': Knowledge)
    requires n < |arrivals| && (k.isOpen <==> n > 0) && Answers(arrivals[n].n, arrivals[n].senderCum, k, k')
    requires n > 0 ==> Grounded(arrivals, n - 1, k.base, k.seen, k.jump)
    ensures Grounded(arrivals, n, k'.base, k'.seen, k'.jump) == true
  {
    if n > 0 && arrivals[n].senderCum != 0 {
      GroundedStep(arrivals, n - 1, k.base, k.seen, k.jump);
    } else {
      GroundedStart(arrivals, n, k'.base, k'.jump);
    }
  }

  lemma {:induction false} MaximalNext(arrivals: seq<Arrival>, n: nat, previous: int, k: Knowledge, k': Knowledge)
    requires n < |arrivals| && (k.isOpen <==> n > 0) && Answers(arrivals[n].n, arrivals[n].senderCum, k, k')
    requires n > 0 ==> k.mark == previous && k.seen == SeenAt(arrivals, n - 1)
    requires k'.mark >= k'.jump
    ensures k'.seen == SeenAt(arrivals, n) && Maximal(arrivals, n, previous, k'.mark) == true
  {
  }

  lemma {:induction false} ProgressStep(arrivals: seq<Arrival>, n: nat, acks: seq<int>, k: Knowledge, k': Knowledge,
                                        queue: seq<int>)
    requires Progress(arrivals, n, acks, k) == true && n < |arrivals|
    requires Answers(arrivals[n].n, arrivals[n].senderCum, k, k') == true
    requires Sound(k'.base, k'.seen, k'.jump, k'.mark, queue) == true
    ensures Progress(arrivals, n + 1, acks + [k'.mark], k') == true
  {
    GroundedNext(arrivals, n, k, k');
    MaximalNext(arrivals, n, Previous(acks, n), k, k');
    MarkAccounted(arrivals, n, k'.base, k'.seen, k'.jump, k'.mark, queue);
    AnsweredMore(arrivals, acks, k'.mark);
  }

  lemma {:induction false} MarkAccounted(arrivals: seq<Arrival>, n: nat, base: int, seen: set<int>, jump: int,
                                         mark: int,
                                         queue: seq<int>)
    requires n < |arrivals| && Grounded(arrivals, n, base, seen, jump) == true
    requires Sound(base, seen, jump, mark, queue) == true
    ensures AllAccounted(arrivals, n, mark) == true
  {
  }

  ghost predicate NeverBack(arrivals: seq<Arrival>, acks: seq<int>) {
    && |acks| <= |arrivals|
    && forall i, j | 0 <= i < j < |acks| && SameConnection(arrivals, i, j) :: acks[i] <= acks[j]
  }

  /** All that is promised of the acknowledgements so far. */
  ghost predicate Answered(arrivals: seq<Arrival>, acks: seq<int>) {
    && NeverBack(arrivals, acks)
    && (forall i | 0 <= i < |acks| :: AllAccounted(arrivals, i, acks[i]))
    && AllMaximal(arrivals, acks)
  }

  ghost predicate AllMaximal(arrivals: seq<Arrival>, acks: seq<int>)
    requires |acks| <= |arrivals|
  {
    forall i {:trigger Maximal(arrivals, i, Previous(acks, i), acks[i])} | 0 <= i < |acks| ::
      Maximal(arrivals, i, Previous(acks, i), acks[i])
  }

  lemma {:induction false} AllMaximalMore(arrivals: seq<Arrival>, acks: seq<int>, ack: int)
    requires |acks| < |arrivals| && AllMaximal(arrivals, acks)
    requires Maximal(arrivals, |acks|, Previous(acks, |acks|), ack) == true
    ensures AllMaximal(arrivals, acks + [ack])
  {
    var now := acks + [ack];
    forall i | 0 <= i < |now| ensures Maximal(arrivals, i, Previous(now, i), now[i]) == true {
      assert Previous(now, i) == Previous(acks, i);
    }
  }

  lemma {:induction false} NeverBackMore(arrivals: seq<Arrival>, acks: seq<int>, ack: int)
    requires NeverBack(arrivals, acks) && |acks| < |arrivals|
    requires var n := |acks|; n > 0 && arrivals[n].senderCum != 0 ==> ack >= acks[n - 1]
    ensures NeverBack(arrivals, acks + [ack])
  {
    var n := |acks|;
    forall i | 0 <= i < n && SameConnection(arrivals, i, n) ensures acks[i] <= ack {
      assert arrivals[n].senderCum != 0;
      assert i < n - 1 ==> SameConnection(arrivals, i, n - 1);
    }
  }

  lemma {:induction false} AnsweredMore(arrivals: seq<Arrival>, acks: seq<int>, ack: int)
    requires Answered(arrivals, acks) == true && |acks| < |arrivals|
    requires var n := |acks|;
             && AllAccounted(arrivals, n, ack) == true && Maximal(arrivals, n, Previous(acks, n), ack) == true
             && (n > 0 && arrivals[n].senderCum != 0 ==> ack >= acks[n - 1])
    ensures Answered(arrivals, acks + [ack]) == true
  {
    NeverBackMore(arrivals, acks, ack);
    AllMaximalMore(arrivals, acks, ack);
  }

  /**
   The overlooked case happens at every mark: a connection starts at `b`, `b` + 2 and `b` + 4 come in, and
   `b` + 4 comes again from a sender that has settled `b` + 1.  The acknowledgement is then `b` + 1.
   */
  method OverlookedRun(b: nat) returns (acks: seq<int>)
    requires b > 0
    ensures acks == [b, b, b, b + 1]
    ensures b + 2 in SeenAt([Arrival(b, 0), Arrival(b + 2, b), Arrival(b + 4, b), Arrival(b + 4, b + 1)], 3)
  {
    var arrivals := [Arrival(b, 0), Arrival(b + 2, b), Arrival(b + 4, b), Arrival(b + 4, b + 1)];
    acks := AcknowledgeAll(arrivals);
    assert SeenAt(arrivals, 0) == {b as int};
    assert SeenAt(arrivals, 1) == {b as int, b + 2};
    assert SeenAt(arrivals, 2) == {b as int, b + 2, b + 4};
    assert SeenAt(arrivals, 3) == {b as int, b + 2, b + 4};
    assert Maximal(arrivals, 0, Previous(acks, 0), acks[0]);
    assert Maximal(arrivals, 1, Previous(acks, 1), acks[1]) && Maximal(arrivals, 2, Previous(acks, 2), acks[2]);
    assert Maximal(arrivals, 3, Previous(acks, 3), acks[3]);
    assert AllAccounted(arrivals, 1, acks[1]) && AllAccounted(arrivals, 2, acks[2]);
    assert AllAccounted(arrivals, 3, acks[3]);
    assert !Accounted(arrivals, 1, b + 1) && !Accounted(arrivals, 2, b + 1) && !Accounted(arrivals, 3, b + 3);
  }
}
