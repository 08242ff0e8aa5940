/**
 Splitting tuples into fragments (net/frag.C).  A tuple is its header (the fields before the sequence
 number), its sequence number and its body; only the body is marshalled and cut into blocks.
 */
module Fragmentation {
  import opened Arithmetic
  import opened Options

  type Byte = b: int | 0 <= b < 256
  type Field = string

  /** What a neighbour leaves behind to be called back. */
  type Callback = nat

  datatype Message = Message(header: seq<Field>, seqNum: nat, body: seq<Field>)

  datatype Fragment = Fragment(header: seq<Field>, seqNum: nat, offset: nat, chunks: nat, payload: seq<Byte>)

  /** Marshalling of tuples; the concrete wire format is not part of the model. */
  datatype Codec = Codec(marshal: seq<Field> -> seq<Byte>, unmarshal: seq<Byte> -> seq<Field>) {
    ghost predicate Faithful() {
      forall body :: unmarshal(marshal(body)) == body && marshal(body) != []
    }
  }

  function Min(x: nat, y: nat): nat {
    if x < y then x else y
  }

  /** Consecutive blocks of at most `size` bytes. */
  function Blocks(bytes: seq<Byte>, size: nat): (blocks: seq<seq<Byte>>)
    requires size > 0
    decreases |bytes|
  {
    if bytes == [] then []
    else
      var n := Min(size, |bytes|);
      [bytes[..n]] + Blocks(bytes[n..], size)
  }

  function Join(blocks: seq<seq<Byte>>): seq<Byte> {
    if blocks == [] then [] else blocks[0] + Join(blocks[1..])
  }

  /** The number of blocks announced in every fragment: the length over the block size, rounded up. */
  function NumChunks(length: nat, size: nat): nat
    requires size > 0
  {
    (length + size - 1) / size
  }

  lemma {:induction false} JoinBlocks(bytes: seq<Byte>, size: nat)
    requires size > 0
    ensures Join(Blocks(bytes, size)) == bytes
    decreases |bytes|
  {
    if bytes != [] {
      var n := Min(size, |bytes|);
      JoinBlocks(bytes[n..], size);
      assert bytes == bytes[..n] + bytes[n..];
    }
  }

  /** Every block but the last is full, and none is empty or longer than `size`. */
  lemma {:induction false} BlockSizes(bytes: seq<Byte>, size: nat, i: nat)
    requires size > 0 && i < |Blocks(bytes, size)|
    ensures var blocks := Blocks(bytes, size);
            0 < |blocks[i]| <= size && (i < |blocks| - 1 ==> |blocks[i]| == size)
    decreases |bytes|
  {
    var n := Min(size, |bytes|);
    if i > 0 {
      BlockSizes(bytes[n..], size, i - 1);
    }
  }

  lemma {:induction false} BlockCount(bytes: seq<Byte>, size: nat)
    requires size > 0
    ensures |Blocks(bytes, size)| == NumChunks(|bytes|, size)
    decreases |bytes|
  {
    if bytes == [] {
      RoundUpStep(0, size);
    } else if |bytes| <= size {
      RoundUpStep(|bytes|, size);
      assert bytes[|bytes|..] == [];
    } else {
      BlockCount(bytes[size..], size);
      RoundUpStep(|bytes|, size);
    }
  }

  lemma {:induction false} RoundUpStep(length: nat, size: nat)
    requires size > 0
    ensures length == 0 ==> NumChunks(length, size) == 0
    ensures 0 < length <= size ==> NumChunks(length, size) == 1
    ensures length > size ==> NumChunks(length, size) == 1 + NumChunks(length - size, size)
  {
    var q, r := (length + size - 1) / size, (length + size - 1) % size;
    if length > size {
      ModIs(length - 1, size, q - 1, r);
    } else if length > 0 {
      ModIs(length + size - 1, size, 1, length - 1);
    } else {
      ModIs(size - 1, size, 0, size - 1);
    }
  }

  /** The fragments of a message. */
  ghost function Split(codec: Codec, size: nat, m: Message): (fragments: seq<Fragment>)
    requires size > 0
    ensures var blocks := Blocks(codec.marshal(m.body), size);
            && |fragments| == |blocks|
            && forall i | 0 <= i < |blocks| ::
                 fragments[i] == Fragment(m.header, m.seqNum, i, |blocks|, blocks[i])
  {
    var blocks := Blocks(codec.marshal(m.body), size);
    seq(|blocks|, i requires 0 <= i < |blocks| => Fragment(m.header, m.seqNum, i, |blocks|, blocks[i]))
  }

  class Frag {
    const codec: Codec
    const blockSize: nat
    const maxQueueSize: nat
    var fragments: seq<Fragment>
    /** The pusher, and the puller, waiting to be called back. */
    var pushCb: Option<Callback>
    var pullCb: Option<Callback>

    /** A puller waits only for fragments, and a pusher only for room. */
    ghost predicate Valid()
      reads this
    {
      && blockSize > 0
      && (pullCb.Some? ==> fragments == [])
      && (pushCb.Some? ==> |fragments| >= maxQueueSize)
    }

    constructor (codec: Codec, blockSize: nat, maxQueueSize: nat)
      requires blockSize > 0 && blockSize % 4 == 0
      ensures Valid() && fragments == [] && pushCb == None && pullCb == None
      ensures this.codec == codec && this.blockSize == blockSize && this.maxQueueSize == maxQueueSize
    {
      this.codec, this.blockSize, this.maxQueueSize := codec, blockSize, maxQueueSize;
      fragments, pushCb, pullCb := [], None, None;
    }

    /** `fragment`: drains the marshalled body block by block. */
    method FragmentTuple(m: Message)
      requires blockSize > 0
      modifies `fragments
      ensures fragments == old(fragments) + Split(codec, blockSize, m)
    {
      var buffer := codec.marshal(m.body);
      var numChunks := NumChunks(|buffer|, blockSize);
      ghost var blocks := Blocks(buffer, blockSize);
      BlockCount(buffer, blockSize);
      var bn := 0;
      while |buffer| > 0
        invariant bn <= |blocks| && Blocks(buffer, blockSize) == blocks[bn..]
        invariant fragments == old(fragments) + Split(codec, blockSize, m)[..bn]
        decreases |buffer|
      {
        var n := Min(blockSize, |buffer|);
        var payload := buffer[..n];
        assert blocks[bn..][0] == payload && blocks[bn..][1..] == blocks[bn + 1..];
        buffer := buffer[n..];
        fragments := fragments + [Fragment(m.header, m.seqNum, bn, numChunks, payload)];
        bn := bn + 1;
      }
      assert Split(codec, blockSize, m)[..bn] == Split(codec, blockSize, m);
    }

    /** `push`: takes the tuple in any case; the result 0 asks the pusher to wait. */
    method Push(m: Message, cb: Callback) returns (result: int, woken: Option<Callback>)
      requires Valid()
      modifies this
      ensures Valid()
      ensures fragments == old(fragments) + Split(codec, blockSize, m)
      ensures result == if |fragments| >= maxQueueSize then 0 else 1
      ensures pushCb == if result == 0 then Some(cb) else old(pushCb)
      ensures woken == if fragments != [] then old(pullCb) else None
      ensures pullCb == if fragments != [] then None else old(pullCb)
    {
      FragmentTuple(m);
      woken := None;
      if fragments != [] && pullCb.Some? {
        woken := pullCb;
        pullCb := None;
      }
      if |fragments| >= maxQueueSize {
        pushCb := Some(cb);
        return 0, woken;
      }
      return 1, woken;
    }

    /** `pull`: hands out the oldest fragment, or nothing and a promise to call back. */
    method Pull(cb: Callback) returns (f: Option<Fragment>, woken: Option<Callback>)
      requires Valid()
      modifies this
      ensures Valid()
      ensures old(fragments) == [] ==>
                && f == None && woken == None && fragments == [] && pushCb == old(pushCb)
                && pullCb == Some(if old(pullCb).Some? then old(pullCb).value else cb)
      ensures old(fragments) != [] ==>
                && f.Some? && old(fragments) == [f.value] + fragments && pullCb == None
                && woken == (if |fragments| < maxQueueSize then old(pushCb) else None)
                && pushCb == (if |fragments| < maxQueueSize then None else old(pushCb))
    {
      woken := None;
      if fragments != [] {
        f := Some(fragments[0]);
        fragments := fragments[1..];
        if |fragments| < maxQueueSize && pushCb.Some? {
          woken := pushCb;
          pushCb := None;
        }
      } else {
        f := None;
        if pullCb.None? {
          pullCb := Some(cb);
        }
      }
    }

    method Handle(event: Event) returns (o: Outcome)
      requires Valid()
      modifies this
      ensures Valid() && Handled(codec, blockSize, maxQueueSize, event, old(Now()), o, Now()) == true
    {
      match event
      case Pushes(m, cb) =>
        var told, woken := Push(m, cb);
        o := Outcome(told, None, woken);
      case Pulls(cb) =>
        var f, woken := Pull(cb);
        o := Outcome(1, f, woken);
    }

    ghost function Now(): State
      reads this
    {
      State(fragments, pushCb, pullCb)
    }
  }

  // ---------------------------------------------------------------------------------
  // Runs of pushes and pulls
  // ---------------------------------------------------------------------------------

  datatype Event = Pushes(m: Message, cb: Callback) | Pulls(cb: Callback)

  /** The answer to a pusher, the fragment for a puller, and who is called back. */
  datatype Outcome = Outcome(told: int, handed: Option<Fragment>, woken: Option<Callback>)

  datatype State = State(fragments: seq<Fragment>, pushCb: Option<Callback>, pullCb: Option<Callback>)

  ghost predicate Handled(codec: Codec, size: nat, room: nat, event: Event, s: State, o: Outcome, s': State)
    requires size > 0
  {
    match event
    case Pushes(m, cb) =>
      && s'.fragments == s.fragments + Split(codec, size, m)
      && o.handed == None && o.told == (if |s'.fragments| >= room then 0 else 1)
      && s'.pushCb == (if o.told == 0 then Some(cb) else s.pushCb)
      && o.woken == (if s'.fragments != [] then s.pullCb else None)
      && s'.pullCb == (if s'.fragments != [] then None else s.pullCb)
    case Pulls(cb) =>
      if s.fragments == [] then
        && o == Outcome(1, None, None) && s'.fragments == [] && s'.pushCb == s.pushCb
        && s'.pullCb == Some(if s.pullCb.Some? then s.pullCb.value else cb)
      else
        && o.told == 1 && o.handed.Some? && s.fragments == [o.handed.value] + s'.fragments && s'.pullCb == None
        && o.woken == (if |s'.fragments| < room then s.pushCb else None)
        && s'.pushCb == (if |s'.fragments| < room then None else s.pushCb)
  }

  /** How many fragments wait after `n` events. */
  ghost function Length(codec: Codec, size: nat, events: seq<Event>, n: nat): nat
    requires size > 0 && n <= |events|
  {
    if n == 0 then 0 else
      var before := Length(codec, size, events, n - 1);
      match events[n - 1]
      case Pushes(m, _) => before + NumChunks(|codec.marshal(m.body)|, size)
      case Pulls(_) => if before == 0 then 0 else before - 1
  }

  ghost function Lengths(codec: Codec, size: nat, events: seq<Event>): (lengths: seq<nat>)
    requires size > 0
    ensures |lengths| == |events| + 1
    ensures forall n | 0 <= n <= |events| :: lengths[n] == Length(codec, size, events, n)
  {
    seq(|events| + 1, n requires 0 <= n <= |events| => Length(codec, size, events, n))
  }

  /** All fragments of the messages pushed, in order. */
  ghost function Pushed(codec: Codec, size: nat, events: seq<Event>, n: nat): seq<Fragment>
    requires size > 0 && n <= |events|
  {
    if n == 0 then [] else
      match events[n - 1]
      case Pushes(m, _) => Pushed(codec, size, events, n - 1) + Split(codec, size, m)
      case Pulls(_) => Pushed(codec, size, events, n - 1)
  }

  /** The fragments handed out, in order. */
  ghost function HandedOut(outcomes: seq<Outcome>): seq<Fragment> {
    if outcomes == [] then [] else
      var last := outcomes[|outcomes| - 1].handed;
      HandedOut(outcomes[..|outcomes| - 1]) + if last.Some? then [last.value] else []
  }

  /** Event `i` is the latest push among the first `n` events. */
  ghost predicate LatestPush(events: seq<Event>, i: nat, n: nat) {
    i < n <= |events| && events[i].Pushes? && forall k | i < k < n :: events[k].Pulls?
  }

  /** There was no fragment from event `i` up to event `n`. */
  ghost predicate Dry(lengths: seq<nat>, i: nat, n: nat) {
    i <= n < |lengths| && forall k | i <= k <= n :: lengths[k] == 0
  }

  /** Event `i` is the first pull to find nothing since there was a fragment last. */
  ghost predicate FirstInVain(events: seq<Event>, lengths: seq<nat>, i: nat, n: nat)
    requires |lengths| == |events| + 1
  {
    && i < n && Dry(lengths, i, n) && events[i].Pulls?
    && forall k | 0 <= k < i && events[k].Pulls? :: !Dry(lengths, k, n)
  }

  /** The latest pusher waits while there is no room. */
  ghost predicate PusherWaits(room: nat, events: seq<Event>, n: nat, length: nat, cb: Option<Callback>) {
    && (length > 0 && length >= room ==> cb.Some?)
    && (cb.Some? ==> length >= room && exists i: nat :: LatestPush(events, i, n))
    && (forall i: nat | LatestPush(events, i, n) && length >= room :: cb == Some(events[i].cb))
  }

  /** The first puller in vain waits while there is nothing to pull. */
  ghost predicate PullerWaits(events: seq<Event>, lengths: seq<nat>, n: nat, cb: Option<Callback>)
    requires |lengths| == |events| + 1
  {
    && (cb.Some? ==> exists i: nat :: FirstInVain(events, lengths, i, n))
    && (forall i: nat | FirstInVain(events, lengths, i, n) :: cb == Some(events[i].cb))
  }

  /** Who waits after `n` events. */
  ghost predicate Waiting(room: nat, events: seq<Event>, lengths: seq<nat>, n: nat, s: State)
    requires n <= |events| && |lengths| == |events| + 1
  {
    && |s.fragments| == lengths[n]
    && PusherWaits(room, events, n, lengths[n], s.pushCb) == true  // kept folded
    && PullerWaits(events, lengths, n, s.pullCb) == true
  }

  /**
   What comes of event `n`.  A pusher is told to wait when there is no room left, and the pull that makes
   room again calls the latest pusher back.  A puller finds the oldest fragment or none, and the push that
   ends a dry spell calls the first puller back that came in vain.
   */
  ghost predicate RightOutcome(room: nat, events: seq<Event>, lengths: seq<nat>, n: nat, o: Outcome)
    requires n < |events| && |lengths| == |events| + 1
  {
    var (length, length') := (lengths[n], lengths[n + 1]);
    match events[n]
    case Pushes(_, _) =>
      && o.handed == None && o.told == (if length' >= room then 0 else 1)
      && (o.woken.Some? ==> length' > 0 && exists i: nat :: FirstInVain(events, lengths, i, n))
      && (forall i: nat | FirstInVain(events, lengths, i, n) && length' > 0 :: o.woken == Some(events[i].cb))
    case Pulls(_) =>
      && (o.handed.Some? <==> length > 0)
      && (o.woken.Some? <==> length' < room <= length)
      && (forall i: nat | LatestPush(events, i, n) && length' < room <= length :: o.woken == Some(events[i].cb))
  }

  /** The lengths follow one event. */
  ghost predicate LengthStep(event: Event, length: nat, length': nat) {
    if event.Pushes? then length' >= length else length' == if length == 0 then 0 else length - 1
  }

  lemma {:induction false} OutcomeRight(codec: Codec, size: nat, room: nat, events: seq<Event>, lengths: seq<nat>,
                                        n: nat, s: State, o: Outcome, s': State)
    requires size > 0 && n < |events| && |lengths| == |events| + 1 && Waiting(room, events, lengths, n, s)
    requires Handled(codec, size, room, events[n], s, o, s') && lengths[n + 1] == |s'.fragments|
    ensures RightOutcome(room, events, lengths, n, o) == true
    ensures LengthStep(events[n], lengths[n], lengths[n + 1])
  {
  }

  lemma {:induction false} PusherCame(room: nat, events: seq<Event>, n: nat, length: nat, length': nat,
                                      cb: Option<Callback>)
    requires n < |events| && events[n].Pushes? && length <= length' && PusherWaits(room, events, n, length, cb)
    ensures PusherWaits(room, events, n + 1, length', if length' >= room then Some(events[n].cb) else cb)
  {
    assert LatestPush(events, n, n + 1);
  }

  lemma {:induction false} LatestStays(events: seq<Event>, i: nat, n: nat)
    requires n < |events| && events[n].Pulls?
    ensures LatestPush(events, i, n + 1) <==> LatestPush(events, i, n)
  {
  }

  lemma {:induction false} PusherStays(room: nat, events: seq<Event>, n: nat, length: nat, length': nat,
                                       cb: Option<Callback>)
    requires n < |events| && events[n].Pulls? && PusherWaits(room, events, n, length, cb)
    requires LengthStep(events[n], length, length')
    ensures PusherWaits(room, events, n + 1, length', if length > 0 && length' < room then None else cb)
  {
    forall i: nat ensures LatestPush(events, i, n + 1) <==> LatestPush(events, i, n) {
      LatestStays(events, i, n);
    }
  }

  lemma {:induction false} PusherNext(codec: Codec, size: nat, room: nat, events: seq<Event>, n: nat, s: State,
                                      o: Outcome, s': State)
    requires size > 0 && n < |events| && PusherWaits(room, events, n, |s.fragments|, s.pushCb) == true
    requires Handled(codec, size, room, events[n], s, o, s')
    ensures PusherWaits(room, events, n + 1, |s'.fragments|, s'.pushCb) == true
  {
    if events[n].Pushes? {
      PusherCame(room, events, n, |s.fragments|, |s'.fragments|, s.pushCb);
    } else {
      PusherStays(room, events, n, |s.fragments|, |s'.fragments|, s.pushCb);
    }
  }

  lemma {:induction false} FirstInVainNext(events: seq<Event>, lengths: seq<nat>, i: nat, n: nat)
    requires n < |events| && |lengths| == |events| + 1 && lengths[n + 1] == 0 && i < n
    ensures FirstInVain(events, lengths, i, n + 1) <==> FirstInVain(events, lengths, i, n)
  {
    assert forall k | 0 <= k <= n :: Dry(lengths, k, n + 1) <==> Dry(lengths, k, n);
  }

  lemma {:induction false} EarliestPull(events: seq<Event>, lengths: seq<nat>, k: nat, n: nat)
    requires |lengths| == |events| + 1 && k < n && Dry(lengths, k, n) && events[k].Pulls?
    ensures exists i: nat :: FirstInVain(events, lengths, i, n)
  {
    if j: nat :| j < k && events[j].Pulls? && Dry(lengths, j, n) {
      EarliestPull(events, lengths, j, n);
    } else {
      assert FirstInVain(events, lengths, k, n);
    }
  }

  /** A pull in vain at event `n` is the first one exactly when nobody waits. */
  lemma {:induction false} FirstOrLater(events: seq<Event>, lengths: seq<nat>, n: nat)
    requires n < |events| && events[n].Pulls? && |lengths| == |events| + 1 && lengths[n] == 0 && lengths[n + 1] == 0
    ensures FirstInVain(events, lengths, n, n + 1) <==> !exists i: nat :: FirstInVain(events, lengths, i, n)
  {
    assert forall k | 0 <= k <= n :: Dry(lengths, k, n + 1) <==> Dry(lengths, k, n);
    if k: nat :| k < n && events[k].Pulls? && Dry(lengths, k, n) {
      EarliestPull(events, lengths, k, n);
    }
  }

  /** Nobody waits to pull where there is a fragment, or was one just before. */
  lemma {:induction false} NoPuller(events: seq<Event>, lengths: seq<nat>, n: nat)
    requires n < |events| && |lengths| == |events| + 1 && (lengths[n] > 0 || lengths[n + 1] > 0)
    ensures PullerWaits(events, lengths, n + 1, None)
  {
  }

  /** The first puller goes on waiting, and a later one in vain comes after it. */
  lemma {:induction false} PullerStays(events: seq<Event>, lengths: seq<nat>, n: nat, cb: Option<Callback>)
    requires n < |events| && |lengths| == |events| + 1 && lengths[n] == 0 && lengths[n + 1] == 0
    requires PullerWaits(events, lengths, n, cb)
    ensures events[n].Pushes? || cb.Some? ==> PullerWaits(events, lengths, n + 1, cb)
    ensures events[n].Pulls? && cb.None? ==> PullerWaits(events, lengths, n + 1, Some(events[n].cb))
  {
    forall i: nat | i < n ensures FirstInVain(events, lengths, i, n + 1) <==> FirstInVain(events, lengths, i, n) {
      FirstInVainNext(events, lengths, i, n);
    }
    if events[n].Pulls? {
      FirstOrLater(events, lengths, n);
    }
  }

  lemma {:induction false} PullerNext(codec: Codec, size: nat, room: nat, events: seq<Event>, lengths: seq<nat>,
                                      n: nat, s: State, o: Outcome, s': State)
    requires size > 0 && n < |events| && |lengths| == |events| + 1 && Waiting(room, events, lengths, n, s)
    requires Handled(codec, size, room, events[n], s, o, s') && lengths[n + 1] == |s'.fragments|
    ensures PullerWaits(events, lengths, n + 1, s'.pullCb) == true
  {
    if s.fragments == [] && s'.fragments == [] {
      PullerStays(events, lengths, n, s.pullCb);
    } else {
      NoPuller(events, lengths, n);
    }
  }

  lemma {:induction false} NobodyWaits(room: nat, events: seq<Event>, lengths: seq<nat>)
    requires |lengths| == |events| + 1 && lengths[0] == 0
    ensures Waiting(room, events, lengths, 0, State([], None, None)) == true
  {
  }

  lemma {:induction false} WaitingNext(codec: Codec, size: nat, room: nat, events: seq<Event>, lengths: seq<nat>,
                                       n: nat, s: State, o: Outcome, s': State)
    requires size > 0 && n < |events| && |lengths| == |events| + 1 && Waiting(room, events, lengths, n, s) == true
    requires Handled(codec, size, room, events[n], s, o, s') == true && lengths[n + 1] == |s'.fragments|
    ensures Waiting(room, events, lengths, n + 1, s') == true
    ensures RightOutcome(room, events, lengths, n, o) == true
  {
    OutcomeRight(codec, size, room, events, lengths, n, s, o, s');
    PusherNext(codec, size, room, events, n, s, o, s');
    PullerNext(codec, size, room, events, lengths, n, s, o, s');
  }

  lemma {:induction false} InOrderNext(codec: Codec, size: nat, room: nat, events: seq<Event>, n: nat, s: State,
                                       o: Outcome, s': State, outcomes: seq<Outcome>)
    requires size > 0 && n < |events| && Handled(codec, size, room, events[n], s, o, s')
    requires HandedOut(outcomes) + s.fragments == Pushed(codec, size, events, n)
    requires |s.fragments| == Length(codec, size, events, n)
    ensures HandedOut(outcomes + [o]) + s'.fragments == Pushed(codec, size, events, n + 1)
    ensures |s'.fragments| == Length(codec, size, events, n + 1)
  {
    assert (outcomes + [o])[..|outcomes|] == outcomes;
    if events[n].Pushes? {
      BlockCount(codec.marshal(events[n].m.body), size);
    }
  }

  ghost predicate AllRight(room: nat, events: seq<Event>, lengths: seq<nat>, outcomes: seq<Outcome>)
    requires |outcomes| <= |events| && |lengths| == |events| + 1
  {
    forall n | 0 <= n < |outcomes| :: RightOutcome(room, events, lengths, n, outcomes[n])
  }

  lemma {:induction false} RightNext(room: nat, events: seq<Event>, lengths: seq<nat>, outcomes: seq<Outcome>,
                                     o: Outcome)
    requires |outcomes| < |events| && |lengths| == |events| + 1 && AllRight(room, events, lengths, outcomes)
    requires RightOutcome(room, events, lengths, |outcomes|, o)
    ensures AllRight(room, events, lengths, outcomes + [o]) == true
  {
  }

  /**
   Any run of pushes and pulls: the fragments of all messages pushed come out in order, and every event
   has the outcome it should, so that nobody who was told to wait is forgotten.
   */
  method Run(codec: Codec, blockSize: nat, maxQueueSize: nat, events: seq<Event>)
    returns (outcomes: seq<Outcome>, left: seq<Fragment>)
    requires blockSize > 0 && blockSize % 4 == 0
    ensures |outcomes| == |events|
    ensures HandedOut(outcomes) + left == Pushed(codec, blockSize, events, |events|)
    ensures AllRight(maxQueueSize, events, Lengths(codec, blockSize, events), outcomes)
  {
    ghost var lengths := Lengths(codec, blockSize, events);
    var frag := new Frag(codec, blockSize, maxQueueSize);
    outcomes := [];
    NobodyWaits(maxQueueSize, events, lengths);
    assert AllRight(maxQueueSize, events, lengths, []);
    for n := 0 to |events|
      invariant fresh(frag) && frag.Valid() && |outcomes| == n
      invariant frag.codec == codec && frag.blockSize == blockSize && frag.maxQueueSize == maxQueueSize
      invariant Waiting(maxQueueSize, events, lengths, n, frag.Now()) == true
      invariant |frag.fragments| == Length(codec, blockSize, events, n)
      invariant HandedOut(outcomes) + frag.fragments == Pushed(codec, blockSize, events, n)
      invariant AllRight(maxQueueSize, events, lengths, outcomes) == true
    {
      ghost var s := frag.Now();
      var o := frag.Handle(events[n]);
      InOrderNext(codec, blockSize, maxQueueSize, events, n, s, o, frag.Now(), outcomes);
      WaitingNext(codec, blockSize, maxQueueSize, events, lengths, n, s, o, frag.Now());
      RightNext(maxQueueSize, events, lengths, outcomes, o);
      outcomes := outcomes + [o];
    }
    left := frag.fragments;
  }
}
