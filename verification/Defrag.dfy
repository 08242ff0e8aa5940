/**
 Reassembling tuples from fragments (net/defrag.C), under any loss, repetition, reordering and
 interleaving of the fragments in transit.
 */
module Reassembly {
  import Sequences
  import opened Fragmentation
  import opened Options

  /** What was sent: a codec, a block size, and one message for every sequence number in use. */
  datatype Source = Source(codec: Codec, size: nat, sent: map<nat, Message>) {
    ghost predicate Valid() {
      && size > 0
      && codec.Faithful()
      && forall s | s in sent :: sent[s].seqNum == s
    }

    ghost function Fragments(s: nat): seq<Fragment>
      requires size > 0 && s in sent
    {
      Split(codec, size, sent[s])
    }

    /** `f` is one of the fragments of the message its sequence number names. */
    ghost predicate Genuine(f: Fragment)
      requires size > 0
    {
      && f.seqNum in sent
      && f.offset < |Fragments(f.seqNum)|
      && f == Fragments(f.seqNum)[f.offset]
    }
  }

  // ---------------------------------------------------------------------------------
  // The pending fragments: a multimap from sequence number to fragment
  // ---------------------------------------------------------------------------------

  ghost predicate Ordered(pending: seq<Fragment>) {
    forall i, j | 0 <= i < j < |pending| :: pending[i].seqNum <= pending[j].seqNum
  }

  ghost predicate NoRepeats(pending: seq<Fragment>) {
    forall i, j | 0 <= i < j < |pending| ::
      pending[i].seqNum != pending[j].seqNum || pending[i].offset != pending[j].offset
  }

  ghost predicate Wanted(source: Source, pending: seq<Fragment>)
    requires source.size > 0
  {
    Ordered(pending) && NoRepeats(pending) && forall f | f in pending :: source.Genuine(f)
  }

  /** The offsets pending for a sequence number. */
  ghost function Offsets(pending: seq<Fragment>, s: nat): set<nat> {
    set f | f in pending && f.seqNum == s :: f.offset
  }

  ghost function AllOffsets(n: nat): (r: set<nat>)
    ensures forall o :: o in r <==> 0 <= o < n
  {
    if n == 0 then {} else AllOffsets(n - 1) + {n - 1}
  }

  /**
   The test at the start of `defragment`.  The scan runs from the first pending fragment with this
   sequence number to the end of the map, so it also meets the fragments of higher sequence numbers.
   */
  ghost predicate Dropped(pending: seq<Fragment>, t: Fragment) {
    && (exists f :: f in pending && f.seqNum == t.seqNum)
    && (exists f :: f in pending && f.seqNum >= t.seqNum && f.offset == t.offset)
  }

  /** The same fragment is pending already. */
  ghost predicate Repeated(pending: seq<Fragment>, t: Fragment) {
    t.offset in Offsets(pending, t.seqNum)
  }

  /**
   Exactly when the test is right: a fragment is dropped although it is new if and only if others of
   its message are pending and some higher sequence number has a fragment pending at its offset.
   */
  lemma {:induction false} DroppedWrongly(pending: seq<Fragment>, t: Fragment)
    ensures Repeated(pending, t) ==> Dropped(pending, t)
    ensures !Repeated(pending, t) ==>
              (Dropped(pending, t) <==>
                 && Offsets(pending, t.seqNum) != {}
                 && exists s :: s > t.seqNum && t.offset in Offsets(pending, s))
  {
    if Repeated(pending, t) {
      var f :| f in pending && f.seqNum == t.seqNum && f.offset == t.offset;
    } else {
      if Dropped(pending, t) {
        var f :| f in pending && f.seqNum == t.seqNum;
        assert f.offset in Offsets(pending, t.seqNum);
        var g :| g in pending && g.seqNum >= t.seqNum && g.offset == t.offset;
        assert g.seqNum > t.seqNum && t.offset in Offsets(pending, g.seqNum);
      }
      if Offsets(pending, t.seqNum) != {} && exists s :: s > t.seqNum && t.offset in Offsets(pending, s) {
        var o :| o in Offsets(pending, t.seqNum);
        var f :| f in pending && f.seqNum == t.seqNum && f.offset == o;
        var s :| s > t.seqNum && t.offset in Offsets(pending, s);
        var g :| g in pending && g.seqNum == s && g.offset == t.offset;
      }
    }
  }

  /**
   It does happen, to any two messages of two or more fragments: when the second fragment of the later
   one overtakes the second fragment of the earlier one, that is dropped, although it arrived only once.
   A message of two fragments has then not come out, although all of it arrived.
   */
  method InterleavedRun(ghost source: Source, unmarshal: seq<Byte> -> seq<Field>, ghost s: nat, ghost s': nat,
                        arrivals: seq<Fragment>)
    returns (pending: seq<Fragment>, emitted: seq<Message>)
    requires source.Valid() && unmarshal == source.codec.unmarshal && s in source.sent && s' in source.sent && s < s'
    requires |source.Fragments(s)| >= 2 && |source.Fragments(s')| >= 2
    requires arrivals == [source.Fragments(s)[0], source.Fragments(s')[1], source.Fragments(s)[1]]
    ensures emitted == [] && arrivals[2] !in pending && arrivals[0] in pending && arrivals[1] in pending
    ensures |source.Fragments(s)| == 2 ==> Offsets(arrivals, s) == AllOffsets(2)
  {
    var defrag := new Defrag(source, unmarshal);
    for n := 0 to 2
      invariant fresh(defrag) && defrag.source == source && defrag.Valid() && defrag.tuples == []
      invariant JustThese(defrag.fragments, arrivals, n) == true  // kept folded
    {
      FirstOnes(source, s, s', arrivals, defrag.fragments, n);
      ghost var before := defrag.fragments;
      var _ := defrag.Push(arrivals[n]);
      JustTheseMore(before, defrag.fragments, arrivals, n);
    }
    LastOne(source, s, s', arrivals, defrag.fragments);
    var _ := defrag.Push(arrivals[2]);
    pending, emitted := defrag.fragments, defrag.tuples;
  }

  ghost predicate JustThese(pending: seq<Fragment>, arrivals: seq<Fragment>, n: nat)
    requires n <= |arrivals|
  {
    forall f :: f in pending <==> f in arrivals[..n]
  }

  lemma {:induction false} JustTheseMore(pending: seq<Fragment>, pending': seq<Fragment>, arrivals: seq<Fragment>,
                                         n: nat)
    requires n < |arrivals| && JustThese(pending, arrivals, n)
    requires forall f :: f in pending' <==> f in pending || f == arrivals[n]
    ensures JustThese(pending', arrivals, n + 1)
  {
    assert arrivals[..n + 1] == arrivals[..n] + [arrivals[n]];
  }

  lemma {:induction false} LastOne(source: Source, s: nat, s': nat, arrivals: seq<Fragment>, pending: seq<Fragment>)
    requires source.Valid() && s in source.sent && s' in source.sent && s < s'
    requires |source.Fragments(s)| >= 2 && |source.Fragments(s')| >= 2
    requires arrivals == [source.Fragments(s)[0], source.Fragments(s')[1], source.Fragments(s)[1]]
    requires JustThese(pending, arrivals, 2)
    ensures source.Genuine(arrivals[2]) && Dropped(pending, arrivals[2]) && arrivals[2] !in pending
    ensures arrivals[0] in pending && arrivals[1] in pending
    ensures |source.Fragments(s)| == 2 ==> Offsets(arrivals, s) == AllOffsets(2)
  {
    assert arrivals[..2] == [arrivals[0], arrivals[1]];
    assert arrivals[0] in arrivals && arrivals[2] in arrivals;
  }

  lemma {:induction false} FirstOnes(source: Source, s: nat, s': nat, arrivals: seq<Fragment>,
                                     pending: seq<Fragment>, n: nat)
    requires source.Valid() && s in source.sent && s' in source.sent && s < s' && n < 2
    requires |source.Fragments(s)| >= 2 && |source.Fragments(s')| >= 2
    requires arrivals == [source.Fragments(s)[0], source.Fragments(s')[1], source.Fragments(s)[1]]
    requires JustThese(pending, arrivals, n)
    ensures source.Genuine(arrivals[n]) && !Dropped(pending, arrivals[n]) && !Completes(pending, arrivals[n])
  {
    var t := arrivals[n];
    assert arrivals[..n] == if n == 0 then [] else [arrivals[0]];
    assert (1 - n) in AllOffsets(t.chunks);
    assert (1 - n) !in Offsets(pending, t.seqNum) + {t.offset};
  }

  lemma {:induction false} FullCount(offsets: set<nat>, n: nat)
    requires forall o | o in offsets :: o < n
    ensures |offsets| <= n
    ensures |offsets| == n <==> offsets == AllOffsets(n)
  {
    if n == 0 {
      assert offsets == {};
    } else {
      var rest := offsets - {n - 1};
      FullCount(rest, n - 1);
      assert AllOffsets(n) == AllOffsets(n - 1) + {n - 1};
      if n - 1 in offsets {
        assert offsets == rest + {n - 1};
      } else {
        assert rest == offsets;
      }
    }
  }

  lemma {:induction false} InsertKeepsOrdered(pending: seq<Fragment>, t: Fragment, k: nat)
    requires Ordered(pending) && k <= |pending|
    requires forall i | 0 <= i < k :: pending[i].seqNum <= t.seqNum
    requires forall i | k <= i < |pending| :: pending[i].seqNum > t.seqNum
    ensures Ordered(Sequences.Inserted(pending, k, t))
  {
  }

  lemma {:induction false} InsertKeepsWanted(source: Source, pending: seq<Fragment>, t: Fragment, k: nat)
    requires source.size > 0 && Wanted(source, pending) && source.Genuine(t) && !Repeated(pending, t)
    requires k <= |pending|
    requires forall i | 0 <= i < k :: pending[i].seqNum <= t.seqNum
    requires forall i | k <= i < |pending| :: pending[i].seqNum > t.seqNum
    ensures var now := Sequences.Inserted(pending, k, t);
            Wanted(source, now) && forall f :: f in now <==> f in pending || f == t
  {
    var now := Sequences.Inserted(pending, k, t);
    Sequences.InsertedMembers(pending, k, t);
    InsertKeepsOrdered(pending, t, k);
    forall i, j | 0 <= i < j < |now| ensures !(now[i].seqNum == now[j].seqNum && now[i].offset == now[j].offset) {
      if i == k || j == k {
        var h := if i == k then j - 1 else i;
        assert pending[h].seqNum == t.seqNum ==> pending[h].offset in Offsets(pending, t.seqNum);
      }
    }
  }

  lemma {:induction false} EraseKeepsWanted(source: Source, pending: seq<Fragment>, k: nat)
    requires source.size > 0 && Wanted(source, pending) && k < |pending|
    ensures var now := Sequences.Erased(pending, k);
            Wanted(source, now) && forall f :: f in now <==> f in pending && f != pending[k]
  {
    var now := Sequences.Erased(pending, k);
    assert pending == pending[..k] + [pending[k]] + pending[k + 1..];
    forall f | f in now ensures f != pending[k] {
      var i :| 0 <= i < |now| && now[i] == f;
      if i < k {
        assert pending[i] == f;
      } else {
        assert pending[i + 1] == f;
      }
    }
  }

  /** The payloads of a message, glued together, unmarshal to its body. */
  lemma {:induction false} PayloadsRestoreBody(source: Source, s: nat, bytes: seq<Byte>)
    requires source.Valid() && s in source.sent
    requires bytes == Join(Payloads(source.Fragments(s)))
    ensures source.codec.unmarshal(bytes) == source.sent[s].body
  {
    var m := source.sent[s];
    assert Payloads(source.Fragments(s)) == Blocks(source.codec.marshal(m.body), source.size);
    JoinBlocks(source.codec.marshal(m.body), source.size);
  }

  ghost function Payloads(fragments: seq<Fragment>): seq<seq<Byte>> {
    seq(|fragments|, i requires 0 <= i < |fragments| => fragments[i].payload)
  }

  lemma {:induction false} JoinOneMore(blocks: seq<seq<Byte>>, i: nat)
    requires i < |blocks|
    ensures Join(blocks[..i + 1]) == Join(blocks[..i]) + blocks[i]
  {
    if i == 0 {
      assert blocks[..1] == [blocks[0]] && blocks[..1][1..] == [];
    } else {
      JoinOneMore(blocks[1..], i - 1);
      assert blocks[..i + 1][1..] == blocks[1..][..i] && blocks[..i][1..] == blocks[1..][..i - 1];
    }
  }

  class Defrag {
    ghost const source: Source
    const unmarshal: seq<Byte> -> seq<Field>
    var fragments: seq<Fragment>
    var tuples: seq<Message>
    /** The puller waiting to be called back. */
    var pullCb: Option<Callback>

    /** Everything pending is genuine and incomplete, everything reassembled was sent. */
    ghost predicate Valid()
      reads this
    {
      && source.Valid() && unmarshal == source.codec.unmarshal
      && Wanted(source, fragments)
      && (forall s | s in source.sent :: Offsets(fragments, s) != AllOffsets(|source.Fragments(s)|))
      && (forall m | m in tuples :: m.seqNum in source.sent && m == source.sent[m.seqNum])
      && (pullCb.Some? ==> tuples == [])
    }

    constructor (ghost source: Source, unmarshal: seq<Byte> -> seq<Field>)
      requires source.Valid() && unmarshal == source.codec.unmarshal
      ensures this.source == source && Valid() && fragments == [] && tuples == [] && pullCb == None
    {
      this.source, this.unmarshal := source, unmarshal;
      fragments, tuples, pullCb := [], [], None;
      new;
      forall s | s in source.sent ensures Offsets(fragments, s) != AllOffsets(|source.Fragments(s)|) {
        var m := source.sent[s];
        assert Blocks(source.codec.marshal(m.body), source.size) != [];
        assert 0 in AllOffsets(|source.Fragments(s)|);
      }
    }

    /** `find` of the multimap: the first pending fragment with this sequence number, or the end. */
    method Find(s: nat) returns (i: nat)
      ensures i <= |fragments|
      ensures forall k | 0 <= k < i :: fragments[k].seqNum != s
      ensures i < |fragments| ==> fragments[i].seqNum == s
    {
      i := 0;
      while i < |fragments| && fragments[i].seqNum != s
        invariant i <= |fragments|
        invariant forall k | 0 <= k < i :: fragments[k].seqNum != s
      {
        i := i + 1;
      }
    }

    /** The scan for a duplicate offset. */
    method IsDropped(t: Fragment) returns (dropped: bool)
      requires Ordered(fragments)
      ensures dropped <==> Dropped(fragments, t)
    {
      var start := Find(t.seqNum);
      var i := start;
      while i < |fragments|
        invariant start <= i <= |fragments|
        invariant forall k | start <= k < i :: fragments[k].offset != t.offset
      {
        if fragments[i].offset == t.offset {
          assert fragments[start] in fragments && fragments[i] in fragments;
          return true;
        }
        i := i + 1;
      }
      forall k | 0 <= k < |fragments| && start < |fragments| && fragments[k].seqNum >= t.seqNum
        ensures fragments[k].offset != t.offset
      {
        assert k >= start;
      }
      return false;
    }

    /** `insert` of the multimap: after the fragments with the same sequence number. */
    method Insert(t: Fragment)
      requires source.size > 0 && Wanted(source, fragments) && source.Genuine(t) && !Repeated(fragments, t)
      modifies `fragments
      ensures Wanted(source, fragments)
      ensures forall f :: f in fragments <==> f in old(fragments) || f == t
    {
      var k := 0;
      while k < |fragments| && fragments[k].seqNum <= t.seqNum
        invariant k <= |fragments|
        invariant forall i | 0 <= i < k :: fragments[i].seqNum <= t.seqNum
      {
        k := k + 1;
      }
      InsertKeepsWanted(source, fragments, t, k);
      fragments := Sequences.Inserted(fragments, k, t);
    }

    /** `count` of the multimap. */
    method Count(s: nat) returns (n: nat)
      requires NoRepeats(fragments)
      ensures n == |Offsets(fragments, s)|
    {
      n := 0;
      for i := 0 to |fragments|
        invariant n == |Offsets(fragments[..i], s)|
      {
        assert fragments[..i + 1] == fragments[..i] + [fragments[i]];
        CountStep(fragments, i, s);
        if fragments[i].seqNum == s {
          n := n + 1;
        }
      }
      assert fragments[..|fragments|] == fragments;
    }

    /** Finds, erases and returns the fragment at one offset of a complete message. */
    method Take(s: nat, offset: nat) returns (p: Fragment)
      requires source.size > 0 && Wanted(source, fragments) && offset in Offsets(fragments, s)
      modifies `fragments
      ensures Wanted(source, fragments) && p.seqNum == s && p.offset == offset && source.Genuine(p)
      ensures forall f :: f in fragments <==> f in old(fragments) && f != p
    {
      ghost var f :| f in fragments && f.seqNum == s && f.offset == offset;
      ghost var at :| 0 <= at < |fragments| && fragments[at] == f;
      var i := Find(s);
      while fragments[i].offset != offset
        invariant i <= at && fragments == old(fragments)
        invariant fragments[i].seqNum == s
        decreases at - i
      {
        i := i + 1;
      }
      p := fragments[i];
      EraseKeepsWanted(source, fragments, i);
      fragments := Sequences.Erased(fragments, i);
    }

    /** Puts the fragments of a complete message back together, removing them. */
    method Reassemble(s: nat, chunks: nat) returns (bytes: seq<Byte>)
      requires source.Valid() && Wanted(source, fragments)
      requires s in source.sent && chunks == |source.Fragments(s)|
      requires Offsets(fragments, s) == AllOffsets(chunks)
      modifies `fragments
      ensures bytes == Join(Payloads(source.Fragments(s)))
      ensures Wanted(source, fragments)
      ensures forall f :: f in fragments <==> f in old(fragments) && f.seqNum != s
    {
      ghost var payloads := Payloads(source.Fragments(s));
      bytes := [];
      for i := 0 to chunks
        invariant Wanted(source, fragments)
        invariant forall f :: f in fragments <==> f in old(fragments) && (f.seqNum == s ==> f.offset >= i)
        invariant bytes == Join(payloads[..i])
      {
        assert i in Offsets(old(fragments), s);
        assert i in Offsets(fragments, s);
        var p := Take(s, i);
        JoinOneMore(payloads, i);
        bytes := bytes + p.payload;
      }
      assert payloads[..chunks] == payloads;
      forall f | f in old(fragments) && f.seqNum == s ensures f.offset < chunks {
        assert f.offset in Offsets(old(fragments), s);
      }
    }

    /** `defragment`: files a fragment and, when its message is complete, queues the tuple. */
    method Defragment(t: Fragment)
      requires Valid() && source.Genuine(t)
      modifies `fragments, `tuples
      ensures Wanted(source, fragments)
      ensures Arrived(source, t, old(fragments), fragments, old(tuples), tuples)
    {
      var dropped := IsDropped(t);
      DroppedWrongly(fragments, t);
      if dropped {
        return;
      }
      Insert(t);
      OffsetsInserted(old(fragments), fragments, t);
      var n := Count(t.seqNum);
      forall o | o in Offsets(fragments, t.seqNum) ensures o < t.chunks {
        var f :| f in fragments && f.seqNum == t.seqNum && f.offset == o;
        assert source.Genuine(f);
      }
      FullCount(Offsets(fragments, t.seqNum), t.chunks);
      if n == t.chunks {
        var bytes := Reassemble(t.seqNum, t.chunks);
        PayloadsRestoreBody(source, t.seqNum, bytes);
        tuples := tuples + [Message(t.header, t.seqNum, unmarshal(bytes))];
      }
    }

    /** `push`: the tuple goes in, and a waiting puller is called back when there is something to pull. */
    method Push(t: Fragment) returns (woken: Option<Callback>)
      requires Valid() && source.Genuine(t)
      modifies this
      ensures Valid()
      ensures Arrived(source, t, old(fragments), fragments, old(tuples), tuples)
      ensures woken == if tuples != [] then old(pullCb) else None
      ensures pullCb == if tuples != [] then None else old(pullCb)
    {
      ghost var before := fragments;
      Defragment(t);
      StillIncomplete(source, t, before, fragments, old(tuples), tuples);
      woken := None;
      if tuples != [] && pullCb.Some? {
        woken := pullCb;
        pullCb := None;
      }
    }

    /** Arrival `n` of a run. */
    method Receive(arrivals: seq<Fragment>, n: nat)
      requires Valid() && n < |arrivals| && source.Genuine(arrivals[n])
      requires Received(source, arrivals, n, fragments, tuples) == true
      modifies this
      ensures Valid() && Received(source, arrivals, n + 1, fragments, tuples) == true
    {
      ghost var (pending, before) := (fragments, tuples);
      var _ := Push(arrivals[n]);
      ReceivedStep(source, arrivals, n, pending, fragments, before, tuples);
    }

    /** `pull`: hands out the oldest tuple, or nothing and a promise to call back. */
    method Pull(cb: Callback) returns (t: Option<Message>)
      requires Valid()
      modifies `tuples, `pullCb
      ensures Valid()
      ensures old(tuples) == [] ==>
                && t == None && tuples == []
                && pullCb == Some(if old(pullCb).Some? then old(pullCb).value else cb)
      ensures old(tuples) != [] ==> t.Some? && old(tuples) == [t.value] + tuples && pullCb == old(pullCb)
    {
      if tuples != [] {
        t := Some(tuples[0]);
        assert forall m | m in tuples[1..] :: m in tuples;
        tuples := tuples[1..];
      } else {
        t := None;
        if pullCb.None? {
          pullCb := Some(cb);
        }
      }
    }

    /**
     The fragments of one message arrive in any order, with repeats, while nothing of this or a higher
     sequence number is pending.  Nothing comes out before the last missing fragment is in; then
     exactly the message does, and nothing of it stays behind.
     */
    method ReceiveMessage(s: nat, arrivals: seq<Fragment>)
      requires Valid() && s in source.sent
      requires forall f | f in fragments :: f.seqNum < s
      requires forall f | f in arrivals :: source.Genuine(f) && f.seqNum == s
      requires forall n | 0 <= n < |arrivals| :: Offsets(arrivals[..n], s) != AllOffsets(|source.Fragments(s)|)
      modifies this
      ensures Valid()
      ensures Offsets(arrivals, s) != AllOffsets(|source.Fragments(s)|) ==>
                && tuples == old(tuples)
                && (forall f :: f in fragments <==> f in old(fragments) || f in arrivals)
      ensures Offsets(arrivals, s) == AllOffsets(|source.Fragments(s)|) ==>
                && tuples == old(tuples) + [source.sent[s]]
                && (forall f :: f in fragments <==> f in old(fragments))
    {
      ghost var all := AllOffsets(|source.Fragments(s)|);
      for n := 0 to |arrivals|
        invariant Valid()
        invariant Offsets(arrivals[..n], s) != all ==>
            && tuples == old(tuples)
            && (forall f :: f in fragments <==> f in old(fragments) || f in arrivals[..n])
        invariant Offsets(arrivals[..n], s) == all ==>
            && n == |arrivals|
            && tuples == old(tuples) + [source.sent[s]]
            && (forall f :: f in fragments <==> f in old(fragments))
      {
        var t := arrivals[n];
        assert arrivals[..n + 1] == arrivals[..n] + [t];
        OffsetsInserted(arrivals[..n], arrivals[..n + 1], t);
        SameOffsets(arrivals[..n], old(fragments), fragments, s);
        DroppedWrongly(fragments, t);
        NothingHigher(fragments, t);
        RepeatIsKnown(source, fragments, t);
        var _ := Push(t);
      }
      assert arrivals[..|arrivals|] == arrivals;
    }
  }

  /** The arrival of `t` would make its message complete. */
  ghost predicate Completes(pending: seq<Fragment>, t: Fragment) {
    Offsets(pending, t.seqNum) + {t.offset} == AllOffsets(t.chunks)
  }

  /** What the arrival of `t` does to the pending fragments and to the queue of tuples. */
  ghost predicate Arrived(source: Source, t: Fragment, pending: seq<Fragment>, pending': seq<Fragment>,
                          tuples: seq<Message>, tuples': seq<Message>)
  {
    if Dropped(pending, t) then
      pending' == pending && tuples' == tuples
    else if Completes(pending, t) then
      && (forall f :: f in pending' <==> f in pending && f.seqNum != t.seqNum)
      && t.seqNum in source.sent && tuples' == tuples + [source.sent[t.seqNum]]
    else
      && (forall f :: f in pending' <==> f in pending || f == t)
      && tuples' == tuples
  }

  lemma {:induction false} StillIncomplete(source: Source, t: Fragment, pending: seq<Fragment>, pending': seq<Fragment>,
                                           tuples: seq<Message>, tuples': seq<Message>)
    requires source.Valid() && source.Genuine(t)
    requires Arrived(source, t, pending, pending', tuples, tuples')
    requires forall s | s in source.sent :: Offsets(pending, s) != AllOffsets(|source.Fragments(s)|)
    ensures forall s | s in source.sent :: Offsets(pending', s) != AllOffsets(|source.Fragments(s)|)
  {
    if !Dropped(pending, t) {
      if Completes(pending, t) {
        assert 0 in AllOffsets(|source.Fragments(t.seqNum)|);
        assert Offsets(pending', t.seqNum) == {};
        assert forall s | s != t.seqNum :: Offsets(pending', s) == Offsets(pending, s);
      } else {
        OffsetsInserted(pending, pending', t);
      }
    }
  }

  lemma {:induction false} SameOffsets(arrivals: seq<Fragment>, before: seq<Fragment>, now: seq<Fragment>, s: nat)
    requires forall f | f in before :: f.seqNum < s
    requires forall f :: f in now <==> f in before || f in arrivals
    ensures Offsets(now, s) == Offsets(arrivals, s)
  {
  }

  lemma {:induction false} NothingHigher(pending: seq<Fragment>, t: Fragment)
    requires forall f | f in pending :: f.seqNum <= t.seqNum
    ensures !exists s :: s > t.seqNum && t.offset in Offsets(pending, s)
  {
  }

  lemma {:induction false} RepeatIsKnown(source: Source, pending: seq<Fragment>, t: Fragment)
    requires source.size > 0 && source.Genuine(t) && forall f | f in pending :: source.Genuine(f)
    ensures Repeated(pending, t) <==> t in pending
  {
  }

  lemma {:induction false} OffsetsInserted(before: seq<Fragment>, now: seq<Fragment>, t: Fragment)
    requires forall f :: f in now <==> f in before || f == t
    ensures Offsets(now, t.seqNum) == Offsets(before, t.seqNum) + {t.offset}
    ensures forall s | s != t.seqNum :: Offsets(now, s) == Offsets(before, s)
  {
  }

  lemma {:induction false} CountStep(pending: seq<Fragment>, i: nat, s: nat)
    requires NoRepeats(pending) && i < |pending|
    ensures |Offsets(pending[..i + 1], s)| ==
            |Offsets(pending[..i], s)| + if pending[i].seqNum == s then 1 else 0
  {
    var (before, f) := (pending[..i], pending[i]);
    assert pending[..i + 1] == before + [f];
    if f.seqNum == s {
      assert f.offset !in Offsets(before, s);
      assert Offsets(before + [f], s) == Offsets(before, s) + {f.offset};
    } else {
      assert Offsets(before + [f], s) == Offsets(before, s);
    }
  }

  /** Every tuple put out, and every fragment still pending, is paid for by an arrival of its own. */
  ghost predicate Accounted(source: Source, seen: seq<Fragment>, pending: seq<Fragment>, tuples: seq<Message>)
    requires source.size > 0
  {
    forall f | source.Genuine(f) ::
      multiset(tuples)[source.sent[f.seqNum]] + (if f in pending then 1 else 0) <= multiset(seen)[f]
  }

  lemma {:induction false} AccountedStep(source: Source, seen: seq<Fragment>, t: Fragment,
                                         pending: seq<Fragment>, pending': seq<Fragment>,
                                         tuples: seq<Message>, tuples': seq<Message>)
    requires source.Valid() && Wanted(source, pending) == true && source.Genuine(t)
    requires Arrived(source, t, pending, pending', tuples, tuples') == true
    requires Accounted(source, seen, pending, tuples) == true
    ensures Accounted(source, seen + [t], pending', tuples') == true
  {
    DroppedWrongly(pending, t);
    RepeatIsKnown(source, pending, t);
    forall f | source.Genuine(f)
      ensures multiset(tuples')[source.sent[f.seqNum]] + (if f in pending' then 1 else 0) <= multiset(seen + [t])[f]
    {
      if !Dropped(pending, t) && Completes(pending, t) && f.seqNum == t.seqNum && f != t {
        assert f.offset in Offsets(pending, t.seqNum);
        RepeatIsKnown(source, pending, f);
      }
    }
  }

  // ---------------------------------------------------------------------------------
  // Which messages come out
  // ---------------------------------------------------------------------------------

  /** What reassembly should have after some arrivals: the fragments that wait, and the numbers that came out. */
  datatype Bench = Bench(waiting: set<Fragment>, done: seq<nat>)

  /** The offsets waiting for message `s`. */
  ghost function WaitingOffsets(waiting: set<Fragment>, s: nat): set<nat> {
    set f | f in waiting && f.seqNum == s :: f.offset
  }

  /** The duplicate test, which also meets the higher sequence numbers. */
  ghost predicate TakenForRepeat(waiting: set<Fragment>, t: Fragment) {
    && WaitingOffsets(waiting, t.seqNum) != {}
    && exists f | f in waiting :: f.seqNum >= t.seqNum && f.offset == t.offset
  }

  ghost function Placed(b: Bench, t: Fragment): Bench {
    if TakenForRepeat(b.waiting, t) then b
    else if WaitingOffsets(b.waiting, t.seqNum) + {t.offset} == AllOffsets(t.chunks) then
      Bench((set f | f in b.waiting && f.seqNum != t.seqNum), b.done + [t.seqNum])
    else Bench(b.waiting + {t}, b.done)
  }

  ghost function BenchAfter(arrivals: seq<Fragment>): Bench {
    if arrivals == [] then Bench({}, []) else Placed(BenchAfter(arrivals[..|arrivals| - 1]), arrivals[|arrivals| - 1])
  }

  ghost predicate OnBench(source: Source, b: Bench, pending: seq<Fragment>, tuples: seq<Message>) {
    && b.waiting == (set f | f in pending)
    && |tuples| == |b.done|
    && forall i | 0 <= i < |tuples| :: b.done[i] in source.sent && tuples[i] == source.sent[b.done[i]]
  }

  lemma {:induction false} BenchTests(b: Bench, pending: seq<Fragment>, t: Fragment)
    requires b.waiting == set f | f in pending
    ensures WaitingOffsets(b.waiting, t.seqNum) == Offsets(pending, t.seqNum)
    ensures TakenForRepeat(b.waiting, t) <==> Dropped(pending, t)
  {
    if Dropped(pending, t) {
      var f :| f in pending && f.seqNum == t.seqNum;
      assert f.offset in WaitingOffsets(b.waiting, t.seqNum);
      var g :| g in pending && g.seqNum >= t.seqNum && g.offset == t.offset;
      assert g in b.waiting;
    }
    if TakenForRepeat(b.waiting, t) {
      var o :| o in WaitingOffsets(b.waiting, t.seqNum);
      var f :| f in b.waiting && f.seqNum == t.seqNum && f.offset == o;
      var g :| g in b.waiting && g.seqNum >= t.seqNum && g.offset == t.offset;
      assert f in pending && g in pending;
    }
  }

  lemma {:induction false} BenchStep(source: Source, b: Bench, t: Fragment, pending: seq<Fragment>,
                                     pending': seq<Fragment>, tuples: seq<Message>, tuples': seq<Message>)
    requires OnBench(source, b, pending, tuples) == true
    requires Arrived(source, t, pending, pending', tuples, tuples') == true
    ensures OnBench(source, Placed(b, t), pending', tuples') == true
  {
    BenchTests(b, pending, t);
  }

  /**
   However fragments are lost, repeated, reordered or interleaved, exactly the messages come out that the
   reference run says, in its order.  They are messages that were sent, and none comes out more often than
   each of its fragments arrived.
   */
  method ReceiveAll(ghost source: Source, unmarshal: seq<Byte> -> seq<Field>, arrivals: seq<Fragment>)
    returns (emitted: seq<Message>, pending: seq<Fragment>)
    requires source.Valid() && unmarshal == source.codec.unmarshal
    requires forall f | f in arrivals :: source.Genuine(f)
    ensures OnBench(source, BenchAfter(arrivals), pending, emitted)
    ensures forall m | m in emitted :: m.seqNum in source.sent && m == source.sent[m.seqNum]
    ensures forall f | source.Genuine(f) :: multiset(emitted)[source.sent[f.seqNum]] <= multiset(arrivals)[f]
  {
    var defrag := new Defrag(source, unmarshal);
    ReceivedNothing(source, arrivals);
    for n := 0 to |arrivals|
      invariant fresh(defrag) && defrag.source == source && defrag.Valid()
      invariant Received(source, arrivals, n, defrag.fragments, defrag.tuples) == true  // kept folded
    {
      defrag.Receive(arrivals, n);
    }
    emitted, pending := defrag.tuples, defrag.fragments;
    ReceivedPromises(source, arrivals, pending, emitted);
  }

  /** What holds after the first `n` arrivals. */
  ghost predicate Received(source: Source, arrivals: seq<Fragment>, n: nat, pending: seq<Fragment>,
                           tuples: seq<Message>)
    requires source.size > 0 && n <= |arrivals|
  {
    Accounted(source, arrivals[..n], pending, tuples) && OnBench(source, BenchAfter(arrivals[..n]), pending, tuples)
  }

  lemma {:induction false} ReceivedNothing(source: Source, arrivals: seq<Fragment>)
    requires source.size > 0
    ensures Received(source, arrivals, 0, [], []) == true
  {
    assert arrivals[..0] == [];
  }

  lemma {:induction false} BenchMore(seen: seq<Fragment>, t: Fragment)
    ensures BenchAfter(seen + [t]) == Placed(BenchAfter(seen), t)
  {
    assert (seen + [t])[..|seen|] == seen;
  }

  lemma {:induction false} ReceivedStep(source: Source, arrivals: seq<Fragment>, n: nat, pending: seq<Fragment>,
                                        pending': seq<Fragment>, tuples: seq<Message>, tuples': seq<Message>)
    requires source.Valid() && Wanted(source, pending) == true && n < |arrivals| && source.Genuine(arrivals[n])
    requires Received(source, arrivals, n, pending, tuples) == true
    requires Arrived(source, arrivals[n], pending, pending', tuples, tuples') == true
    ensures Received(source, arrivals, n + 1, pending', tuples') == true
  {
    var (seen, t) := (arrivals[..n], arrivals[n]);
    assert arrivals[..n + 1] == seen + [t];
    AccountedStep(source, seen, t, pending, pending', tuples, tuples');
    BenchStep(source, BenchAfter(seen), t, pending, pending', tuples, tuples');
    BenchMore(seen, t);
  }

  lemma {:induction false} ReceivedPromises(source: Source, arrivals: seq<Fragment>, pending: seq<Fragment>,
                                            emitted: seq<Message>)
    requires source.Valid() && Received(source, arrivals, |arrivals|, pending, emitted) == true
    ensures OnBench(source, BenchAfter(arrivals), pending, emitted)
    ensures forall m | m in emitted :: m.seqNum in source.sent && m == source.sent[m.seqNum]
    ensures forall f | source.Genuine(f) :: multiset(emitted)[source.sent[f.seqNum]] <= multiset(arrivals)[f]
  {
    assert arrivals[..|arrivals|] == arrivals;
    forall m | m in emitted ensures m.seqNum in source.sent && m == source.sent[m.seqNum] {
      var i :| 0 <= i < |emitted| && emitted[i] == m;
    }
  }
}
