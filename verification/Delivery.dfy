/** What each channel's receiving half promises, one message at a time, against the log of
    everything its peer ever sent on it. */
module Delivery {
  import opened Common
  import opened Channels

  type Log = seq<Payload>

  predicate Genuine(m: Message, k: Kind, log: Log) {
    m.channel == k && m.id < |log| && log[m.id] == m.payload
  }

  ghost predicate AllGenuine(delivered: seq<Message>, k: Kind, log: Log) {
    forall i :: 0 <= i < |delivered| ==> Genuine(delivered[i], k, log)
  }

  /** A reliable id the receiver has taken charge of: delivered, or buffered behind a gap. */
  predicate Held(ch: Channel, k: Kind, id: Id) {
    || id < ch.nextExpect
    || (k.ReliableOrdered? && id in ch.ordered)
    || (k.ReliableUnordered? && id in ch.seenAbove)
  }

  /** Whether the buffer cap lets a message be taken charge of. */
  predicate Accepts(ch: Channel, maxBuffered: nat, m: Message) {
    || Held(ch, m.channel, m.id)
    || m.id == ch.nextExpect
    || (m.channel.ReliableOrdered? && |ch.ordered| < maxBuffered)
    || (m.channel.ReliableUnordered? && |ch.seenAbove| < maxBuffered)
    || !IsReliable(m.channel)
  }

  // ----- ordered -----

  /** Delivered so far: the first `nextExpect` messages of the log, in order; what is
      buffered lies at or past the gap. */
  ghost predicate Ordering(ch: Channel, log: Log, delivered: seq<Message>) {
    && ch.nextExpect == |delivered| <= |log|
    && AllGenuine(delivered, ReliableOrdered, log)
    && (forall i :: 0 <= i < |delivered| ==> delivered[i].id == i)
    && (forall id: Id :: id in ch.ordered ==> ch.nextExpect <= id < |log| && ch.ordered[id] == log[id])
  }

  ghost predicate Ordered(ch: Channel, log: Log, delivered: seq<Message>) {
    && Ordering(ch, log, delivered)
    && (ch.nextExpect < U32 ==> ch.nextExpect !in ch.ordered)
  }

  /** Delivering the message the gap was waiting for. */
  lemma DeliverNext(ch: Channel, log: Log, delivered: seq<Message>, m: Message)
    requires Ordering(ch, log, delivered) && m.id == ch.nextExpect && Genuine(m, ReliableOrdered, log)
    ensures var next := ch.(ordered := ch.ordered - {m.id}, nextExpect := ch.nextExpect + 1);
            && Ordering(next, log, delivered + [m])
            && (forall id: Id :: Held(next, ReliableOrdered, id) <==> Held(ch, ReliableOrdered, id) || id == m.id)
  {
  }

  lemma OrderingBounds(ch: Channel, log: Log, delivered: seq<Message>)
    requires Ordering(ch, log, delivered) && ch.nextExpect < U32 && ch.nextExpect in ch.ordered
    ensures Genuine(Message(ReliableOrdered, ch.nextExpect, ch.ordered[ch.nextExpect]), ReliableOrdered, log)
    ensures |ch.ordered - {ch.nextExpect}| < |ch.ordered|
    ensures Held(ch, ReliableOrdered, ch.nextExpect)
  {
    var fewer := ch.ordered - {ch.nextExpect};
    assert fewer.Keys == ch.ordered.Keys - {ch.nextExpect};
    assert |fewer.Keys| == |fewer| && |ch.ordered.Keys| == |ch.ordered|;
  }

  lemma {:induction false} ReleaseKeeps(ch: Channel, log: Log, delivered: seq<Message>)
    requires Ordering(ch, log, delivered)
    ensures var (after, out) := Release(ch);
            && Ordered(after, log, delivered + out)
            && (forall id: Id :: Held(after, ReliableOrdered, id) <==> Held(ch, ReliableOrdered, id))
            && after == ch.(ordered := after.ordered, nextExpect := after.nextExpect)
    decreases |ch.ordered|
  {
    hide Ordering, Held, Genuine;
    if ch.nextExpect < U32 && ch.nextExpect in ch.ordered {
      var m := Message(ReliableOrdered, ch.nextExpect, ch.ordered[ch.nextExpect]);
      var next := ch.(ordered := ch.ordered - {ch.nextExpect}, nextExpect := ch.nextExpect + 1);
      OrderingBounds(ch, log, delivered);
      DeliverNext(ch, log, delivered, m);
      ReleaseKeeps(next, log, delivered + [m]);
      assert delivered + ([m] + Release(next).1) == delivered + [m] + Release(next).1;
    } else {
      assert delivered + [] == delivered;
    }
  }

  /** Buffering a message past the gap. */
  lemma BufferAhead(ch: Channel, log: Log, delivered: seq<Message>, m: Message)
    requires Ordered(ch, log, delivered) && m.id > ch.nextExpect && Genuine(m, ReliableOrdered, log)
    ensures var next := ch.(ordered := ch.ordered[m.id := m.payload]);
            && Ordered(next, log, delivered)
            && (forall id: Id :: Held(next, ReliableOrdered, id) <==> Held(ch, ReliableOrdered, id) || id == m.id)
  {
  }

  /** One arrival on an ordered channel: the output stays the log's prefix, and the message
      is taken charge of exactly when the cap accepts it. */
  lemma OrderedReceive(ch: Channel, log: Log, delivered: seq<Message>, maxBuffered: nat, m: Message)
    requires |log| < U32
    requires Ordered(ch, log, delivered) && Genuine(m, ReliableOrdered, log)
    ensures var (after, out) := ReceiveOn(ch, maxBuffered, m);
            && Ordered(after, log, delivered + out)
            && (forall id: Id :: Held(after, ReliableOrdered, id) <==>
                  Held(ch, ReliableOrdered, id) || (id == m.id && Accepts(ch, maxBuffered, m)))
            && after == ch.(ordered := after.ordered, nextExpect := after.nextExpect)
  {
    hide Ordering, Release, ReceiveOn;
    ReceiveOrdered(ch, maxBuffered, m);
    assert delivered + [] == delivered;
    if m.id == ch.nextExpect {
      DeliverNext(ch, log, delivered, m);
      var next := ch.(nextExpect := ch.nextExpect + 1);
      assert ch.ordered - {m.id} == ch.ordered;
      ReleaseKeeps(next, log, delivered + [m]);
      assert delivered + ([m] + Release(next).1) == delivered + [m] + Release(next).1;
    } else if !Held(ch, ReliableOrdered, m.id) && |ch.ordered| < maxBuffered {
      BufferAhead(ch, log, delivered, m);
    }
  }

  lemma ReceiveOrdered(ch: Channel, maxBuffered: nat, m: Message)
    requires m.channel.ReliableOrdered?
    ensures ReceiveOn(ch, maxBuffered, m) ==
            if Held(ch, ReliableOrdered, m.id) then (ch, [])
            else if m.id == ch.nextExpect then
              var r := Release(ch.(nextExpect := ch.nextExpect + 1));
              (r.0, [m] + r.1)
            else if |ch.ordered| < maxBuffered then (ch.(ordered := ch.ordered[m.id := m.payload]), [])
            else (ch, [])
  {
    hide Release, Absorb;
  }

  // ----- unordered -----

  ghost predicate Delivered(delivered: seq<Message>, id: Id) {
    exists i :: 0 <= i < |delivered| && delivered[i].id == id
  }

  ghost predicate Once(delivered: seq<Message>) {
    forall i, j :: 0 <= i < j < |delivered| ==> delivered[i].id != delivered[j].id
  }

  /** Delivered so far: each id at most once, and exactly those below `nextExpect` or seen
      above it. */
  ghost predicate Tracking(ch: Channel, log: Log, delivered: seq<Message>) {
    && ch.nextExpect <= |log|
    && AllGenuine(delivered, ReliableUnordered, log)
    && Once(delivered)
    && (forall id: Id :: Delivered(delivered, id) <==> Held(ch, ReliableUnordered, id))
    && (forall id: Id :: id in ch.seenAbove ==> ch.nextExpect <= id < |log|)
  }

  ghost predicate Unordered(ch: Channel, log: Log, delivered: seq<Message>) {
    && Tracking(ch, log, delivered)
    && (ch.nextExpect < U32 ==> ch.nextExpect !in ch.seenAbove)
  }

  lemma {:induction false} AbsorbKeeps(ch: Channel, log: Log, delivered: seq<Message>)
    requires Tracking(ch, log, delivered)
    ensures var after := Absorb(ch);
            && Unordered(after, log, delivered)
            && (forall id: Id :: Held(after, ReliableUnordered, id) <==> Held(ch, ReliableUnordered, id))
            && after == ch.(seenAbove := after.seenAbove, nextExpect := after.nextExpect)
    decreases |ch.seenAbove|
  {
    if ch.nextExpect < U32 && ch.nextExpect in ch.seenAbove {
      var next := ch.(seenAbove := ch.seenAbove - {ch.nextExpect}, nextExpect := ch.nextExpect + 1);
      forall id: Id
        ensures Held(next, ReliableUnordered, id) <==> Held(ch, ReliableUnordered, id)
      {
      }
      AbsorbKeeps(next, log, delivered);
    }
  }

  lemma DeliveredOneMore(delivered: seq<Message>, m: Message, id: Id)
    ensures Delivered(delivered + [m], id) <==> Delivered(delivered, id) || id == m.id
  {
    var all := delivered + [m];
    if Delivered(delivered, id) {
      var i :| 0 <= i < |delivered| && delivered[i].id == id;
      assert all[i].id == id;
    }
    assert all[|delivered|] == m;
  }

  /** One arrival on an unordered channel: delivered unless held already, so never twice, as
      long as the cap accepts it. */
  lemma UnorderedReceive(ch: Channel, log: Log, delivered: seq<Message>, maxBuffered: nat, m: Message)
    requires |log| < U32
    requires Unordered(ch, log, delivered) && Genuine(m, ReliableUnordered, log)
    requires Accepts(ch, maxBuffered, m)
    ensures var (after, out) := ReceiveOn(ch, maxBuffered, m);
            && Unordered(after, log, delivered + out)
            && out == (if Held(ch, ReliableUnordered, m.id) then [] else [m])
            && (forall id: Id :: Held(after, ReliableUnordered, id) <==>
                  Held(ch, ReliableUnordered, id) || id == m.id)
            && after == ch.(seenAbove := after.seenAbove, nextExpect := after.nextExpect)
  {
    hide Tracking, Absorb;
    assert m.channel == ReliableUnordered;
    assert delivered + [] == delivered;
    if !Held(ch, ReliableUnordered, m.id) {
      var next := if m.id == ch.nextExpect then ch.(nextExpect := ch.nextExpect + 1)
                  else ch.(seenAbove := ch.seenAbove + {m.id});
      TakeNew(ch, log, delivered, m, next);
      if m.id == ch.nextExpect {
        AbsorbKeeps(next, log, delivered + [m]);
      }
    }
  }

  /** Delivering a message not held before, and remembering it. */
  lemma TakeNew(ch: Channel, log: Log, delivered: seq<Message>, m: Message, next: Channel)
    requires |log| < U32
    requires Unordered(ch, log, delivered) && Genuine(m, ReliableUnordered, log) && !Held(ch, ReliableUnordered, m.id)
    requires next == if m.id == ch.nextExpect then ch.(nextExpect := ch.nextExpect + 1)
                     else ch.(seenAbove := ch.seenAbove + {m.id})
    ensures Tracking(next, log, delivered + [m])
    ensures m.id != ch.nextExpect ==> Unordered(next, log, delivered + [m])
    ensures forall id: Id :: Held(next, ReliableUnordered, id) <==> Held(ch, ReliableUnordered, id) || id == m.id
  {
    hide Delivered;
    forall id: Id
      ensures Delivered(delivered + [m], id) <==> Delivered(delivered, id) || id == m.id
    {
      DeliveredOneMore(delivered, m, id);
    }
    OnceMore(delivered, m);
  }

  lemma OnceMore(delivered: seq<Message>, m: Message)
    requires Once(delivered) && !Delivered(delivered, m.id)
    ensures Once(delivered + [m])
  {
  }

  /** A message not yet held is delivered again by a second copy of it exactly when the cap
      does not accept it. */
  lemma RepeatedExactlyAtCap(ch: Channel, log: Log, delivered: seq<Message>, maxBuffered: nat, m: Message)
    requires |log| < U32
    requires Unordered(ch, log, delivered) && Genuine(m, ReliableUnordered, log)
    requires !Held(ch, ReliableUnordered, m.id)
    ensures ReceiveOn(ReceiveOn(ch, maxBuffered, m).0, maxBuffered, m).1 == [m] <==> !Accepts(ch, maxBuffered, m)
  {
    if Accepts(ch, maxBuffered, m) {
      UnorderedReceive(ch, log, delivered, maxBuffered, m);
      hide Unordered, ReceiveOn;
      var after := ReceiveOn(ch, maxBuffered, m).0;
      UnorderedReceive(after, log, delivered + [m], maxBuffered, m);
    }
  }

  // ----- sequenced -----

  /** Strictly newer every time. */
  ghost predicate Ascending(ch: Channel, delivered: seq<Message>) {
    && (ch.highest.None? <==> delivered == [])
    && (ch.highest.Some? ==> delivered[|delivered| - 1].id == ch.highest.value)
    && (forall i, j :: 0 <= i < j < |delivered| ==> delivered[i].id < delivered[j].id)
  }

  const SEQUENCED_SPAN: nat := 0x7FFF_FFFF

  /** How far the comparison across the wrap reaches: ids up to 2^31 - 2 ahead are newer, so
      of two ids 2^31 - 1 apart neither is. */
  lemma NewerExactly(h: Id, id: Id)
    ensures SequencedNewer(Some(h), id) <==> (h < id && id - h <= 0x7FFF_FFFE) || (id < h && h - id >= 0x8000_0002)
  {
    assert (id - h) % U32 == if id >= h then id - h else id - h + U32;
  }

  /** While the ids span less than half the space, a sequenced channel delivers exactly the
      arrivals newer than everything it delivered. */
  lemma SequencedReceive(ch: Channel, log: Log, delivered: seq<Message>, maxBuffered: nat, m: Message)
    requires |log| <= SEQUENCED_SPAN
    requires Ascending(ch, delivered) && AllGenuine(delivered, UnreliableSequenced, log)
    requires Genuine(m, UnreliableSequenced, log)
    ensures var (after, out) := ReceiveOn(ch, maxBuffered, m);
            && Ascending(after, delivered + out)
            && out == (if forall i :: 0 <= i < |delivered| ==> delivered[i].id < m.id then [m] else [])
  {
    if ch.highest.Some? {
      var last := |delivered| - 1;
      assert Genuine(delivered[last], UnreliableSequenced, log);
      var h := ch.highest.value;
      assert SequencedNewer(ch.highest, m.id) <==> m.id > h by {
        assert (m.id - h) % U32 == if m.id >= h then m.id - h else m.id - h + U32;
      }
      if m.id <= h {
        assert delivered[last].id >= m.id;
        assert delivered + [] == delivered;
      }
    }
  }
}
