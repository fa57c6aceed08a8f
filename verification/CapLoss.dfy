/** Where the receive buffer's cap breaks the reliable guarantee: a message refused at the
    cap sits in a packet that is still acknowledged, so its sender retires it. */
module CapLoss {
  import opened Common
  import opened Sequences
  import opened Acks
  import opened Channels
  import opened Delivery
  import opened Reliability
  import opened Exchange
  import opened ReliableRuns

  /** Retiring a packet's list removes everything on it. */
  lemma {:induction false} RetireFromRemoves(cs: ChannelSet, entries: seq<(Kind, Id)>, k: Kind, id: Id)
    requires Shaped(cs) && Lists(entries, k, id)
    ensures id !in Get(RetireFrom(cs, entries), k).unacked
  {
    hide Set, Get;
    var last := |entries| - 1;
    var prior := RetireFrom(cs, entries[..last]);
    var (j, x) := entries[last];
    GetSet(prior, j, Get(prior, j).(unacked := Get(prior, j).unacked - {x}), k);
    if entries[last] != (k, id) {
      var i :| 0 <= i < |entries| && entries[i] == (k, id);
      assert entries[..last][i] == (k, id);
      RetireFromRemoves(cs, entries[..last], k, id);
    }
  }

  lemma {:induction false} RetireAllRemoves(cs: ChannelSet, acked: seq<Seq>, net: seq<Packet>, q: Seq, k: Kind, id: Id)
    requires Shaped(cs) && Remembers(cs.inPacket, net)
    requires q in cs.inPacket && Lists(cs.inPacket[q], k, id) && q in acked
    ensures id !in Get(RetireAll(cs, acked), k).unacked
  {
    hide RetireFrom, Lists, Get, Retired;
    var before, last := acked[..|acked| - 1], acked[|acked| - 1];
    var prior := RetireAll(cs, before);
    AckedKeeps(prior, last);
    if q in before {
      RetireAllRemoves(cs, before, net, q, k, id);
      RetiredStays(prior, RetireAll(cs, acked), k, id);
    } else {
      assert last == q;
      StillInPacket(cs, before, q);
      var forgot := prior.(inPacket := prior.inPacket - {q});
      RetireFromRemoves(forgot, prior.inPacket[q], k, id);
    }
  }

  lemma RetiredStays(a: ChannelSet, b: ChannelSet, k: Kind, id: Id)
    requires Shaped(a) && Shaped(b) && Retired(a, b) && id !in Get(a, k).unacked
    ensures id !in Get(b, k).unacked
  {
  }

  lemma {:induction false} StillInPacket(cs: ChannelSet, acked: seq<Seq>, q: Seq)
    requires Shaped(cs) && q in cs.inPacket && q !in acked
    ensures q in RetireAll(cs, acked).inPacket && RetireAll(cs, acked).inPacket[q] == cs.inPacket[q]
  {
    hide OnPacketAcked, Get;
    if acked != [] {
      StillInPacket(cs, acked[..|acked| - 1], q);
      AckedKeeps(RetireAll(cs, acked[..|acked| - 1]), acked[|acked| - 1]);
    }
  }

  /** A packet number newer than everything received is what the next header names. */
  lemma NewestIsNamed(r: End, number: Seq)
    requires Formed(r)
    requires r.tracker.remoteHighest.None? || IsNewer(number, r.tracker.remoteHighest.value)
    ensures HeaderOf(Hear(r, number).tracker).Some?
    ensures Marks(HeaderOf(Hear(r, number).tracker).value, number)
  {
  }

  /** The sender learns of a packet and retires what it carried. */
  lemma AckRetires(s: End, h: Header, q: Seq, k: Kind, id: Id)
    requires Sender(s) && Marks(h, q)
    requires RingGet(s.tracker.sent, q).Some? && q !in s.reported
    requires q in s.channels.inPacket && Lists(s.channels.inPacket[q], k, id)
    ensures id !in Get(HearAcks(s, Some(h)).channels, k).unacked
  {
    hide ReportedOnce, Queued, OnAckHeader, RetireAll, Lists, RingGet, Marks, Get, FromLog;
    var added := AckHeaderReports(s.tracker, h, |s.net|, Elements(s.reported));
    assert added == OnAckHeader(s.tracker, h).newlyAcked;
    RetireAllRemoves(s.channels, added, s.net, q, k, id);
  }

  /** In every state two ends can be in: when an acknowledgement arrives for a packet its
      sender still remembers, whatever that packet lists and the receiver does not hold is
      lost for good: no longer unacknowledged, and not held. */
  lemma AckedUnheldIsLost(s: End, r: End, n: Seq, q: Seq, k: Kind, id: Id)
    requires Linked(s, r, false) && n < |r.net| && r.net[n].header.Some? && Marks(r.net[n].header.value, q)
    requires RingGet(s.tracker.sent, q).Some? && q !in s.reported
    requires q in s.channels.inPacket && Lists(s.channels.inPacket[q], k, id)
    requires !Held(Get(r.channels, k), k, id)
    ensures var s1 := DeliverStep(s, n, r.net[n]);
            id !in Get(s1.channels, k).unacked && id < |Sent(s1, k)| && !Conserved(s1, r)
  {
    hide Sender, Receiver, DeliverStep, Held, Lists, RingGet, Conserved, Marks;
    SenderFormed(s);
    SenderFormed(r);
    AckArrives(s, r, n, q, k, id);
    DeliveredLog(s, n, r.net[n], k);
    ListedSent(s, q, k, id);
    NotConserved(DeliverStep(s, n, r.net[n]), r, k, id);
  }

  /** A remembered packet lists only reliable ids that were sent. */
  lemma ListedSent(s: End, q: Seq, k: Kind, id: Id)
    requires Sender(s) && q in s.channels.inPacket && Lists(s.channels.inPacket[q], k, id)
    ensures IsReliable(k) && id < |Sent(s, k)|
  {
    ListedCarried(s.channels.inPacket, s.net, q, k, id);
    var i :| 0 <= i < |s.net[q].messages| && s.net[q].messages[i].channel == k && s.net[q].messages[i].id == id;
    assert FromLog(s.net[q].messages[i], s);
  }

  /** An ordered message arrives alone in the newest packet, the receiver next transmits, and
      that packet gets through: the message is retired, and it is lost, neither unacknowledged
      nor held, exactly when the cap did not accept it. */
  lemma LostExactlyAtCap(s: End, r: End, r1: End, r2: End, s1: End, q: Seq, m: Message, now: Time, rto: Time, budget: nat)
    requires Linked(s, r, false) && q < |s.net| && |r.net| < U16
    requires s.net[q].messages == [m] && m.channel.ReliableOrdered?
    requires r.tracker.remoteHighest.None? || IsNewer(q, r.tracker.remoteHighest.value)
    requires RingGet(s.tracker.sent, q).Some? && q !in s.reported
    requires q in s.channels.inPacket && Lists(s.channels.inPacket[q], m.channel, m.id)
    requires r1 == DeliverStep(r, q, s.net[q])
    requires r2 == TransmitStep(r1, now, rto, budget)
    requires s1 == DeliverStep(s, |r.net|, Newest(r2))
    ensures m.id !in Get(s1.channels, m.channel).unacked
    ensures !Held(Get(r2.channels, m.channel), m.channel, m.id) <==>
            !Accepts(Get(r.channels, m.channel), r.channels.maxBuffered, m)
    ensures !Accepts(Get(r.channels, m.channel), r.channels.maxBuffered, m) ==> !Conserved(s1, r2)
  {
    hide Sender, Receiver, DeliverStep, TransmitStep, SameReceiver, SameSender, IsNewer, Accepts, Held, Lists, RingGet,
      Conserved, Marks, HeaderOf;
    SenderFormed(s);
    SenderFormed(r);
    DeliverKeeps(r, s, q, false);
    NewestArrives(s, r, q, m);
    TransmitNet(r1, now, rto, budget);
    TransmitKeepsReceiver(s, r1, now, rto, budget, false);
    TransmitHeld(r1, now, rto, budget, m);
    TransmitKeepsFlow(r1, s, now, rto, budget, false);
    var n: Seq := |r.net|;
    assert Newest(r2) == r2.net[n];
    AckArrives(s, r2, n, q, m.channel, m.id);
    if !Accepts(Get(r.channels, m.channel), r.channels.maxBuffered, m) {
      AckedUnheldIsLost(s, r2, n, q, m.channel, m.id);
    }
  }

  /** The packet an end sent last. */
  function Newest(e: End): Packet {
    if e.net == [] then Packet(None, []) else e.net[|e.net| - 1]
  }

  lemma NotConserved(s: End, r: End, k: Kind, id: Id)
    requires Formed(s) && Formed(r) && IsReliable(k) && id < |Sent(s, k)|
    requires id !in Get(s.channels, k).unacked && !Held(Get(r.channels, k), k, id)
    ensures !Conserved(s, r)
  {
    hide Get, Held, Sent;
  }

  lemma TransmitNet(e: End, now: Time, rto: Time, budget: nat)
    requires Formed(e)
    ensures var after := TransmitStep(e, now, rto, budget);
            && |after.net| == |e.net| + 1
            && after.net == e.net + [after.net[|e.net|]]
            && after.net[|e.net|].header == HeaderOf(e.tracker)
  {
    hide Packetize, BeginSend, HeaderOf;
  }

  lemma TransmitHeld(e: End, now: Time, rto: Time, budget: nat, m: Message)
    requires Sender(e) && |e.net| < U16
    ensures Held(Get(TransmitStep(e, now, rto, budget).channels, m.channel), m.channel, m.id) <==>
            Held(Get(e.channels, m.channel), m.channel, m.id)
  {
    TransmitKeepsSender(e, now, rto, budget);
    assert Repacked(Get(e.channels, m.channel), Get(TransmitStep(e, now, rto, budget).channels, m.channel),
                    e.log[Index(m.channel)]);
  }

  lemma NewestArrives(s: End, r: End, q: Seq, m: Message)
    requires Linked(s, r, false) && q < |s.net| && s.net[q].messages == [m] && m.channel.ReliableOrdered?
    requires Formed(r)
    requires r.tracker.remoteHighest.None? || IsNewer(q, r.tracker.remoteHighest.value)
    ensures var r1 := DeliverStep(r, q, s.net[q]);
            && r1.net == r.net
            && (Held(Get(r1.channels, m.channel), m.channel, m.id) <==>
                  Accepts(Get(r.channels, m.channel), r.channels.maxBuffered, m))
            && HeaderOf(r1.tracker).Some? && Marks(HeaderOf(r1.tracker).value, q)
  {
    hide Sender, Receiver, HearAcks, Hear, Marks, IsNewer, ReceiveOn, AckHeader, SameSender;
    var ch := Get(r.channels, m.channel);
    ArrivalTrue(r, s, q, false);
    FlowReceived(s, r, false);
    SenderFormed(s);
    SenderLog(s, ReliableOrdered);
    assert Received(ch, ReliableOrdered, Sent(s, ReliableOrdered), Output(r, ReliableOrdered), false);
    assert FromLog(s.net[q].messages[0], s);
    OrderedReceive(ch, Sent(s, ReliableOrdered), Output(r, ReliableOrdered), r.channels.maxBuffered, m);
    var next := ReceiveOn(ch, r.channels.maxBuffered, m).0;
    assert Held(next, ReliableOrdered, m.id) <==> Accepts(ch, r.channels.maxBuffered, m);
    hide Accepts, Ordered;
    var took := Take(r, [m], 1);
    TakeUnfolds(r, m);
    GetSet(r.channels, m.channel, next, m.channel);
    assert Get(took.channels, m.channel) == next;
    NewestIsNamed(took, q);
    var heard := Hear(took, q);
    assert heard.channels == took.channels && heard.net == r.net by { HearFrame(took, q); }
    TakeIsSenderFrame(s, r, [m], false);
    SenderFrame(r, took, s, false);
    HearIsSenderFrame(took, q);
    SenderFrame(took, heard, s, false);
    HearAcksIsReceiverFrame(heard, s.net[q].header);
    var r1 := HearAcks(heard, s.net[q].header);
    assert SameReceiving(Get(heard.channels, m.channel), Get(r1.channels, m.channel));
    SameHeader(heard.tracker, r1.tracker);
  }

  lemma TakeUnfolds(e: End, m: Message)
    requires Formed(e)
    ensures var r := OnReceive(e.channels, m);
            Take(e, [m], 1) ==
              e.(channels := r.0, delivered := e.delivered[Index(m.channel) := Output(e, m.channel) + r.1])
  {
    assert Take(e, [m], 0) == e;
  }

  lemma HearFrame(e: End, q: Seq)
    requires Formed(e)
    ensures Hear(e, q).channels == e.channels && Hear(e, q).net == e.net
  {
  }

  lemma SameHeader(a: Tracker, b: Tracker)
    requires Sized(a) && Sized(b) && a.remoteHighest == b.remoteHighest && a.received == b.received
    ensures HeaderOf(a) == HeaderOf(b)
  {
  }

  lemma AckArrives(s: End, r: End, n: Seq, q: Seq, k: Kind, id: Id)
    requires Linked(s, r, false) && n < |r.net| && r.net[n].header.Some? && Marks(r.net[n].header.value, q)
    requires RingGet(s.tracker.sent, q).Some? && q !in s.reported
    requires q in s.channels.inPacket && Lists(s.channels.inPacket[q], k, id)
    ensures Formed(s) && id !in Get(DeliverStep(s, n, r.net[n]).channels, k).unacked
  {
    hide Sender, Receiver, HearAcks, Marks, Lists, RingGet;
    SenderFormed(s);
    SenderFormed(r);
    var p := r.net[n];
    ArrivalTrue(s, r, n, false);
    FlowReceived(r, s, false);
    var took := Take(s, p.messages, |p.messages|);
    TakeIsSenderFrame(r, s, p.messages, false);
    SenderFrame(s, took, r, false);
    var heard := Hear(took, n);
    HearIsSenderFrame(took, n);
    SenderFrame(took, heard, r, false);
    SameRing(s.tracker, heard.tracker, q);
    AckRetires(heard, p.header.value, q, k, id);
  }

  lemma SameRing(a: Tracker, b: Tracker, q: Seq)
    requires Sized(a) && Sized(b) && a.sent == b.sent
    ensures RingGet(a.sent, q) == RingGet(b.sent, q)
  {
  }

  lemma DeliveredLog(s: End, n: Seq, p: Packet, k: Kind)
    requires Formed(s)
    ensures Sent(DeliverStep(s, n, p), k) == Sent(s, k)
  {
    TakeLog(s, p.messages, |p.messages|);
  }

  lemma {:induction false} TakeLog(e: End, ms: seq<Message>, n: nat)
    requires Formed(e) && n <= |ms|
    ensures Take(e, ms, n).log == e.log
  {
    hide OnReceive, Output, Index, Formed;
    if n > 0 {
      TakeLog(e, ms, n - 1);
    }
  }

  // ----- concrete runs -----

  /** With nothing queued elsewhere, a packet holds what one reliable channel gives. */
  lemma PackOnly(cs: ChannelSet, k: Kind, q: Seq, now: Time, rto: Time, budget: nat)
    requires Shaped(cs) && IsReliable(k)
    requires forall j: Kind :: j != k ==> Get(cs, j).unacked == map[] && Get(cs, j).queue == []
    ensures var ch := Get(cs, k);
            var c := CollectReliable(k, ch.unacked, ch.unacked.Keys, now, rto, budget);
            var (after, out) := Packetize(cs, q, now, rto, budget);
            && out == c.out
            && after.channels == Set(cs, k, ch.(unacked := c.unacked)).channels
            && after.inPacket == (if Recorded(c.out) == [] then cs.inPacket else cs.inPacket[q := Recorded(c.out)])
  {
    hide CollectReliable, CollectQueue, Recorded, Get, Set;
    var ch := Get(cs, k);
    var c := CollectReliable(k, ch.unacked, ch.unacked.Keys, now, rto, budget);
    var one := Set(cs, k, ch.(unacked := c.unacked));
    OnlyChanges(cs, k, c.unacked);
    assert PackFrom(cs, 0, now, rto, budget) == Packing(cs, [], budget);
    if k.ReliableUnordered? {
      NothingPacked(cs, ReliableOrdered, now, rto, budget);
    } else {
      NothingPacked(one, ReliableUnordered, now, rto, c.left);
    }
    assert PackFrom(cs, 1, now, rto, budget) == if k.ReliableOrdered? then Packing(one, c.out, c.left) else Packing(cs, [], budget);
    assert PackFrom(cs, 2, now, rto, budget) == Packing(one, c.out, c.left);
    NothingPacked(one, UnreliableSequenced, now, rto, c.left);
    assert PackFrom(cs, 3, now, rto, budget) == Packing(one, c.out, c.left);
    NothingPacked(one, Unreliable, now, rto, c.left);
    assert PackFrom(cs, 4, now, rto, budget) == Packing(one, c.out, c.left);
  }

  lemma OnlyChanges(cs: ChannelSet, k: Kind, unacked: map<Id, Pending>)
    requires Shaped(cs)
    ensures var one := Set(cs, k, Get(cs, k).(unacked := unacked));
            forall j: Kind :: j != k ==> Get(one, j) == Get(cs, j)
  {
  }

  lemma NothingPacked(cs: ChannelSet, k: Kind, now: Time, rto: Time, budget: nat)
    requires Shaped(cs) && Get(cs, k).unacked == map[] && Get(cs, k).queue == []
    ensures PackChannel(Get(cs, k), k, now, rto, budget) == Packed(Get(cs, k), [], budget)
    ensures Set(cs, k, Get(cs, k)) == cs
  {
  }

  const FIRST: Pending := Pending([], None, 0)
  const SENT: Pending := Pending([], Some(0), 0)

  /** A sender's channels, holding only these unacknowledged messages of one kind. */
  function Holding(k: Kind, unacked: map<Id, Pending>, nextSend: Id, inPacket: map<Seq, seq<(Kind, Id)>>): (cs: ChannelSet)
    ensures Shaped(cs)
  {
    Set(NewChannels(0), k, NEW_CHANNEL.(nextSend := nextSend, unacked := unacked)).(inPacket := inPacket)
  }

  lemma HoldingGet(k: Kind, unacked: map<Id, Pending>, nextSend: Id, inPacket: map<Seq, seq<(Kind, Id)>>)
    ensures Get(Holding(k, unacked, nextSend, inPacket), k) == NEW_CHANNEL.(nextSend := nextSend, unacked := unacked)
    ensures forall j: Kind :: j != k ==> Get(Holding(k, unacked, nextSend, inPacket), j) == NEW_CHANNEL
    ensures forall more: map<Id, Pending> ::
              Set(Holding(k, unacked, nextSend, inPacket), k, NEW_CHANNEL.(nextSend := nextSend, unacked := more)) ==
              Holding(k, more, nextSend, inPacket)
  {
  }

  lemma HoldingPacks(k: Kind, unacked: map<Id, Pending>, nextSend: Id, inPacket: map<Seq, seq<(Kind, Id)>>, q: Seq, id: Id)
    requires IsReliable(k)
    requires id in unacked && unacked[id] == FIRST
    requires forall x: Id :: x in unacked && x != id ==> x < id && !Due(unacked[x], x, 0, 0)
    requires unacked.Keys == {id} || unacked.Keys == {0, id}
    ensures Packetize(Holding(k, unacked, nextSend, inPacket), q, 0, 0, 0) ==
            (Holding(k, unacked[id := SENT], nextSend, inPacket[q := [(k, id)]]), [Message(k, id, [])])
  {
    var cs := Holding(k, unacked, nextSend, inPacket);
    var m := Message(k, id, []);
    var c := Collected(unacked[id := SENT], [m], 0);
    assert CollectReliable(k, unacked, {id}, 0, 0, 0) == c by {
      assert Least({id}) == id;
      assert CollectReliable(k, unacked[id := SENT], {}, 0, 0, 0) == Collected(unacked[id := SENT], [], 0);
    }
    assert CollectReliable(k, unacked, unacked.Keys, 0, 0, 0) == c by {
      if unacked.Keys != {id} {
        assert Least({0, id}) == 0;
        assert {0, id} - {0} == {id};
      }
    }
    assert Recorded([m]) == [(k, id)] by {
      assert [m][..0] == [];
    }
    hide CollectReliable, Packetize, Recorded, Get, Set;
    HoldingGet(k, unacked, nextSend, inPacket);
    PackOnly(cs, k, q, 0, 0, 0);
    var packed := Packetize(cs, q, 0, 0, 0);
    PackedRest(cs, q, 0, 0, 0);
    assert packed.0.channels == Holding(k, unacked[id := SENT], nextSend, inPacket).channels;
  }

  lemma PackedRest(cs: ChannelSet, q: Seq, now: Time, rto: Time, budget: nat)
    requires Shaped(cs)
    ensures Packetize(cs, q, now, rto, budget).0.maxBuffered == cs.maxBuffered
  {
  }

  lemma RetryNotDue(id: Id)
    ensures !Due(SENT, id, 0, 0)
  {
    RetryDelayBounds(0, id, 0);
  }

  lemma RunExtends(start: Link, events: seq<Event>, e: Event, uncapped: bool)
    requires Runs(start, events, uncapped) && Permitted(After(start, events), e, uncapped)
    requires Permitted(After(start, events), e, false)
    ensures Runs(start, events + [e], uncapped)
    ensures After(start, events + [e]) == Happen(After(start, events), e)
  {
    assert (events + [e])[..|events|] == events;
  }

  const TRANSMIT: Event := Event(true, TransmitCall(0, 0, 0))

  /** The sender after sending and transmitting one reliable message, then another. */
  function OneSent(k: Kind): (e: End)
    ensures Formed(e)
  {
    TransmitStep(SendStep(NewEnd(2, 0), k, []), 0, 0, 0)
  }

  function BothSent(k: Kind): (e: End)
    ensures Formed(e)
  {
    TransmitStep(SendStep(OneSent(k), k, []), 0, 0, 0)
  }

  lemma SentOn(k: Kind, unacked: map<Id, Pending>, nextSend: Id, inPacket: map<Seq, seq<(Kind, Id)>>)
    requires IsReliable(k) && nextSend + 1 < U32
    ensures Send(Holding(k, unacked, nextSend, inPacket), k, []) ==
            Holding(k, unacked[nextSend := FIRST], nextSend + 1, inPacket)
  {
    HoldingGet(k, unacked, nextSend, inPacket);
  }

  lemma OneSentHolds(k: Kind)
    requires IsReliable(k)
    ensures OneSent(k).channels == Holding(k, map[0 := SENT], 1, map[0 := [(k, 0)]])
    ensures OneSent(k).tracker.remoteHighest.None?
    ensures |OneSent(k).net| == 1 && OneSent(k).reported == [] && |OneSent(k).log[Index(k)]| == 1
    ensures OneSent(k).tracker.nextSequence == 1 && |OneSent(k).tracker.sent| == 2
  {
    hide Packetize, Holding, Send, Get, Set;
    assert NewChannels(0) == Holding(k, map[], 0, map[]) by { StartsHolding(k); }
    SentOn(k, map[], 0, map[]);
    HoldingPacks(k, map[0 := FIRST], 1, map[], 0, 0);
    assert map[][0 := FIRST] == map[0 := FIRST];
    assert map[0 := FIRST][0 := SENT] == map[0 := SENT];
  }

  lemma StartsHolding(k: Kind)
    ensures NewChannels(0) == Holding(k, map[], 0, map[])
  {
  }

  lemma BothSentHolds(k: Kind)
    requires IsReliable(k)
    ensures var e := BothSent(k);
            && |e.net| == 2 && e.net[1] == Packet(None, [Message(k, 1, [])])
            && 1 in e.channels.inPacket && e.channels.inPacket[1] == [(k, 1)]
            && RingGet(e.tracker.sent, 1).Some? && e.reported == []
  {
    hide Packetize, OneSent, Holding, Send, Get, Set;
    OneSentHolds(k);
    RetryNotDue(0);
    var sent := map[0 := [(k, 0 as Id)]];
    SentOn(k, map[0 := SENT], 1, sent);
    HoldingPacks(k, map[0 := SENT, 1 := FIRST], 2, sent, 1, 1);
    assert map[0 := SENT][1 := FIRST] == map[0 := SENT, 1 := FIRST];
    HoldingIn(k, map[0 := SENT, 1 := SENT], 2, sent[1 := [(k, 1)]]);
    assert map[0 := SENT, 1 := FIRST][1 := SENT] == map[0 := SENT, 1 := SENT];
    var a := SendStep(OneSent(k), k, []);
    RingPutGet(a.tracker.sent, 1, SentPacket(0, false), 1);
  }

  lemma HoldingIn(k: Kind, unacked: map<Id, Pending>, nextSend: Id, inPacket: map<Seq, seq<(Kind, Id)>>)
    ensures Holding(k, unacked, nextSend, inPacket).inPacket == inPacket
  {
  }

  /** Two messages of one kind go out in packets 0 and 1; the receiver buffers nothing. */
  lemma TwoSent(k: Kind) returns (start: Link, events: seq<Event>)
    requires IsReliable(k)
    ensures Fresh(start) && Runs(start, events, false)
    ensures After(start, events) == Link(BothSent(k), NewEnd(1, 0))
  {
    hide SendStep, TransmitStep;
    var send := Event(true, SendCall(k, []));
    OneSentHolds(k);
    start := Link(NewEnd(2, 0), NewEnd(1, 0));
    assert Runs(start, [], false) && After(start, []) == start;
    events := [] + [send];
    RunExtends(start, [], send, false);
    RunExtends(start, events, TRANSMIT, false) by { SendStepNet(NewEnd(2, 0), k); }
    events := events + [TRANSMIT];
    RunExtends(start, events, send, false);
    events := events + [send];
    RunExtends(start, events, TRANSMIT, false) by { SendStepNet(OneSent(k), k); }
    events := events + [TRANSMIT];
  }

  lemma SendStepNet(e: End, k: Kind)
    requires Formed(e)
    ensures SendStep(e, k, []).net == e.net
  {
  }

  /** So the guarantee fails without the cap's contract: a run from new endpoints after which
      a message is neither unacknowledged nor held. */
  lemma CapLosesMessage()
    ensures exists start, events ::
              Fresh(start) && Runs(start, events, false) &&
              var link := After(start, events);
              Formed(link.a) && Formed(link.b) && !Conserved(link.a, link.b)
  {
    hide Conserved, Packetize, Carries, Linked, DeliverStep, TransmitStep, BothSent, Runs, After, Fresh, Marks;
    var start, events := TwoSent(ReliableOrdered);
    RunKeeps(start, events, false);
    BothSentHolds(ReliableOrdered);
    var a, b, m := BothSent(ReliableOrdered), NewEnd(1, 0), Message(ReliableOrdered, 1, []);
    assert a.channels.inPacket[1][0] == (ReliableOrdered, 1);
    var r1 := DeliverStep(b, 1, a.net[1]);
    var r2 := TransmitStep(r1, 0, 0, 0);
    var s1 := DeliverStep(a, 0, Newest(r2));
    LostExactlyAtCap(a, b, r1, r2, s1, 1, m, 0, 0, 0);
    DeliveredNet(b, 1, a.net[1]);
    TransmitNet(r1, 0, 0, 0);
    var arrive, reply, ack :=
      Event(false, DeliverCall(1)), Event(false, TransmitCall(0, 0, 0)), Event(true, DeliverCall(0));
    RunExtends(start, events, arrive, false);
    RunExtends(start, events + [arrive], reply, false);
    RunExtends(start, events + [arrive] + [reply], ack, false);
    assert After(start, events + [arrive] + [reply] + [ack]) == Link(s1, r2);
  }

  /** At the cap the unordered guarantee fails the other way: a run from new endpoints after
      which one message has been delivered twice. */
  lemma CapRepeatsMessage()
    ensures exists start, events ::
              Fresh(start) && Runs(start, events, false) &&
              var link := After(start, events);
              Formed(link.b) && !Once(Output(link.b, ReliableUnordered))
  {
    hide Packetize, DeliverStep, TransmitStep, BothSent, Runs, After, Fresh, Marks;
    var k := ReliableUnordered;
    var start, events := TwoSent(k);
    BothSentHolds(k);
    var a, b, m := BothSent(k), NewEnd(1, 0), Message(k, 1, []);
    var r1 := DeliverStep(b, 1, a.net[1]);
    var r2 := DeliverStep(r1, 1, a.net[1]);
    DeliveredAtCap(b, 1, a.net[1], m);
    DeliveredAtCap(r1, 1, a.net[1], m);
    var arrive := Event(false, DeliverCall(1));
    RunExtends(start, events, arrive, false);
    RunExtends(start, events + [arrive], arrive, false);
    assert After(start, events + [arrive] + [arrive]) == Link(a, r2);
    assert Output(r2, k) == [m, m];
    assert Output(r2, k)[0].id == Output(r2, k)[1].id;
  }

  /** An unordered message alone in its packet and refused at the cap is delivered, and the
      receiving half is as it was. */
  lemma DeliveredAtCap(e: End, number: Seq, p: Packet, m: Message)
    requires Formed(e) && p == Packet(None, [m]) && m.channel.ReliableUnordered?
    requires !Accepts(Get(e.channels, m.channel), e.channels.maxBuffered, m)
    ensures var after := DeliverStep(e, number, p);
            && Output(after, m.channel) == Output(e, m.channel) + [m]
            && !Accepts(Get(after.channels, m.channel), after.channels.maxBuffered, m)
  {
    hide Hear, HearAcks, OnReceive;
    var ch := Get(e.channels, m.channel);
    assert ReceiveOn(ch, e.channels.maxBuffered, m) == (ch, [m]);
    TakeUnfolds(e, m);
    assert OnReceive(e.channels, m) == (e.channels, [m]) by { UnchangedSet(e.channels, m); }
    var took := Take(e, [m], 1);
    var heard := Hear(took, number);
    HearFrame(took, number);
    HearOutput(took, number);
    assert DeliverStep(e, number, p) == heard by { NoHeader(heard); }
  }

  lemma NoHeader(e: End)
    requires Formed(e)
    ensures HearAcks(e, None) == e
  {
  }

  lemma UnchangedSet(cs: ChannelSet, m: Message)
    requires Shaped(cs) && ReceiveOn(Get(cs, m.channel), cs.maxBuffered, m) == (Get(cs, m.channel), [m])
    ensures OnReceive(cs, m) == (cs, [m])
  {
    assert cs.channels[Index(m.channel) := cs.channels[Index(m.channel)]] == cs.channels;
  }

  lemma HearOutput(e: End, q: Seq)
    requires Formed(e)
    ensures Hear(e, q).delivered == e.delivered
  {
  }

  lemma DeliveredNet(r: End, n: Seq, p: Packet)
    requires Formed(r)
    ensures DeliverStep(r, n, p).net == r.net
  {
    TakeNet(r, p.messages, |p.messages|);
  }

  lemma {:induction false} TakeNet(e: End, ms: seq<Message>, n: nat)
    requires Formed(e) && n <= |ms|
    ensures Take(e, ms, n).net == e.net
  {
    hide OnReceive, Output, Index, Formed;
    if n > 0 {
      TakeNet(e, ms, n - 1);
    }
  }
}
