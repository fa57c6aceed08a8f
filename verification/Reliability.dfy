/** Two connected endpoints over a network that loses, duplicates, reorders and delays.

    Every packet either end ever sent stays available for delivery, in any order and any
    number of times; a packet that is never delivered is lost. Packet `i` of an end carries
    sequence number `i`: a run holds at most 2^16 packets each way. */
module Reliability {
  import opened Common
  import opened Sequences
  import opened Acks
  import opened Channels
  import opened Delivery

  /** An ack header travels only once its sender has received something. */
  datatype Packet = Packet(header: Option<Header>, messages: seq<Message>)

  /** One end: its tracker and channels, and the history a run records beside them: the
      packets it sent, what it was asked to send and what it released on each channel, the
      packet numbers it received, and those reported to it as acknowledged, in order. */
  datatype End = End(
    tracker: Tracker,
    channels: ChannelSet,
    net: seq<Packet>,
    log: seq<Log>,
    delivered: seq<seq<Message>>,
    got: set<Seq>,
    reported: seq<Seq>)

  function NewEnd(capacity: nat, maxBuffered: nat): End
    requires capacity > 0
  {
    End(NewTracker(capacity), NewChannels(maxBuffered), [], [[], [], [], []], [[], [], [], []], {}, [])
  }

  predicate Formed(e: End) {
    && Sized(e.tracker) && Shaped(e.channels) && |e.log| == 4 && |e.delivered| == 4
    && e.tracker.newlyAcked == []
  }

  function Sent(e: End, k: Kind): Log
    requires Formed(e)
  {
    e.log[Index(k)]
  }

  function Output(e: End, k: Kind): seq<Message>
    requires Formed(e)
  {
    e.delivered[Index(k)]
  }

  // ----- the calls -----

  datatype Call =
    | SendCall(kind: Kind, payload: Payload)
    | TransmitCall(now: Time, rto: Time, budget: nat)
    | DeliverCall(number: nat)
    | GiveUpCall(packet: Seq)

  function SendStep(e: End, k: Kind, payload: Payload): (r: End)
    requires Formed(e)
    ensures Formed(r)
  {
    e.(channels := Send(e.channels, k, payload),
       log := e.log[Index(k) := e.log[Index(k)] + [payload]])
  }

  function HeaderOf(t: Tracker): Option<Header>
    requires Sized(t)
  {
    if t.remoteHighest.None? then None else Some(AckHeader(t))
  }

  function TransmitStep(e: End, now: Time, rto: Time, budget: nat): (r: End)
    requires Formed(e)
    ensures Formed(r)
  {
    var packed := Packetize(e.channels, e.tracker.nextSequence, now, rto, budget);
    e.(tracker := BeginSend(e.tracker, now),
       channels := packed.0,
       net := e.net + [Packet(HeaderOf(e.tracker), packed.1)])
  }

  /** Hands the first `n` messages of a packet to the channels. */
  function Take(e: End, ms: seq<Message>, n: nat): (r: End)
    requires Formed(e) && n <= |ms|
    ensures Formed(r)
  {
    if n == 0 then e
    else
      var prior := Take(e, ms, n - 1);
      var m := ms[n - 1];
      var received := OnReceive(prior.channels, m);
      prior.(channels := received.0,
             delivered := prior.delivered[Index(m.channel) := Output(prior, m.channel) + received.1])
  }

  function Hear(e: End, number: Seq): (r: End)
    requires Formed(e)
    ensures Formed(r)
  {
    e.(tracker := Receive(e.tracker, number), got := e.got + {number})
  }

  function RetireAll(cs: ChannelSet, acked: seq<Seq>): (r: ChannelSet)
    requires Shaped(cs)
    ensures Shaped(r)
  {
    if acked == [] then cs
    else OnPacketAcked(RetireAll(cs, acked[..|acked| - 1]), acked[|acked| - 1])
  }

  /** Processes a header, then drains what it newly acknowledged into the channels. */
  function HearAcks(e: End, header: Option<Header>): (r: End)
    requires Formed(e)
    ensures Formed(r)
  {
    match header
    case None => e
    case Some(h) =>
      var t := OnAckHeader(e.tracker, h);
      e.(tracker := t.(newlyAcked := []),
         channels := RetireAll(e.channels, t.newlyAcked),
         reported := e.reported + t.newlyAcked)
  }

  function DeliverStep(e: End, number: Seq, p: Packet): (r: End)
    requires Formed(e)
    ensures Formed(r)
  {
    HearAcks(Hear(Take(e, p.messages, |p.messages|), number), p.header)
  }

  function GiveUpStep(e: End, packet: Seq): (r: End)
    requires Formed(e)
    ensures Formed(r)
  {
    e.(channels := OnPacketLost(e.channels, packet))
  }

  // ----- what the sending and the receiving half of an end read -----

  /** Two ends with the same receiving half. */
  ghost predicate SameReceiver(a: End, b: End)
    requires Formed(a) && Formed(b)
  {
    && a.tracker.remoteHighest == b.tracker.remoteHighest && a.tracker.received == b.tracker.received
    && a.delivered == b.delivered && a.got == b.got && a.net == b.net
    && a.channels.maxBuffered == b.channels.maxBuffered
    && forall k: Kind ::
         SameReceiving(Get(a.channels, k), Get(b.channels, k))
  }

  predicate SameReceiving(a: Channel, b: Channel) {
    && a.nextExpect == b.nextExpect && a.ordered == b.ordered
    && a.seenAbove == b.seenAbove && a.highest == b.highest
  }

  predicate SameSending(a: Channel, b: Channel) {
    a.nextSend == b.nextSend && a.unacked == b.unacked && a.queue == b.queue
  }

  ghost predicate SameSender(a: End, b: End)
    requires Formed(a) && Formed(b)
  {
    && a.tracker.nextSequence == b.tracker.nextSequence && a.tracker.sent == b.tracker.sent
    && a.net == b.net && a.log == b.log && a.reported == b.reported
    && a.channels.inPacket == b.channels.inPacket
    && forall k: Kind :: SameSending(Get(a.channels, k), Get(b.channels, k))
  }

  // ----- the invariant, one direction at a time -----

  /** Everything queued or unacknowledged on a channel is what was sent on it. */
  ghost predicate Queued(ch: Channel, log: Log) {
    && |log| < U32 && ch.nextSend == |log|
    && (forall id: Id :: id in ch.unacked ==> id < |log| && ch.unacked[id].payload == log[id])
    && (forall i :: 0 <= i < |ch.queue| ==>
          ch.queue[i].0 < |log| && log[ch.queue[i].0] == ch.queue[i].1)
  }

  predicate FromLog(m: Message, e: End)
    requires Formed(e)
  {
    Genuine(m, m.channel, Sent(e, m.channel))
  }

  /** `(k, id)` is a reliable message of the packet. */
  ghost predicate Carries(p: Packet, k: Kind, id: Id) {
    IsReliable(k) && exists i :: 0 <= i < |p.messages| && p.messages[i].channel == k && p.messages[i].id == id
  }

  ghost predicate Remembers(inPacket: map<Seq, seq<(Kind, Id)>>, net: seq<Packet>) {
    forall q: Seq :: q in inPacket ==>
      q < |net| && forall i :: 0 <= i < |inPacket[q]| ==> Carries(net[q], inPacket[q][i].0, inPacket[q][i].1)
  }

  ghost predicate Distinct(q: seq<Seq>) {
    forall i, j :: 0 <= i < j < |q| ==> q[i] != q[j]
  }

  ghost predicate Sender(e: End) {
    && Formed(e) && |e.net| <= U16
    && ReportedOnce(e.tracker, |e.net|, Elements(e.reported)) && Distinct(e.reported)
    && (forall k: Kind :: Queued(Get(e.channels, k), Sent(e, k)))
    && (forall i, j :: 0 <= i < |e.net| && 0 <= j < |e.net[i].messages| ==> FromLog(e.net[i].messages[j], e))
    && Remembers(e.channels.inPacket, e.net)
  }

  /** The receiving half of one channel. The unordered guarantee needs the buffer cap never
      to have refused a message. */
  ghost predicate Received(ch: Channel, k: Kind, log: Log, delivered: seq<Message>, uncapped: bool) {
    && AllGenuine(delivered, k, log)
    && (k.ReliableOrdered? ==> Ordered(ch, log, delivered))
    && (k.ReliableUnordered? && uncapped ==> Unordered(ch, log, delivered))
    && (k.UnreliableSequenced? && |log| <= SEQUENCED_SPAN ==> Ascending(ch, delivered))
  }

  ghost predicate Receiver(s: End, r: End, uncapped: bool)
    requires Formed(s)
  {
    && Formed(r)
    && ReceivedOnly(r.tracker, r.got)
    && (forall q: Seq :: q in r.got ==> q < |s.net|)
    && (forall q: Seq :: q in s.reported ==> q in r.got)
    && (forall k: Kind :: Received(Get(r.channels, k), k, Sent(s, k), Output(r, k), uncapped))
    && (forall i: nat :: i < |r.net| ==> HeaderTrue(r.net[i], r.got))
  }

  ghost predicate HeaderTrue(p: Packet, got: set<Seq>) {
    p.header.Some? ==> forall q: Seq :: Marks(p.header.value, q) ==> q in got
  }

  /** Every reliable message of a received packet is held. */
  ghost predicate TakenIn(net: seq<Packet>, r: End)
    requires Formed(r)
  {
    forall q: Seq, k: Kind, id: Id :: q in r.got && q < |net| && Carries(net[q], k, id) ==>
      Held(Get(r.channels, k), k, id)
  }

  /** Every reliable id sent is still unacknowledged, or held by the peer. */
  ghost predicate Conserved(s: End, r: End)
    requires Formed(s) && Formed(r)
  {
    forall k: Kind, id: Id :: IsReliable(k) && id < |Sent(s, k)| ==>
      id in Get(s.channels, k).unacked || Held(Get(r.channels, k), k, id)
  }

  ghost predicate Flow(s: End, r: End, uncapped: bool) {
    && Sender(s) && Receiver(s, r, uncapped)
    && (uncapped ==> TakenIn(s.net, r) && Conserved(s, r))
  }

  lemma FlowStarts(capacity: nat, maxBuffered: nat, peerCapacity: nat, peerMax: nat)
    requires capacity > 0 && peerCapacity > 0
    ensures Flow(NewEnd(capacity, maxBuffered), NewEnd(peerCapacity, peerMax), true)
  {
    var s, r := NewEnd(capacity, maxBuffered), NewEnd(peerCapacity, peerMax);
    forall k: Kind
      ensures Queued(Get(s.channels, k), Sent(s, k))
      ensures Get(r.channels, k) == NEW_CHANNEL && Sent(s, k) == [] && Output(r, k) == []
    {
    }
  }

  // ----- frames -----

  lemma ReceiverFrame(s: End, r: End, after: End, uncapped: bool)
    requires Flow(s, r, uncapped) && Formed(after)
    requires SameReceiver(r, after)
    ensures Flow(s, after, uncapped)
  {
    forall k: Kind
      ensures Received(Get(after.channels, k), k, Sent(s, k), Output(after, k), uncapped)
      ensures forall id: Id :: Held(Get(after.channels, k), k, id) <==> Held(Get(r.channels, k), k, id)
    {
      assert SameReceiving(Get(r.channels, k), Get(after.channels, k));
    }
  }

  lemma SenderFrame(s: End, after: End, r: End, uncapped: bool)
    requires Flow(s, r, uncapped) && Formed(after)
    requires SameSender(s, after)
    ensures Flow(after, r, uncapped)
  {
    forall k: Kind
      ensures Queued(Get(after.channels, k), Sent(after, k))
    {
      assert SameSending(Get(s.channels, k), Get(after.channels, k));
    }
    forall q: Seq
      ensures RingGet(after.tracker.sent, q) == RingGet(s.tracker.sent, q)
    {
    }
  }
}
