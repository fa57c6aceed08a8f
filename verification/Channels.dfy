/** The four delivery guarantees of one connection: sending, packing, retiring and
    receiving messages, as pure functions of the channels' state. */
module Channels {
  import opened Common
  import opened Sequences
  import Bits

  type Payload = seq<Bits.Byte>
  type Id = n: nat | n < U32

  datatype Kind = Unreliable | UnreliableSequenced | ReliableOrdered | ReliableUnordered

  predicate IsReliable(k: Kind) {
    k.ReliableOrdered? || k.ReliableUnordered?
  }

  function Index(k: Kind): (i: nat)
    ensures i < 4
  {
    match k
    case Unreliable => 0
    case UnreliableSequenced => 1
    case ReliableOrdered => 2
    case ReliableUnordered => 3
  }

  /** A message on its way out, or released to the application. */
  datatype Message = Message(channel: Kind, id: Id, payload: Payload)

  datatype Pending = Pending(payload: Payload, lastSent: Option<Time>, attempts: nat)

  datatype Channel = Channel(
    nextSend: Id,
    unacked: map<Id, Pending>,
    queue: seq<(Id, Payload)>,
    nextExpect: nat,
    ordered: map<Id, Payload>,
    seenAbove: set<Id>,
    highest: Option<Id>)

  datatype ChannelSet = ChannelSet(
    channels: seq<Channel>,
    inPacket: map<Seq, seq<(Kind, Id)>>,
    maxBuffered: nat)

  predicate Shaped(cs: ChannelSet) {
    |cs.channels| == 4
  }

  function Get(cs: ChannelSet, k: Kind): Channel
    requires Shaped(cs)
  {
    cs.channels[Index(k)]
  }

  function Set(cs: ChannelSet, k: Kind, ch: Channel): (r: ChannelSet)
    requires Shaped(cs)
    ensures Shaped(r)
  {
    cs.(channels := cs.channels[Index(k) := ch])
  }

  const NEW_CHANNEL: Channel := Channel(0, map[], [], 0, map[], {}, None)

  function NewChannels(maxBuffered: nat): (cs: ChannelSet)
    ensures Shaped(cs)
  {
    ChannelSet([NEW_CHANNEL, NEW_CHANNEL, NEW_CHANNEL, NEW_CHANNEL], map[], maxBuffered)
  }

  // ----- sending -----

  function SendOn(ch: Channel, k: Kind, payload: Payload): Channel {
    var id := ch.nextSend;
    var next := ch.(nextSend := (id + 1) % U32);
    if IsReliable(k) then next.(unacked := ch.unacked[id := Pending(payload, None, 0)])
    else next.(queue := ch.queue + [(id, payload)])
  }

  function Send(cs: ChannelSet, k: Kind, payload: Payload): (r: ChannelSet)
    requires Shaped(cs)
    ensures Shaped(r)
  {
    Set(cs, k, SendOn(Get(cs, k), k, payload))
  }

  const MIN_RETRY_US: nat := 10_000

  /** Doubled for each attempt past the eighth, five times at most. */
  function BackoffFactor(attempts: nat): nat {
    if attempts <= 8 then 1
    else if attempts == 9 then 2
    else if attempts == 10 then 4
    else if attempts == 11 then 8
    else if attempts == 12 then 16
    else 32
  }

  function RetryDelay(rto: Time, id: Id, attempts: nat): Time {
    var eager := if rto / 2 < MIN_RETRY_US then MIN_RETRY_US else rto / 2;
    var product := eager * BackoffFactor(attempts);
    var delay := if product < U64 then product else U64 - 1;
    var spread := delay / 2 + 1;
    var mixed := (id * 0x9E37_79B9_7F4A_7C15 + attempts * 0x0000_0100_0000_01B3) % U64;
    (delay + mixed % spread) % U64
  }

  /** Below 2^58 microseconds nothing saturates or wraps: a retry waits half the round
      trip, at least 10 ms, doubled at most five times, and jitter adds at most half again. */
  lemma RetryDelayBounds(rto: Time, id: Id, attempts: nat)
    requires rto < 0x400_0000_0000_0000
    ensures var eager := if rto / 2 < MIN_RETRY_US then MIN_RETRY_US else rto / 2;
            var delay := eager * BackoffFactor(attempts);
            delay <= RetryDelay(rto, id, attempts) <= delay + delay / 2
  {
    var eager := if rto / 2 < MIN_RETRY_US then MIN_RETRY_US else rto / 2;
    var factor := BackoffFactor(attempts);
    assert eager * factor <= 32 * 0x200_0000_0000_0000 by {
      MulLess(eager, factor, 32);
    }
  }

  predicate Due(p: Pending, id: Id, now: Time, rto: Time) {
    p.lastSent.None? || Since(now, p.lastSent.value) >= RetryDelay(rto, id, p.attempts)
  }

  /** `attempts` counts retransmissions, saturating at the top of 32 bits. */
  function Resent(p: Pending, now: Time): Pending {
    Pending(p.payload, Some(now),
            if p.lastSent.None? then p.attempts
            else if p.attempts + 1 < U32 then p.attempts + 1 else U32 - 1)
  }

  datatype Collected = Collected(unacked: map<Id, Pending>, out: seq<Message>, left: nat)

  /** The pass over one reliable channel's unacknowledged messages in ascending id: those
      due are taken until one does not fit. */
  function CollectReliable(k: Kind, unacked: map<Id, Pending>, rest: set<Id>, now: Time, rto: Time, budget: nat)
    : (c: Collected)
    requires rest <= unacked.Keys
    decreases |rest|
  {
    if rest == {} then Collected(unacked, [], budget)
    else
      var id := Least(rest);
      var p := unacked[id];
      if !Due(p, id, now, rto) then CollectReliable(k, unacked, rest - {id}, now, rto, budget)
      else if |p.payload| > budget then Collected(unacked, [], budget)
      else
        var c := CollectReliable(k, unacked[id := Resent(p, now)], rest - {id}, now, rto, budget - |p.payload|);
        c.(out := [Message(k, id, p.payload)] + c.out)
  }

  /** The pass over one unreliable queue: what does not fit is dropped, not kept. */
  function CollectQueue(k: Kind, queue: seq<(Id, Payload)>, budget: nat): (seq<Message>, nat) {
    if queue == [] then ([], budget)
    else if |queue[0].1| > budget then CollectQueue(k, queue[1..], budget)
    else
      var rest := CollectQueue(k, queue[1..], budget - |queue[0].1|);
      ([Message(k, queue[0].0, queue[0].1)] + rest.0, rest.1)
  }

  datatype Packed = Packed(channel: Channel, out: seq<Message>, left: nat)

  function PackChannel(ch: Channel, k: Kind, now: Time, rto: Time, budget: nat): Packed {
    if IsReliable(k) then
      var c := CollectReliable(k, ch.unacked, ch.unacked.Keys, now, rto, budget);
      Packed(ch.(unacked := c.unacked), c.out, c.left)
    else
      var c := CollectQueue(k, ch.queue, budget);
      Packed(ch.(queue := []), c.0, c.1)
  }

  /** Reliable channels first. */
  const ORDER: seq<Kind> := [ReliableOrdered, ReliableUnordered, UnreliableSequenced, Unreliable]

  datatype Packing = Packing(cs: ChannelSet, out: seq<Message>, left: nat)

  function PackFrom(cs: ChannelSet, n: nat, now: Time, rto: Time, budget: nat): (p: Packing)
    requires Shaped(cs) && n <= 4
    ensures Shaped(p.cs) && p.cs.inPacket == cs.inPacket && p.cs.maxBuffered == cs.maxBuffered
  {
    if n == 0 then Packing(cs, [], budget)
    else
      var prior := PackFrom(cs, n - 1, now, rto, budget);
      var k := ORDER[n - 1];
      var packed := PackChannel(Get(prior.cs, k), k, now, rto, prior.left);
      Packing(Set(prior.cs, k, packed.channel), prior.out + packed.out, packed.left)
  }

  /** The reliable messages of a packet, as they are remembered for its acknowledgement. */
  function Recorded(out: seq<Message>): seq<(Kind, Id)> {
    if out == [] then []
    else
      var rest := Recorded(out[..|out| - 1]);
      var m := out[|out| - 1];
      if IsReliable(m.channel) then rest + [(m.channel, m.id)] else rest
  }

  function Packetize(cs: ChannelSet, packet: Seq, now: Time, rto: Time, budget: nat): (ChannelSet, seq<Message>)
    requires Shaped(cs)
  {
    var p := PackFrom(cs, 4, now, rto, budget);
    var recorded := Recorded(p.out);
    (if recorded == [] then p.cs else p.cs.(inPacket := p.cs.inPacket[packet := recorded]), p.out)
  }

  // ----- acknowledgement -----

  function RetireFrom(cs: ChannelSet, entries: seq<(Kind, Id)>): (r: ChannelSet)
    requires Shaped(cs)
    ensures Shaped(r) && r.inPacket == cs.inPacket && r.maxBuffered == cs.maxBuffered
  {
    if entries == [] then cs
    else
      var prior := RetireFrom(cs, entries[..|entries| - 1]);
      var (k, id) := entries[|entries| - 1];
      var ch := Get(prior, k);
      Set(prior, k, ch.(unacked := ch.unacked - {id}))
  }

  function OnPacketAcked(cs: ChannelSet, packet: Seq): (r: ChannelSet)
    requires Shaped(cs)
    ensures Shaped(r)
  {
    if packet !in cs.inPacket then cs
    else RetireFrom(cs.(inPacket := cs.inPacket - {packet}), cs.inPacket[packet])
  }

  function OnPacketLost(cs: ChannelSet, packet: Seq): (r: ChannelSet)
    requires Shaped(cs)
    ensures Shaped(r)
  {
    cs.(inPacket := cs.inPacket - {packet})
  }

  // ----- receiving -----

  /** The run of buffered messages that filling a gap releases. */
  function Release(ch: Channel): (Channel, seq<Message>)
    decreases |ch.ordered|
  {
    if ch.nextExpect < U32 && ch.nextExpect in ch.ordered then
      var m := Message(ReliableOrdered, ch.nextExpect, ch.ordered[ch.nextExpect]);
      var r := Release(ch.(ordered := ch.ordered - {ch.nextExpect}, nextExpect := ch.nextExpect + 1));
      (r.0, [m] + r.1)
    else (ch, [])
  }

  /** The run of ids already seen that the contiguous run absorbs. */
  function Absorb(ch: Channel): Channel
    decreases |ch.seenAbove|
  {
    if ch.nextExpect < U32 && ch.nextExpect in ch.seenAbove then
      Absorb(ch.(seenAbove := ch.seenAbove - {ch.nextExpect}, nextExpect := ch.nextExpect + 1))
    else ch
  }

  predicate SequencedNewer(highest: Option<Id>, id: Id) {
    highest.None? || 0 < (id - highest.value) % U32 < (U32 - 1) / 2
  }

  function ReceiveOn(ch: Channel, maxBuffered: nat, m: Message): (Channel, seq<Message>) {
    match m.channel
    case Unreliable => (ch, [m])
    case UnreliableSequenced =>
      if SequencedNewer(ch.highest, m.id) then (ch.(highest := Some(m.id)), [m]) else (ch, [])
    case ReliableUnordered =>
      if m.id < ch.nextExpect || m.id in ch.seenAbove then (ch, [])
      else if m.id == ch.nextExpect then (Absorb(ch.(nextExpect := ch.nextExpect + 1)), [m])
      else if |ch.seenAbove| < maxBuffered then (ch.(seenAbove := ch.seenAbove + {m.id}), [m])
      else (ch, [m])
    case ReliableOrdered =>
      if m.id < ch.nextExpect || m.id in ch.ordered then (ch, [])
      else if m.id == ch.nextExpect then
        var r := Release(ch.(nextExpect := ch.nextExpect + 1));
        (r.0, [m] + r.1)
      else if |ch.ordered| < maxBuffered then (ch.(ordered := ch.ordered[m.id := m.payload]), [])
      else (ch, [])
  }

  function OnReceive(cs: ChannelSet, m: Message): (ChannelSet, seq<Message>)
    requires Shaped(cs)
  {
    var r := ReceiveOn(Get(cs, m.channel), cs.maxBuffered, m);
    (Set(cs, m.channel, r.0), r.1)
  }

  // ----- what packing promises -----

  function Bytes(out: seq<Message>): nat {
    if out == [] then 0 else |out[0].payload| + Bytes(out[1..])
  }

  lemma {:induction false} BytesConcat(a: seq<Message>, b: seq<Message>)
    ensures Bytes(a + b) == Bytes(a) + Bytes(b)
  {
    if a == [] {
      assert a + b == b;
    } else {
      BytesConcat(a[1..], b);
      assert (a + b)[1..] == a[1..] + b;
    }
  }

  /** What one pass over a reliable channel does, by id: a message is taken exactly when it
      is listed, a taken one was due and is marked as sent now, and nothing else changes. */
  ghost predicate CollectsDue(k: Kind, unacked: map<Id, Pending>, rest: set<Id>, now: Time, rto: Time, c: Collected) {
    && c.unacked.Keys == unacked.Keys
    && (forall id: Id :: id in unacked ==>
          c.unacked[id] == if Listed(c.out, id) then Resent(unacked[id], now) else unacked[id])
    && (forall i :: 0 <= i < |c.out| ==>
          && c.out[i].channel == k
          && c.out[i].id in rest && c.out[i].id in unacked
          && c.out[i].payload == unacked[c.out[i].id].payload
          && Due(unacked[c.out[i].id], c.out[i].id, now, rto))
    && (forall i, j :: 0 <= i < j < |c.out| ==> c.out[i].id < c.out[j].id)
  }

  ghost predicate Listed(out: seq<Message>, id: Id) {
    exists i :: 0 <= i < |out| && out[i].id == id
  }

  lemma {:induction false} CollectKeeps(k: Kind, unacked: map<Id, Pending>, rest: set<Id>, now: Time, rto: Time,
                                        budget: nat)
    requires rest <= unacked.Keys
    ensures var c := CollectReliable(k, unacked, rest, now, rto, budget);
            CollectsDue(k, unacked, rest, now, rto, c) && Bytes(c.out) + c.left == budget
    decreases |rest|
  {
    hide Due, Resent, CollectsDue;
    var c := CollectReliable(k, unacked, rest, now, rto, budget);
    if rest == {} {
      CollectNothing(k, unacked, rest, now, rto, budget);
    } else {
      var id := Least(rest);
      var p := unacked[id];
      if !Due(p, id, now, rto) {
        CollectKeeps(k, unacked, rest - {id}, now, rto, budget);
        CollectWiden(k, unacked, rest, now, rto, id, c);
      } else if |p.payload| > budget {
        CollectNothing(k, unacked, rest, now, rto, budget);
      } else {
        var u, m := unacked[id := Resent(p, now)], Message(k, id, p.payload);
        CollectKeeps(k, u, rest - {id}, now, rto, budget - |p.payload|);
        var d := CollectReliable(k, u, rest - {id}, now, rto, budget - |p.payload|);
        assert c == Collected(d.unacked, [m] + d.out, d.left);
        CollectStep(k, unacked, rest, now, rto, id, d);
        assert c.out[1..] == d.out;
      }
    }
  }

  lemma CollectNothing(k: Kind, unacked: map<Id, Pending>, rest: set<Id>, now: Time, rto: Time, budget: nat)
    ensures CollectsDue(k, unacked, rest, now, rto, Collected(unacked, [], budget))
  {
  }

  lemma CollectWiden(k: Kind, unacked: map<Id, Pending>, rest: set<Id>, now: Time, rto: Time, id: Id, c: Collected)
    requires CollectsDue(k, unacked, rest - {id}, now, rto, c)
    ensures CollectsDue(k, unacked, rest, now, rto, c)
  {
    hide Due, Resent;
  }

  lemma ListedCons(m: Message, out: seq<Message>, x: Id)
    ensures Listed([m] + out, x) <==> x == m.id || Listed(out, x)
  {
    var all := [m] + out;
    assert all[0] == m;
    assert forall i :: 0 <= i < |out| ==> all[i + 1] == out[i];
    if Listed(all, x) && x != m.id {
      var i :| 0 <= i < |all| && all[i].id == x;
      assert out[i - 1].id == x;
    }
    if Listed(out, x) {
      var i :| 0 <= i < |out| && out[i].id == x;
      assert all[i + 1].id == x;
    }
  }

  lemma CollectStep(k: Kind, unacked: map<Id, Pending>, rest: set<Id>, now: Time, rto: Time, id: Id, d: Collected)
    requires rest <= unacked.Keys && id in rest && (forall x :: x in rest ==> id <= x)
    requires Due(unacked[id], id, now, rto)
    requires CollectsDue(k, unacked[id := Resent(unacked[id], now)], rest - {id}, now, rto, d)
    ensures var m := Message(k, id, unacked[id].payload);
            CollectsDue(k, unacked, rest, now, rto, Collected(d.unacked, [m] + d.out, d.left))
  {
    hide Due, Resent;
    var m := Message(k, id, unacked[id].payload);
    var out := [m] + d.out;
    forall x: Id
      ensures Listed(out, x) <==> x == id || Listed(d.out, x)
    {
      ListedCons(m, d.out, x);
    }
    assert !Listed(d.out, id);
  }

  /** Due, left behind, and too large for what is left of the budget once those before it
      are taken; nothing behind it is taken. */
  ghost predicate Blocks(unacked: map<Id, Pending>, rest: set<Id>, now: Time, rto: Time, c: Collected, x: Id) {
    && x in rest && x in unacked
    && Due(unacked[x], x, now, rto)
    && |unacked[x].payload| > c.left
    && (forall i :: 0 <= i < |c.out| ==> c.out[i].id < x)
  }

  /** A due message left behind is behind one at least as old that did not fit: the head of
      the line is never passed over. */
  lemma {:induction false} HeadOfLine(k: Kind, unacked: map<Id, Pending>, rest: set<Id>, now: Time, rto: Time,
                                      budget: nat, id: Id)
    requires rest <= unacked.Keys && id in rest && Due(unacked[id], id, now, rto)
    ensures var c := CollectReliable(k, unacked, rest, now, rto, budget);
            Listed(c.out, id) || exists x: Id :: x <= id && Blocks(unacked, rest, now, rto, c, x)
    decreases |rest|
  {
    hide Due, Resent, Listed;
    var c := CollectReliable(k, unacked, rest, now, rto, budget);
    var first := Least(rest);
    var p := unacked[first];
    if !Due(p, first, now, rto) {
      HeadOfLine(k, unacked, rest - {first}, now, rto, budget, id);
      if !Listed(c.out, id) {
        var x: Id :| x <= id && Blocks(unacked, rest - {first}, now, rto, c, x);
        assert Blocks(unacked, rest, now, rto, c, x);
      }
    } else if |p.payload| > budget {
      assert Blocks(unacked, rest, now, rto, c, first);
    } else {
      var u, m := unacked[first := Resent(p, now)], Message(k, first, p.payload);
      var d := CollectReliable(k, u, rest - {first}, now, rto, budget - |p.payload|);
      ListedCons(m, d.out, id);
      if id != first {
        HeadOfLine(k, u, rest - {first}, now, rto, budget - |p.payload|, id);
        if !Listed(d.out, id) {
          var x: Id :| x <= id && Blocks(u, rest - {first}, now, rto, d, x);
          assert Blocks(unacked, rest, now, rto, c, x);
        }
      }
    }
  }

  lemma {:induction false} QueueKeeps(k: Kind, queue: seq<(Id, Payload)>, budget: nat)
    ensures var c := CollectQueue(k, queue, budget);
            && Bytes(c.0) + c.1 == budget
            && (forall m :: m in c.0 ==> m.channel == k && (m.id, m.payload) in queue)
            && (forall e :: e in queue && |e.1| <= c.1 ==> Message(k, e.0, e.1) in c.0)
  {
    if queue != [] {
      var c := CollectQueue(k, queue, budget);
      if |queue[0].1| > budget {
        QueueKeeps(k, queue[1..], budget);
      } else {
        QueueKeeps(k, queue[1..], budget - |queue[0].1|);
        assert c.0[0] == Message(k, queue[0].0, queue[0].1);
        assert c.0[1..] == CollectQueue(k, queue[1..], budget - |queue[0].1|).0;
      }
    }
  }

  /** The packet never exceeds its budget. */
  lemma {:induction false} PacketWithinBudget(cs: ChannelSet, n: nat, now: Time, rto: Time, budget: nat)
    requires Shaped(cs) && n <= 4
    ensures var p := PackFrom(cs, n, now, rto, budget);
            Bytes(p.out) + p.left == budget
  {
    if n > 0 {
      PacketWithinBudget(cs, n - 1, now, rto, budget);
      var prior := PackFrom(cs, n - 1, now, rto, budget);
      var k := ORDER[n - 1];
      var ch := Get(prior.cs, k);
      if IsReliable(k) {
        CollectKeeps(k, ch.unacked, ch.unacked.Keys, now, rto, prior.left);
      } else {
        QueueKeeps(k, ch.queue, prior.left);
      }
      BytesConcat(prior.out, PackChannel(ch, k, now, rto, prior.left).out);
    }
  }
}
