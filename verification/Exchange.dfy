/** Each call of an endpoint keeps both directions' invariants. */
module Exchange {
  import opened Common
  import opened Sequences
  import opened Acks
  import opened Channels
  import opened Delivery
  import opened Reliability

  lemma GetSet(cs: ChannelSet, k: Kind, ch: Channel, j: Kind)
    requires Shaped(cs)
    ensures Get(Set(cs, k, ch), j) == if j == k then ch else Get(cs, j)
  {
  }

  // ----- send -----

  lemma LogGrows(ch: Channel, k: Kind, log: Log, delivered: seq<Message>, uncapped: bool, p: Payload)
    requires Received(ch, k, log, delivered, uncapped)
    ensures Received(ch, k, log + [p], delivered, uncapped)
  {
    assert forall i :: 0 <= i < |log| ==> (log + [p])[i] == log[i];
  }

  lemma QueuedGrows(ch: Channel, k: Kind, log: Log, p: Payload)
    requires Queued(ch, log) && |log| + 1 < U32
    ensures Queued(SendOn(ch, k, p), log + [p])
    ensures IsReliable(k) ==> SendOn(ch, k, p).unacked.Keys == ch.unacked.Keys + {|log|}
    ensures SameReceiving(ch, SendOn(ch, k, p))
  {
    var more := log + [p];
    assert forall i :: 0 <= i < |log| ==> more[i] == log[i];
    assert more[|log|] == p;
  }

  lemma SentAfter(e: End, k: Kind, p: Payload, j: Kind)
    requires Formed(e)
    ensures Sent(SendStep(e, k, p), j) == if j == k then Sent(e, k) + [p] else Sent(e, j)
    ensures Get(SendStep(e, k, p).channels, j) ==
            if j == k then SendOn(Get(e.channels, k), k, p) else Get(e.channels, j)
  {
    GetSet(e.channels, k, SendOn(Get(e.channels, k), k, p), j);
  }

  lemma SendKeepsSender(s: End, k: Kind, p: Payload)
    requires Sender(s) && |Sent(s, k)| + 1 < U32
    ensures Sender(SendStep(s, k, p))
  {
    hide Queued, Remembers, ReportedOnce, Send, SendOn, Get, Sent;
    var after := SendStep(s, k, p);
    forall j: Kind
      ensures Queued(Get(after.channels, j), Sent(after, j))
    {
      SentAfter(s, k, p, j);
      if j == k {
        QueuedGrows(Get(s.channels, k), k, Sent(s, k), p);
      }
    }
    forall i, n | 0 <= i < |s.net| && 0 <= n < |s.net[i].messages|
      ensures FromLog(s.net[i].messages[n], after)
    {
      var m := s.net[i].messages[n];
      assert FromLog(m, s);
      SentAfter(s, k, p, m.channel);
    }
    SendFrame(s.channels, k, p);
  }

  lemma SendFrame(cs: ChannelSet, k: Kind, p: Payload)
    requires Shaped(cs)
    ensures Send(cs, k, p).inPacket == cs.inPacket && Send(cs, k, p).maxBuffered == cs.maxBuffered
  {
  }

  lemma SendKeepsFlow(s: End, r: End, k: Kind, p: Payload, uncapped: bool)
    requires Flow(s, r, uncapped) && |Sent(s, k)| + 1 < U32
    ensures Flow(SendStep(s, k, p), r, uncapped)
  {
    hide Send, SendOn, Get, Sent, Received, Sender, TakenIn, Conserved;
    SenderFormed(s);
    SendKeepsSender(s, k, p);
    forall j: Kind
      ensures Received(Get(r.channels, j), j, Sent(SendStep(s, k, p), j), Output(r, j), uncapped)
    {
      SentAfter(s, k, p, j);
      if j == k {
        LogGrows(Get(r.channels, j), j, Sent(s, j), Output(r, j), uncapped, p);
      }
    }
    if uncapped {
      SendKeepsConserved(s, r, k, p);
    }
  }

  lemma SendKeepsConserved(s: End, r: End, k: Kind, p: Payload)
    requires Sender(s) && Formed(r) && Conserved(s, r) && |Sent(s, k)| + 1 < U32
    ensures Conserved(SendStep(s, k, p), r)
  {
    hide Send, SendOn, Get, Sent, Sender, Held, Queued;
    SenderFormed(s);
    var after := SendStep(s, k, p);
    SenderQueued(s, k);
    QueuedGrows(Get(s.channels, k), k, Sent(s, k), p);
    forall j: Kind, id: Id | IsReliable(j) && id < |Sent(after, j)|
      ensures id in Get(after.channels, j).unacked || Held(Get(r.channels, j), j, id)
    {
      SentAfter(s, k, p, j);
    }
  }

  lemma SenderFormed(s: End)
    requires Sender(s)
    ensures Formed(s)
  {
  }

  lemma SenderQueued(s: End, k: Kind)
    requires Sender(s)
    ensures Queued(Get(s.channels, k), Sent(s, k))
  {
  }

  lemma SendIsReceiverFrame(e: End, k: Kind, p: Payload)
    requires Formed(e)
    ensures SameReceiver(e, SendStep(e, k, p))
  {
    forall j: Kind
      ensures SameReceiving(Get(e.channels, j), Get(SendStep(e, k, p).channels, j))
    {
      SentAfter(e, k, p, j);
    }
  }

  // ----- transmit -----

  /** What packing one channel leaves behind: the same ids, payloads and receiving half. */
  ghost predicate Repacked(a: Channel, b: Channel, log: Log) {
    && SameReceiving(a, b)
    && a.unacked.Keys == b.unacked.Keys
    && Queued(b, log)
  }

  lemma PackKeeps(ch: Channel, k: Kind, log: Log, now: Time, rto: Time, budget: nat)
    requires Queued(ch, log)
    ensures var p := PackChannel(ch, k, now, rto, budget);
            Repacked(ch, p.channel, log) && AllGenuine(p.out, k, log)
  {
    hide CollectReliable, CollectQueue;
    if IsReliable(k) {
      CollectKeeps(k, ch.unacked, ch.unacked.Keys, now, rto, budget);
    } else {
      QueueKeeps(k, ch.queue, budget);
      var out := CollectQueue(k, ch.queue, budget).0;
      forall i | 0 <= i < |out|
        ensures Genuine(out[i], k, log)
      {
        assert out[i] in out;
        assert (out[i].id, out[i].payload) in ch.queue;
      }
    }
  }

  ghost predicate RepackedAll(a: ChannelSet, b: ChannelSet, log: seq<Log>)
    requires Shaped(a) && Shaped(b) && |log| == 4
  {
    forall k: Kind :: Repacked(Get(a, k), Get(b, k), log[Index(k)])
  }

  ghost predicate GenuineAll(out: seq<Message>, log: seq<Log>)
    requires |log| == 4
  {
    forall i :: 0 <= i < |out| ==> Genuine(out[i], out[i].channel, log[Index(out[i].channel)])
  }

  lemma {:induction false} PackFromKeeps(cs: ChannelSet, log: seq<Log>, n: nat, now: Time, rto: Time, budget: nat)
    requires Shaped(cs) && |log| == 4 && n <= 4
    requires forall k: Kind :: Queued(Get(cs, k), log[Index(k)])
    ensures var p := PackFrom(cs, n, now, rto, budget);
            RepackedAll(cs, p.cs, log) && GenuineAll(p.out, log)
  {
    hide PackChannel, Queued, SameReceiving, Get, Set, Genuine, Index;
    var p := PackFrom(cs, n, now, rto, budget);
    if n == 0 {
      forall k: Kind
        ensures Repacked(Get(cs, k), Get(p.cs, k), log[Index(k)])
      {
        SameReceivingSelf(Get(cs, k));
      }
    } else {
      PackFromKeeps(cs, log, n - 1, now, rto, budget);
      var prior := PackFrom(cs, n - 1, now, rto, budget);
      var k := ORDER[n - 1];
      var packed := PackChannel(Get(prior.cs, k), k, now, rto, prior.left);
      PackKeeps(Get(prior.cs, k), k, log[Index(k)], now, rto, prior.left);
      forall j: Kind
        ensures Repacked(Get(cs, j), Get(p.cs, j), log[Index(j)])
      {
        GetSet(prior.cs, k, packed.channel, j);
        if j == k {
          SameReceivingChain(Get(cs, k), Get(prior.cs, k), packed.channel);
        }
      }
      forall i | 0 <= i < |p.out|
        ensures Genuine(p.out[i], p.out[i].channel, log[Index(p.out[i].channel)])
      {
        if i >= |prior.out| {
          assert p.out[i] == packed.out[i - |prior.out|];
          GenuineChannel(p.out[i], k, log[Index(k)]);
        }
      }
    }
  }

  lemma SameReceivingSelf(a: Channel)
    ensures SameReceiving(a, a)
  {
  }

  lemma SameReceivingChain(a: Channel, b: Channel, c: Channel)
    requires SameReceiving(a, b) && SameReceiving(b, c)
    ensures SameReceiving(a, c)
  {
  }

  lemma GenuineChannel(m: Message, k: Kind, log: Log)
    requires Genuine(m, k, log)
    ensures m.channel == k
  {
  }

  lemma {:induction false} RecordedCarried(out: seq<Message>, p: Packet)
    requires |out| <= |p.messages| && out == p.messages[..|out|]
    ensures forall i :: 0 <= i < |Recorded(out)| ==> Carries(p, Recorded(out)[i].0, Recorded(out)[i].1)
  {
    if out != [] {
      var last := |out| - 1;
      RecordedCarried(out[..last], p);
      var m := out[last];
      assert p.messages[last] == m;
      if IsReliable(m.channel) {
        assert Carries(p, m.channel, m.id);
      }
    }
  }

  lemma PacketizeFacts(cs: ChannelSet, log: seq<Log>, q: Seq, now: Time, rto: Time, budget: nat)
    requires Shaped(cs) && |log| == 4
    requires forall k: Kind :: Queued(Get(cs, k), log[Index(k)])
    ensures var (after, out) := Packetize(cs, q, now, rto, budget);
            && Shaped(after) && after.maxBuffered == cs.maxBuffered
            && RepackedAll(cs, after, log) && GenuineAll(out, log)
            && after.inPacket == (if Recorded(out) == [] then cs.inPacket else cs.inPacket[q := Recorded(out)])
  {
    hide PackFrom, Repacked, Queued, Recorded;
    PackFromKeeps(cs, log, 4, now, rto, budget);
    var p := PackFrom(cs, 4, now, rto, budget);
    var after := Packetize(cs, q, now, rto, budget).0;
    assert after.channels == p.cs.channels;
    forall k: Kind
      ensures Repacked(Get(cs, k), Get(after, k), log[Index(k)])
    {
      assert Get(after, k) == Get(p.cs, k);
    }
  }

  lemma TransmitKeepsSender(s: End, now: Time, rto: Time, budget: nat)
    requires Sender(s) && |s.net| < U16
    ensures Sender(TransmitStep(s, now, rto, budget))
    ensures RepackedAll(s.channels, TransmitStep(s, now, rto, budget).channels, s.log)
  {
    hide Packetize, Queued, Remembers, ReportedOnce, Carries, Genuine, BeginSend;
    var q := s.tracker.nextSequence;
    assert q == |s.net| by { SenderNext(s); }
    var packed := Packetize(s.channels, q, now, rto, budget);
    var after := TransmitStep(s, now, rto, budget);
    forall k: Kind
      ensures Queued(Get(s.channels, k), s.log[Index(k)])
    {
      SenderQueued(s, k);
    }
    PacketizeFacts(s.channels, s.log, q, now, rto, budget);
    BeginSendKeeps(s.tracker, |s.net|, Elements(s.reported), now);
    forall k: Kind
      ensures Queued(Get(after.channels, k), Sent(after, k))
    {
      assert Repacked(Get(s.channels, k), Get(after.channels, k), s.log[Index(k)]);
    }
    assert Remembers(after.channels.inPacket, after.net) by {
      TransmitRemembers(s.channels.inPacket, s.net, q, after.net[|s.net|]);
    }
    assert forall i :: 0 <= i < |s.net| ==> after.net[i] == s.net[i];
  }

  lemma SenderNext(s: End)
    requires Sender(s) && |s.net| < U16
    ensures s.tracker.nextSequence == |s.net|
  {
  }

  lemma TransmitRemembers(inPacket: map<Seq, seq<(Kind, Id)>>, net: seq<Packet>, q: Seq, p: Packet)
    requires Remembers(inPacket, net) && q == |net|
    ensures Remembers(if Recorded(p.messages) == [] then inPacket else inPacket[q := Recorded(p.messages)], net + [p])
  {
    hide Carries, Recorded;
    assert p.messages[..|p.messages|] == p.messages;
    RecordedCarried(p.messages, p);
    assert forall i :: 0 <= i < |net| ==> (net + [p])[i] == net[i];
    assert (net + [p])[q] == p;
  }

  lemma TransmitKeepsFlow(s: End, r: End, now: Time, rto: Time, budget: nat, uncapped: bool)
    requires Flow(s, r, uncapped) && |s.net| < U16
    ensures Flow(TransmitStep(s, now, rto, budget), r, uncapped)
  {
    hide Packetize, Queued, BeginSend, Sender, Received, HeaderTrue, Held, Carries;
    SenderFormed(s);
    TransmitKeepsSender(s, now, rto, budget);
    var after := TransmitStep(s, now, rto, budget);
    forall k: Kind
      ensures Sent(after, k) == Sent(s, k)
      ensures Get(after.channels, k).unacked.Keys == Get(s.channels, k).unacked.Keys
    {
      assert Repacked(Get(s.channels, k), Get(after.channels, k), s.log[Index(k)]);
    }
    assert uncapped ==> TakenIn(after.net, r) by {
      assert forall q: Seq :: q in r.got ==> after.net[q] == s.net[q];
    }
  }

  lemma TransmitKeepsReceiver(s: End, r: End, now: Time, rto: Time, budget: nat, uncapped: bool)
    requires Flow(s, r, uncapped) && Sender(r) && |r.net| < U16
    ensures Flow(s, TransmitStep(r, now, rto, budget), uncapped)
  {
    hide Packetize, Queued, Sender, Held, Carries;
    SenderFormed(s);
    SenderFormed(r);
    TransmitKeepsSender(r, now, rto, budget);
    var after := TransmitStep(r, now, rto, budget);
    forall k: Kind
      ensures SameReceiving(Get(r.channels, k), Get(after.channels, k))
    {
      assert Repacked(Get(r.channels, k), Get(after.channels, k), r.log[Index(k)]);
    }
    forall k: Kind
      ensures Received(Get(after.channels, k), k, Sent(s, k), Output(after, k), uncapped)
      ensures forall id: Id :: Held(Get(after.channels, k), k, id) <==> Held(Get(r.channels, k), k, id)
    {
      SameReceivingHolds(Get(r.channels, k), Get(after.channels, k), k, Sent(s, k), Output(r, k), uncapped);
    }
    forall i: nat | i < |after.net|
      ensures HeaderTrue(after.net[i], after.got)
    {
      if i == |r.net| {
        NewHeaderTrue(r);
      } else {
        assert after.net[i] == r.net[i];
      }
    }
  }

  lemma SameReceivingHolds(a: Channel, b: Channel, k: Kind, log: Log, delivered: seq<Message>, uncapped: bool)
    requires SameReceiving(a, b) && Received(a, k, log, delivered, uncapped)
    ensures Received(b, k, log, delivered, uncapped)
    ensures forall id: Id :: Held(a, k, id) <==> Held(b, k, id)
  {
  }

  lemma NewHeaderTrue(r: End)
    requires Formed(r) && ReceivedOnly(r.tracker, r.got)
    ensures HeaderOf(r.tracker).Some? ==>
              forall q: Seq :: Marks(HeaderOf(r.tracker).value, q) ==> q in r.got
  {
    forall q: Seq | HeaderOf(r.tracker).Some? && Marks(HeaderOf(r.tracker).value, q)
      ensures q in r.got
    {
      HeaderSound(r.tracker, r.got, q);
    }
  }

  // ----- deliver: the messages -----

  /** The cap refuses none of the first `n` messages. */
  ghost predicate Uncapped(e: End, ms: seq<Message>, n: nat)
    requires Formed(e) && n <= |ms|
  {
    n > 0 ==>
      && Uncapped(e, ms, n - 1)
      && var prior := Take(e, ms, n - 1);
         Accepts(Get(prior.channels, ms[n - 1].channel), prior.channels.maxBuffered, ms[n - 1])
  }

  lemma ReceiveKeeps(ch: Channel, log: Log, delivered: seq<Message>, maxBuffered: nat, m: Message, uncapped: bool)
    requires |log| < U32
    requires Received(ch, m.channel, log, delivered, uncapped) && Genuine(m, m.channel, log)
    requires uncapped ==> Accepts(ch, maxBuffered, m)
    ensures var (after, out) := ReceiveOn(ch, maxBuffered, m);
            && Received(after, m.channel, log, delivered + out, uncapped)
            && SameSending(ch, after)
            && (uncapped ==> forall id: Id :: Held(ch, m.channel, id) ==> Held(after, m.channel, id))
            && (uncapped && IsReliable(m.channel) ==> Held(after, m.channel, m.id))
  {
    hide Ordered, Unordered, Ascending, Genuine, Absorb, Release;
    assert delivered + [] == delivered;
    match m.channel
    case Unreliable => assert Genuine(m, m.channel, log);
    case UnreliableSequenced =>
      if |log| <= SEQUENCED_SPAN {
        SequencedReceive(ch, log, delivered, maxBuffered, m);
      }
    case ReliableOrdered =>
      OrderedReceive(ch, log, delivered, maxBuffered, m);
      OrderedGenuine(ReceiveOn(ch, maxBuffered, m).0, log, delivered + ReceiveOn(ch, maxBuffered, m).1);
    case ReliableUnordered =>
      if uncapped {
        UnorderedReceive(ch, log, delivered, maxBuffered, m);
      } else {
        UnorderedFrame(ch, maxBuffered, m);
      }
  }

  lemma OrderedGenuine(ch: Channel, log: Log, delivered: seq<Message>)
    requires Ordered(ch, log, delivered)
    ensures AllGenuine(delivered, ReliableOrdered, log)
  {
  }

  lemma UnorderedFrame(ch: Channel, maxBuffered: nat, m: Message)
    requires m.channel.ReliableUnordered?
    ensures SameSending(ch, ReceiveOn(ch, maxBuffered, m).0)
    ensures ReceiveOn(ch, maxBuffered, m).1 == [] || ReceiveOn(ch, maxBuffered, m).1 == [m]
  {
    AbsorbFrame(ch.(nextExpect := ch.nextExpect + 1));
  }

  lemma {:induction false} AbsorbFrame(ch: Channel)
    ensures SameSending(ch, Absorb(ch))
    decreases |ch.seenAbove|
  {
    if ch.nextExpect < U32 && ch.nextExpect in ch.seenAbove {
      AbsorbFrame(ch.(seenAbove := ch.seenAbove - {ch.nextExpect}, nextExpect := ch.nextExpect + 1));
    }
  }

  /** What taking messages keeps of an end's receiving half, and what it leaves alone. */
  ghost predicate TakesFrom(s: End, r: End, after: End, uncapped: bool)
    requires Formed(s) && Formed(r) && Formed(after)
  {
    && after.tracker == r.tracker && after.net == r.net && after.log == r.log
    && after.got == r.got && after.reported == r.reported
    && after.channels.inPacket == r.channels.inPacket && after.channels.maxBuffered == r.channels.maxBuffered
    && forall k: Kind ::
         && Received(Get(after.channels, k), k, Sent(s, k), Output(after, k), uncapped)
         && SameSending(Get(r.channels, k), Get(after.channels, k))
         && (uncapped ==> forall id: Id :: Held(Get(r.channels, k), k, id) ==> Held(Get(after.channels, k), k, id))
  }

  lemma TakeOne(s: End, e: End, m: Message, uncapped: bool)
    requires Sender(s) && Formed(e) && FromLog(m, s)
    requires Received(Get(e.channels, m.channel), m.channel, Sent(s, m.channel), Output(e, m.channel), uncapped)
    requires forall k: Kind :: Received(Get(e.channels, k), k, Sent(s, k), Output(e, k), uncapped)
    requires uncapped ==> Accepts(Get(e.channels, m.channel), e.channels.maxBuffered, m)
    ensures TakesFrom(s, e, Take(e, [m], 1), uncapped)
    ensures uncapped && IsReliable(m.channel) ==> Held(Get(Take(e, [m], 1).channels, m.channel), m.channel, m.id)
  {
    hide Received, ReceiveOn, Held, Accepts, Queued, Sender, SameSending;
    SenderFormed(s);
    var ch, k := Get(e.channels, m.channel), m.channel;
    assert |Sent(s, k)| < U32 by { SenderLog(s, k); }
    var r := ReceiveOn(ch, e.channels.maxBuffered, m);
    ReceiveKeeps(ch, Sent(s, k), Output(e, k), e.channels.maxBuffered, m, uncapped);
    assert Take(e, [m], 0) == e;
    var after := Take(e, [m], 1);
    forall j: Kind
      ensures Get(after.channels, j) == if j == k then r.0 else Get(e.channels, j)
      ensures Output(after, j) == if j == k then Output(e, k) + r.1 else Output(e, j)
      ensures SameSending(Get(e.channels, j), Get(after.channels, j))
    {
      GetSet(e.channels, k, r.0, j);
      SameSendingSelf(Get(e.channels, j));
    }
  }

  lemma SenderLog(s: End, k: Kind)
    requires Sender(s)
    ensures |Sent(s, k)| < U32
  {
    SenderQueued(s, k);
  }

  lemma SameSendingSelf(a: Channel)
    ensures SameSending(a, a)
  {
  }

  /** The first `n` messages that are reliable are held. */
  ghost predicate HoldsFirst(r: End, ms: seq<Message>, n: nat)
    requires Formed(r) && n <= |ms|
  {
    forall i :: 0 <= i < n && IsReliable(ms[i].channel) ==>
      Held(Get(r.channels, ms[i].channel), ms[i].channel, ms[i].id)
  }

  lemma {:induction false} TakeKeeps(s: End, r: End, ms: seq<Message>, n: nat, uncapped: bool)
    requires Sender(s) && Formed(r) && n <= |ms|
    requires forall k: Kind :: Received(Get(r.channels, k), k, Sent(s, k), Output(r, k), uncapped)
    requires forall i :: 0 <= i < n ==> FromLog(ms[i], s)
    requires uncapped ==> Uncapped(r, ms, n)
    ensures TakesFrom(s, r, Take(r, ms, n), uncapped)
    ensures uncapped ==> HoldsFirst(Take(r, ms, n), ms, n)
  {
    hide Received, Held, Accepts, Sender, SameSending, FromLog, TakesFrom, HoldsFirst, Get, Output, Sent, Take, Uncapped;
    SenderFormed(s);
    if n == 0 {
      assert Take(r, ms, 0) == r by { TakeZero(r, ms); }
      TakesNothing(s, r, ms, uncapped);
    } else {
      TakeStep(r, ms, n);
      TakeKeeps(s, r, ms, n - 1, uncapped);
      var prior, m := Take(r, ms, n - 1), ms[n - 1];
      TakesReceived(s, r, prior, uncapped);
      TakeOne(s, prior, m, uncapped);
      TakesChain(s, r, prior, Take(r, ms, n), uncapped);
      if uncapped {
        HoldsOneMore(s, prior, Take(r, ms, n), ms, n);
      }
    }
  }

  lemma TakeZero(r: End, ms: seq<Message>)
    requires Formed(r)
    ensures Take(r, ms, 0) == r
  {
  }

  lemma TakesNothing(s: End, r: End, ms: seq<Message>, uncapped: bool)
    requires Formed(s) && Formed(r)
    requires forall k: Kind :: Received(Get(r.channels, k), k, Sent(s, k), Output(r, k), uncapped)
    ensures TakesFrom(s, r, r, uncapped) && HoldsFirst(r, ms, 0)
  {
    hide Received, Held, SameSending;
    forall k: Kind
      ensures SameSending(Get(r.channels, k), Get(r.channels, k))
    {
      SameSendingSelf(Get(r.channels, k));
    }
  }

  lemma TakesReceived(s: End, r: End, after: End, uncapped: bool)
    requires Formed(s) && Formed(r) && Formed(after) && TakesFrom(s, r, after, uncapped)
    ensures forall k: Kind :: Received(Get(after.channels, k), k, Sent(s, k), Output(after, k), uncapped)
  {
  }

  lemma TakesChain(s: End, a: End, b: End, c: End, uncapped: bool)
    requires Formed(s) && Formed(a) && Formed(b) && Formed(c)
    requires TakesFrom(s, a, b, uncapped) && TakesFrom(s, b, c, uncapped)
    ensures TakesFrom(s, a, c, uncapped)
  {
    hide Received, Held, Get;
  }

  lemma HoldsOneMore(s: End, prior: End, after: End, ms: seq<Message>, n: nat)
    requires Formed(s) && Formed(prior) && Formed(after) && 0 < n <= |ms|
    requires TakesFrom(s, prior, after, true) && HoldsFirst(prior, ms, n - 1)
    requires IsReliable(ms[n - 1].channel) ==>
               Held(Get(after.channels, ms[n - 1].channel), ms[n - 1].channel, ms[n - 1].id)
    ensures HoldsFirst(after, ms, n)
  {
    hide Received, Held, Get, SameSending;
  }

  lemma TakeStep(r: End, ms: seq<Message>, n: nat)
    requires Formed(r) && 0 < n <= |ms|
    ensures var prior := Take(r, ms, n - 1);
            && Take(r, ms, n) == Take(prior, [ms[n - 1]], 1)
            && (Uncapped(r, ms, n) ==>
                  && Uncapped(r, ms, n - 1)
                  && Accepts(Get(prior.channels, ms[n - 1].channel), prior.channels.maxBuffered, ms[n - 1]))
  {
    var prior := Take(r, ms, n - 1);
    assert Take(prior, [ms[n - 1]], 0) == prior;
  }

  lemma SameSendingChain(a: Channel, b: Channel, c: Channel)
    requires SameSending(a, b) && SameSending(b, c)
    ensures SameSending(a, c)
  {
  }

  lemma TakeKeepsFlow(s: End, r: End, ms: seq<Message>, uncapped: bool)
    requires Flow(s, r, uncapped) && (forall i :: 0 <= i < |ms| ==> FromLog(ms[i], s))
    requires uncapped ==> Uncapped(r, ms, |ms|)
    ensures Flow(s, Take(r, ms, |ms|), uncapped)
    ensures uncapped ==> HoldsFirst(Take(r, ms, |ms|), ms, |ms|)
  {
    hide Received, Held, Sender, SameSending, FromLog, HeaderTrue, Carries, HoldsFirst;
    SenderFormed(s);
    TakeKeeps(s, r, ms, |ms|, uncapped);
  }

  lemma TakeIsSenderFrame(peer: End, e: End, ms: seq<Message>, uncapped: bool)
    requires Sender(peer) && Formed(e)
    requires forall k: Kind :: Received(Get(e.channels, k), k, Sent(peer, k), Output(e, k), uncapped)
    requires forall i :: 0 <= i < |ms| ==> FromLog(ms[i], peer)
    requires uncapped ==> Uncapped(e, ms, |ms|)
    ensures SameSender(e, Take(e, ms, |ms|))
  {
    hide Received, Held, Sender, SameSending, FromLog;
    SenderFormed(peer);
    TakeKeeps(peer, e, ms, |ms|, uncapped);
  }

  // ----- deliver: the packet number -----

  lemma HearKeepsFlow(s: End, r: End, number: Seq, uncapped: bool)
    requires Flow(s, r, uncapped) && number < |s.net|
    requires uncapped ==> forall k: Kind, id: Id :: Carries(s.net[number], k, id) ==> Held(Get(r.channels, k), k, id)
    ensures Flow(s, Hear(r, number), uncapped)
  {
    hide Received, Held, Sender, HeaderTrue, Carries, ReceivedOnly, Receive;
    SenderFormed(s);
    var after := Hear(r, number);
    ReceiveSound(r.tracker, r.got, number);
    forall i: nat | i < |after.net|
      ensures HeaderTrue(after.net[i], after.got)
    {
      HeaderTrueGrows(r.net[i], r.got, after.got);
    }
    assert forall k: Kind :: Get(after.channels, k) == Get(r.channels, k) && Output(after, k) == Output(r, k);
  }

  lemma HeaderTrueGrows(p: Packet, got: set<Seq>, more: set<Seq>)
    requires HeaderTrue(p, got) && got <= more
    ensures HeaderTrue(p, more)
  {
  }

  lemma HearIsSenderFrame(e: End, number: Seq)
    requires Formed(e)
    ensures SameSender(e, Hear(e, number))
  {
  }

  // ----- deliver: the acknowledgements -----

  /** What retiring keeps: payloads and queues, and every id that is not listed in a
      retired packet. */
  ghost predicate Retired(a: ChannelSet, b: ChannelSet)
    requires Shaped(a) && Shaped(b)
  {
    && a.maxBuffered == b.maxBuffered
    && forall k: Kind ::
         && SameReceiving(Get(a, k), Get(b, k))
         && Get(b, k).nextSend == Get(a, k).nextSend && Get(b, k).queue == Get(a, k).queue
         && (forall id: Id :: id in Get(b, k).unacked ==>
               id in Get(a, k).unacked && Get(b, k).unacked[id] == Get(a, k).unacked[id])
  }

  ghost predicate Lists(entries: seq<(Kind, Id)>, k: Kind, id: Id) {
    exists i :: 0 <= i < |entries| && entries[i] == (k, id)
  }

  lemma {:induction false} RetireFromKeeps(cs: ChannelSet, entries: seq<(Kind, Id)>)
    requires Shaped(cs)
    ensures Retired(cs, RetireFrom(cs, entries))
    ensures forall k: Kind, id: Id :: id in Get(cs, k).unacked && !Lists(entries, k, id) ==>
              id in Get(RetireFrom(cs, entries), k).unacked
  {
    hide Set, Get;
    if entries != [] {
      var last := |entries| - 1;
      RetireFromKeeps(cs, entries[..last]);
      var prior := RetireFrom(cs, entries[..last]);
      var (k, id) := entries[last];
      var ch := Get(prior, k).(unacked := Get(prior, k).unacked - {id});
      forall j: Kind
        ensures Get(RetireFrom(cs, entries), j) == if j == k then ch else Get(prior, j)
      {
        GetSet(prior, k, ch, j);
      }
      forall j: Kind, x: Id | x in Get(cs, j).unacked && !Lists(entries, j, x)
        ensures x in Get(RetireFrom(cs, entries), j).unacked
      {
        assert entries[last] != (j, x);
        assert !Lists(entries[..last], j, x);
      }
    }
  }

  lemma RetiredChain(a: ChannelSet, b: ChannelSet, c: ChannelSet)
    requires Shaped(a) && Shaped(b) && Shaped(c) && Retired(a, b) && Retired(b, c)
    ensures Retired(a, c)
  {
  }

  /** Retiring one acknowledged packet. */
  lemma AckedKeeps(cs: ChannelSet, q: Seq)
    requires Shaped(cs)
    ensures var after := OnPacketAcked(cs, q);
            && Retired(cs, after)
            && after.inPacket == cs.inPacket - {q}
            && (forall k: Kind, id: Id :: id in Get(cs, k).unacked && id !in Get(after, k).unacked ==>
                  q in cs.inPacket && Lists(cs.inPacket[q], k, id))
  {
    hide RetireFrom;
    if q in cs.inPacket {
      var forgot := cs.(inPacket := cs.inPacket - {q});
      RetireFromKeeps(forgot, cs.inPacket[q]);
      forall k: Kind
        ensures Get(forgot, k) == Get(cs, k)
      {
      }
    } else {
      assert cs.inPacket - {q} == cs.inPacket;
    }
  }

  lemma {:induction false} RetireSame(a: ChannelSet, b: ChannelSet, entries: seq<(Kind, Id)>)
    requires Shaped(a) && a.channels == b.channels
    ensures RetireFrom(a, entries).channels == RetireFrom(b, entries).channels
  {
    if entries != [] {
      RetireSame(a, b, entries[..|entries| - 1]);
    }
  }

  /** A packet given up for lost retires nothing if it is acknowledged after all, while every
      other packet retires exactly what it would have. */
  lemma GivenUpForgets(cs: ChannelSet, q: Seq, other: Seq)
    requires Shaped(cs) && other != q
    ensures var lost := OnPacketLost(cs, q);
            && lost.channels == cs.channels
            && OnPacketAcked(lost, q) == lost
            && OnPacketAcked(lost, other).channels == OnPacketAcked(cs, other).channels
  {
    if other in cs.inPacket {
      var lost := OnPacketLost(cs, q);
      RetireSame(cs.(inPacket := cs.inPacket - {other}), lost.(inPacket := lost.inPacket - {other}), cs.inPacket[other]);
    }
  }

  /** Only packets in the list retire anything, and only what they carry. */
  lemma {:induction false} RetireAllKeeps(cs: ChannelSet, acked: seq<Seq>, net: seq<Packet>)
    requires Shaped(cs) && Remembers(cs.inPacket, net)
    ensures var after := RetireAll(cs, acked);
            && Retired(cs, after)
            && Remembers(after.inPacket, net)
            && (forall k: Kind, id: Id :: id in Get(cs, k).unacked && id !in Get(after, k).unacked ==>
                  exists q: Seq :: q in acked && q < |net| && Carries(net[q], k, id))
  {
    hide OnPacketAcked, Retired, Carries, Get, Lists;
    if acked == [] {
      RetiredSelf(cs);
    } else {
      var before, q := acked[..|acked| - 1], acked[|acked| - 1];
      RetireAllKeeps(cs, before, net);
      var prior := RetireAll(cs, before);
      var after := RetireAll(cs, acked);
      AckedKeeps(prior, q);
      RetiredChain(cs, prior, after);
      forall k: Kind, id: Id | id in Get(cs, k).unacked && id !in Get(after, k).unacked
        ensures exists x: Seq :: x in acked && x < |net| && Carries(net[x], k, id)
      {
        if id in Get(prior, k).unacked {
          ListedCarried(prior.inPacket, net, q, k, id);
          assert q in acked;
        } else {
          var x: Seq :| x in before && x < |net| && Carries(net[x], k, id);
          assert x in acked;
        }
      }
    }
  }

  lemma RetiredSelf(cs: ChannelSet)
    requires Shaped(cs)
    ensures Retired(cs, cs)
  {
  }

  lemma ListedCarried(inPacket: map<Seq, seq<(Kind, Id)>>, net: seq<Packet>, q: Seq, k: Kind, id: Id)
    requires Remembers(inPacket, net) && q in inPacket && Lists(inPacket[q], k, id)
    ensures q < |net| && Carries(net[q], k, id)
  {
    hide Carries;
  }

  lemma RetiredQueued(a: Channel, b: Channel, log: Log)
    requires Queued(a, log) && b.nextSend == a.nextSend && b.queue == a.queue
    requires forall id: Id :: id in b.unacked ==> id in a.unacked && b.unacked[id] == a.unacked[id]
    ensures Queued(b, log)
  {
  }

  lemma HearAcksIsReceiverFrame(e: End, h: Option<Header>)
    requires Sender(e)
    ensures SameReceiver(e, HearAcks(e, h))
  {
    hide ReportedOnce, Queued, RetireAll, FromLog;
    if h.Some? {
      var t := OnAckHeader(e.tracker, h.value);
      RetireAllKeeps(e.channels, t.newlyAcked, e.net);
      AckHeaderFrame(e.tracker, h.value);
    }
  }

  lemma AckOneFrame(t: Tracker, s: Seq)
    requires Sized(t)
    ensures var r := AckOne(t, s);
            r.received == t.received && r.remoteHighest == t.remoteHighest && r.nextSequence == t.nextSequence
  {
  }

  lemma {:induction false} AckBitsFrame(t: Tracker, h: Header, k: nat)
    requires Sized(t) && k <= ACK_BITS
    ensures var r := AckBitsFrom(t, h, k);
            r.received == t.received && r.remoteHighest == t.remoteHighest && r.nextSequence == t.nextSequence
  {
    hide AckOne;
    if k > 0 {
      AckBitsFrame(t, h, k - 1);
      AckOneFrame(AckBitsFrom(t, h, k - 1), Wire(h.ack - k));
    }
  }

  lemma AckHeaderFrame(t: Tracker, h: Header)
    requires Sized(t)
    ensures var r := OnAckHeader(t, h);
            r.received == t.received && r.remoteHighest == t.remoteHighest && r.nextSequence == t.nextSequence
  {
    AckOneFrame(t, h.ack);
    AckBitsFrame(AckOne(t, h.ack), h, ACK_BITS);
  }

  /** A true header reports only packets the peer received, and what they carried is held. */
  lemma HearAcksKeepsFlow(s: End, r: End, h: Option<Header>, uncapped: bool)
    requires Flow(s, r, uncapped)
    requires h.Some? ==> forall q: Seq :: Marks(h.value, q) ==> q in r.got
    ensures Flow(HearAcks(s, h), r, uncapped)
  {
    hide Received, Held, HeaderTrue, Carries, Queued, FromLog, ReportedOnce, OnAckHeader, RetireAll, Marks, RingGet,
      Remembers, Get, Sent, Elements;
    if h.Some? {
      SenderFormed(s);
      var added := AckHeaderReports(s.tracker, h.value, |s.net|, Elements(s.reported));
      var t := OnAckHeader(s.tracker, h.value);
      assert t.newlyAcked == added;
      RetireAllKeeps(s.channels, added, s.net);
      var after := HearAcks(s, h);
      ReportAppends(s.reported, added);
      DrainedReports(t, |s.net|, Elements(after.reported));
      AckedSender(s, after, added);
      if uncapped {
        AckedConserved(s, r, after, added);
      }
    }
  }

  lemma DrainedReports(t: Tracker, count: nat, reported: set<Seq>)
    requires Sized(t) && ReportedOnce(t, count, reported)
    ensures ReportedOnce(t.(newlyAcked := []), count, reported)
  {
  }

  lemma ReportAppends(reported: seq<Seq>, added: seq<Seq>)
    requires Distinct(reported) && Distinct(added) && forall q: Seq :: q in added ==> q !in Elements(reported)
    ensures Elements(reported + added) == Elements(reported) + Elements(added)
    ensures Distinct(reported + added)
  {
    var all := reported + added;
    forall i, j | 0 <= i < j < |all|
      ensures all[i] != all[j]
    {
      if i < |reported| <= j {
        assert all[i] in reported && all[j] in added;
      }
    }
  }

  lemma AckedSender(s: End, after: End, added: seq<Seq>)
    requires Sender(s) && Formed(after)
    requires after.net == s.net && after.log == s.log
    requires after.channels == RetireAll(s.channels, added)
    requires ReportedOnce(after.tracker, |s.net|, Elements(after.reported)) && Distinct(after.reported)
    ensures Sender(after)
    ensures forall k: Kind :: Sent(after, k) == Sent(s, k)
  {
    hide RetireAll, ReportedOnce, Queued, Carries, Remembers, Genuine, Elements, Distinct;
    RetireAllKeeps(s.channels, added, s.net);
    forall k: Kind
      ensures Queued(Get(after.channels, k), Sent(after, k))
    {
      RetiredQueued(Get(s.channels, k), Get(after.channels, k), Sent(s, k));
    }
    assert forall m :: FromLog(m, s) ==> FromLog(m, after);
  }

  lemma AckedConserved(s: End, r: End, after: End, added: seq<Seq>)
    requires Sender(s) && Formed(r) && Formed(after) && Conserved(s, r) && TakenIn(s.net, r)
    requires after.log == s.log && after.channels == RetireAll(s.channels, added)
    requires forall q: Seq :: q in added ==> q in r.got
    ensures Conserved(after, r)
  {
    hide RetireAll, Held, Carries, Remembers, Queued, ReportedOnce, Get, FromLog;
    RetireAllKeeps(s.channels, added, s.net);
    forall k: Kind, id: Id | IsReliable(k) && id < |Sent(after, k)|
      ensures id in Get(after.channels, k).unacked || Held(Get(r.channels, k), k, id)
    {
      assert id in Get(s.channels, k).unacked || Held(Get(r.channels, k), k, id);
    }
  }

  // ----- giving a packet up for lost -----

  lemma GiveUpKeepsFlow(s: End, r: End, q: Seq, uncapped: bool)
    requires Flow(s, r, uncapped)
    ensures Flow(GiveUpStep(s, q), r, uncapped)
  {
    hide Received, Held, HeaderTrue, Carries, Queued, ReportedOnce;
    var after := GiveUpStep(s, q);
    assert forall k: Kind :: Get(after.channels, k) == Get(s.channels, k);
    assert forall m :: FromLog(m, s) ==> FromLog(m, after);
  }

  lemma GiveUpIsReceiverFrame(e: End, q: Seq)
    requires Formed(e)
    ensures SameReceiver(e, GiveUpStep(e, q))
  {
    assert forall k: Kind :: Get(GiveUpStep(e, q).channels, k) == Get(e.channels, k);
  }
}
