/** When an acknowledgement loses a message, exactly: in one delivery, and over a whole run. */
module CapExactness {
  import opened Common
  import opened Sequences
  import opened Acks
  import opened Channels
  import opened Delivery
  import opened Reliability
  import opened Exchange
  import opened ReliableRuns
  import opened Conservation
  import opened CapLoss

  // ----- what a list of acknowledged packets retires -----

  ghost predicate ListedIn(inPacket: map<Seq, seq<(Kind, Id)>>, acked: seq<Seq>, k: Kind, id: Id) {
    exists q: Seq :: q in acked && q in inPacket && Lists(inPacket[q], k, id)
  }

  lemma {:induction false} InPacketShrinks(cs: ChannelSet, acked: seq<Seq>, q: Seq)
    requires Shaped(cs) && q in RetireAll(cs, acked).inPacket
    ensures q in cs.inPacket && RetireAll(cs, acked).inPacket[q] == cs.inPacket[q]
  {
    hide OnPacketAcked, Get;
    if acked != [] {
      var prior := RetireAll(cs, acked[..|acked| - 1]);
      AckedKeeps(prior, acked[|acked| - 1]);
      InPacketShrinks(cs, acked[..|acked| - 1], q);
    }
  }

  lemma {:induction false} RetiredWasListed(cs: ChannelSet, acked: seq<Seq>, k: Kind, id: Id)
    requires Shaped(cs) && id in Get(cs, k).unacked && id !in Get(RetireAll(cs, acked), k).unacked
    ensures ListedIn(cs.inPacket, acked, k, id)
  {
    hide OnPacketAcked, Retired, Get, Lists;
    if acked != [] {
      var before, q := acked[..|acked| - 1], acked[|acked| - 1];
      var prior := RetireAll(cs, before);
      AckedKeeps(prior, q);
      if id in Get(prior, k).unacked {
        InPacketShrinks(cs, before, q);
        assert q in acked;
      } else {
        RetiredWasListed(cs, before, k, id);
        var x: Seq :| x in before && x in cs.inPacket && Lists(cs.inPacket[x], k, id);
        assert x in acked;
      }
    }
  }

  /** Exactly what the list's remembered packets carried is retired. */
  lemma RetiresExactly(cs: ChannelSet, acked: seq<Seq>, net: seq<Packet>, k: Kind, id: Id)
    requires Shaped(cs) && Remembers(cs.inPacket, net) && id in Get(cs, k).unacked
    ensures id !in Get(RetireAll(cs, acked), k).unacked <==> ListedIn(cs.inPacket, acked, k, id)
  {
    hide RetireAll, Remembers, Lists, Get;
    if ListedIn(cs.inPacket, acked, k, id) {
      var q: Seq :| q in acked && q in cs.inPacket && Lists(cs.inPacket[q], k, id);
      RetireAllRemoves(cs, acked, net, q, k, id);
    }
    if id !in Get(RetireAll(cs, acked), k).unacked {
      RetiredWasListed(cs, acked, k, id);
    }
  }

  // ----- one acknowledgement -----

  /** The header acknowledges a packet the sender remembers and had not heard of. */
  predicate Newly(s: End, h: Header, q: Seq)
    requires Formed(s)
  {
    Marks(h, q) && RingGet(s.tracker.sent, q).Some? && q !in s.reported && q in s.channels.inPacket
  }

  /** Everything listed for the packets a header newly acknowledges is safe at the receiver. */
  ghost predicate AcksSafe(s: End, r: End, h: Header, k: Kind)
    requires Formed(s) && Formed(r)
  {
    forall q: Seq, id: Id :: Newly(s, h, q) && Lists(s.channels.inPacket[q], k, id) ==> Safe(r, k, id)
  }

  lemma HearAcksExactly(s: End, r: End, h: Header, k: Kind)
    requires Sender(s) && Formed(r) && IsReliable(k) && Kept(s, r, k)
    ensures Kept(HearAcks(s, Some(h)), r, k) <==> AcksSafe(s, r, h, k)
  {
    hide ReportedOnce, Queued, OnAckHeader, RetireAll, Lists, RingGet, Marks, Get, FromLog, Safe, Remembers, Elements;
    var added := AckHeaderReports(s.tracker, h, |s.net|, Elements(s.reported));
    assert added == OnAckHeader(s.tracker, h).newlyAcked;
    var after := HearAcks(s, Some(h));
    ReportedElements(s.reported);
    forall id: Id | id < |Sent(s, k)|
      ensures (id in Get(after.channels, k).unacked || Safe(r, k, id)) <==>
              (ListedIn(s.channels.inPacket, added, k, id) ==> Safe(r, k, id))
    {
      if id in Get(s.channels, k).unacked {
        RetiresExactly(s.channels, added, s.net, k, id);
      } else {
        assert Safe(r, k, id);
      }
    }
    ListedByHeader(s, h, added, k);
    assert Sent(after, k) == Sent(s, k);
    if Kept(after, r, k) {
      forall q: Seq, id: Id | Newly(s, h, q) && Lists(s.channels.inPacket[q], k, id)
        ensures Safe(r, k, id)
      {
        ListedSent(s, q, k, id);
        assert ListedIn(s.channels.inPacket, added, k, id);
      }
    }
    if AcksSafe(s, r, h, k) {
      forall id: Id | id < |Sent(after, k)|
        ensures id in Get(after.channels, k).unacked || Safe(r, k, id)
      {
        if ListedIn(s.channels.inPacket, added, k, id) {
          var q: Seq :| q in added && q in s.channels.inPacket && Lists(s.channels.inPacket[q], k, id);
          assert Newly(s, h, q);
        }
      }
    }
  }

  lemma ReportedElements(reported: seq<Seq>)
    ensures forall q: Seq :: q in Elements(reported) <==> q in reported
  {
  }

  lemma ListedByHeader(s: End, h: Header, added: seq<Seq>, k: Kind)
    requires Formed(s)
    requires forall q: Seq :: q in added <==> Marks(h, q) && RingGet(s.tracker.sent, q).Some? && q !in s.reported
    ensures forall q: Seq :: Newly(s, h, q) <==> q in added && q in s.channels.inPacket
  {
    hide Marks, RingGet;
  }

  // ----- one arrival -----

  lemma KeptSame(s: End, after: End, r: End, k: Kind)
    requires Formed(s) && Formed(r) && Formed(after) && SameSender(s, after)
    ensures Kept(after, r, k) <==> Kept(s, r, k)
    ensures forall h: Header :: AcksSafe(after, r, h, k) <==> AcksSafe(s, r, h, k)
  {
    hide Safe, Marks, Lists, RingGet;
    assert SameSending(Get(s.channels, k), Get(after.channels, k));
    assert Sent(after, k) == Sent(s, k);
    forall h: Header, q: Seq
      ensures Newly(after, h, q) <==> Newly(s, h, q)
    {
    }
    SafeSame(s, after, r, k);
  }

  lemma SafeSame(s: End, after: End, r: End, k: Kind)
    requires Formed(s) && Formed(r) && Formed(after) && after.channels.inPacket == s.channels.inPacket
    requires forall h: Header, q: Seq :: Newly(after, h, q) <==> Newly(s, h, q)
    ensures forall h: Header :: AcksSafe(after, r, h, k) <==> AcksSafe(s, r, h, k)
  {
    hide Safe, Lists;
    forall h: Header
      ensures AcksSafe(after, r, h, k) <==> AcksSafe(s, r, h, k)
    {
      if AcksSafe(s, r, h, k) {
        forall q: Seq, id: Id | Newly(after, h, q) && Lists(after.channels.inPacket[q], k, id)
          ensures Safe(r, k, id)
        {
          assert Newly(s, h, q);
        }
      }
      if AcksSafe(after, r, h, k) {
        forall q: Seq, id: Id | Newly(s, h, q) && Lists(s.channels.inPacket[q], k, id)
          ensures Safe(r, k, id)
        {
          assert Newly(after, h, q);
        }
      }
    }
  }

  /** In every state two ends can be in, a packet's arrival loses none of its receiver's own
      messages on a reliable channel exactly when whatever its header newly acknowledges is
      delivered or buffered at the other end. */
  lemma ArrivalKeepsExactly(s: End, r: End, n: Seq, k: Kind)
    requires Linked(s, r, false) && n < |r.net| && IsReliable(k)
    requires Formed(s) && Formed(r) && Kept(s, r, k)
    ensures Kept(DeliverStep(s, n, r.net[n]), r, k) <==>
            (r.net[n].header.Some? ==> AcksSafe(s, r, r.net[n].header.value, k))
  {
    hide Sender, Receiver, HearAcks, AcksSafe, Kept, Take, Hear, SameSender, FromLog, Marks;
    var p := r.net[n];
    ArrivalTrue(s, r, n, false);
    FlowReceived(r, s, false);
    var took := Take(s, p.messages, |p.messages|);
    TakeIsSenderFrame(r, s, p.messages, false);
    SenderFrame(s, took, r, false);
    KeptSame(s, took, r, k);
    var heard := Hear(took, n);
    HearIsSenderFrame(took, n);
    SenderFrame(took, heard, r, false);
    KeptSame(took, heard, r, k);
    if p.header.Some? {
      HearAcksExactly(heard, r, p.header.value, k);
    } else {
      NoHeader(heard);
    }
  }

  // ----- what is safe stays safe -----

  ghost predicate SafeGrows(r: End, after: End, k: Kind)
    requires Formed(r) && Formed(after)
  {
    forall id: Id :: Safe(r, k, id) ==> Safe(after, k, id)
  }

  lemma TakeOneGrows(s: End, e: End, m: Message, k: Kind)
    requires Sender(s) && Formed(e) && FromLog(m, s) && IsReliable(k)
    requires Received(Get(e.channels, RO), RO, Sent(s, RO), Output(e, RO), false)
    ensures SafeGrows(e, Take(e, [m], 1), k)
  {
    hide ReceiveOn, Held, Delivered, Take, Sender, Ordered;
    TakeOneIs(e, m);
    var (next, out) := ReceiveOn(Get(e.channels, m.channel), e.channels.maxBuffered, m);
    SenderFormed(s);
    SenderLog(s, RO);
    if m.channel == RO && k == RO {
      OrderedReceive(Get(e.channels, RO), Sent(s, RO), Output(e, RO), e.channels.maxBuffered, m);
    }
    forall id: Id
      ensures Safe(e, k, id) ==> Safe(Take(e, [m], 1), k, id)
    {
      DeliveredMore(Output(e, RU), out, id);
    }
  }

  lemma {:induction false} TakeGrows(s: End, e: End, ms: seq<Message>, n: nat, k: Kind)
    requires Sender(s) && Formed(e) && n <= |ms| && IsReliable(k)
    requires forall j: Kind :: Received(Get(e.channels, j), j, Sent(s, j), Output(e, j), false)
    requires forall i :: 0 <= i < |ms| ==> FromLog(ms[i], s)
    ensures SafeGrows(e, Take(e, ms, n), k)
  {
    hide Received, Held, Output, Delivered, Take, Formed, Get, Sender, FromLog, Safe, TakesFrom;
    if n == 0 {
      TakeZero(e, ms);
    } else {
      SenderFormed(s);
      TakeStep(e, ms, n);
      TakeGrows(s, e, ms, n - 1, k);
      var prior := Take(e, ms, n - 1);
      TakeKeeps(s, e, ms, n - 1, false);
      TakesReceived(s, e, prior, false);
      TakeOneGrows(s, prior, ms[n - 1], k);
    }
  }

  lemma SafeFrame(r: End, after: End, k: Kind)
    requires Formed(r) && Formed(after) && after.delivered == r.delivered && IsReliable(k)
    requires SameReceiving(Get(r.channels, k), Get(after.channels, k))
    ensures SafeGrows(r, after, k)
  {
    hide Delivered;
    assert Output(after, RU) == Output(r, RU);
  }

  lemma KeptGrows(s: End, r: End, after: End, k: Kind)
    requires Formed(s) && Formed(r) && Formed(after) && Kept(s, r, k) && SafeGrows(r, after, k)
    ensures Kept(s, after, k)
  {
    hide Safe;
  }

  lemma ArrivalGrows(me: End, peer: End, number: Seq, k: Kind)
    requires Linked(me, peer, false) && number < |peer.net| && IsReliable(k)
    ensures Formed(me) && SafeGrows(me, DeliverStep(me, number, peer.net[number]), k)
  {
    hide Sender, Receiver, Take, Hear, HearAcks, SameSender, SameReceiver, FromLog, SafeGrows;
    SenderFormed(me);
    SenderFormed(peer);
    var p := peer.net[number];
    ArrivalTrue(me, peer, number, false);
    FlowReceived(peer, me, false);
    var took := Take(me, p.messages, |p.messages|);
    TakeGrows(peer, me, p.messages, |p.messages|, k);
    TakeIsSenderFrame(peer, me, p.messages, false);
    SenderFrame(me, took, peer, false);
    var heard := Hear(took, number);
    HearFrame(took, number);
    assert heard.delivered == took.delivered by { HearOutput(took, number); }
    SafeFrame(took, heard, k);
    HearIsSenderFrame(took, number);
    SenderFrame(took, heard, peer, false);
    HearAcksIsReceiverFrame(heard, p.header);
    var after := HearAcks(heard, p.header);
    assert SameReceiving(Get(heard.channels, k), Get(after.channels, k)) && after.delivered == heard.delivered by {
      ReceiverSame(heard, after, k);
    }
    SafeFrame(heard, after, k);
    GrowsChain(me, took, heard, k);
    GrowsChain(me, heard, after, k);
  }

  lemma ReceiverSame(a: End, b: End, k: Kind)
    requires Formed(a) && Formed(b) && SameReceiver(a, b)
    ensures SameReceiving(Get(a.channels, k), Get(b.channels, k)) && b.delivered == a.delivered
  {
  }

  lemma GrowsChain(a: End, b: End, c: End, k: Kind)
    requires Formed(a) && Formed(b) && Formed(c) && SafeGrows(a, b, k) && SafeGrows(b, c, k)
    ensures SafeGrows(a, c, k)
  {
    hide Safe;
  }

  // ----- one call -----

  /** The call acknowledges nothing that is not safe at the peer. */
  ghost predicate CallAcksSafe(me: End, peer: End, call: Call, k: Kind)
    requires Formed(me) && Formed(peer)
  {
    match call
    case DeliverCall(number) =>
      number < |peer.net| && peer.net[number].header.Some? ==> AcksSafe(me, peer, peer.net[number].header.value, k)
    case _ => true
  }

  lemma CallKeepsExactly(me: End, peer: End, call: Call, k: Kind)
    requires Linked(me, peer, false) && Formed(me) && Formed(peer) && Admissible(me, peer, call, false) && IsReliable(k)
    requires Kept(me, peer, k) && Kept(peer, me, k)
    ensures Kept(peer, Act(me, peer, call), k)
    ensures Kept(Act(me, peer, call), peer, k) <==> CallAcksSafe(me, peer, call, k)
  {
    hide Sender, Receiver, SendStep, TransmitStep, DeliverStep, GiveUpStep, Kept, AcksSafe, SafeGrows, SameReceiver;
    match call
    case SendCall(j, p) =>
      SendIsReceiverFrame(me, j, p);
      ReceiverSame(me, SendStep(me, j, p), k);
      SafeFrame(me, SendStep(me, j, p), k);
      KeptGrows(peer, me, SendStep(me, j, p), k);
      SendKept(me, peer, j, p, k);
    case TransmitCall(now, rto, budget) =>
      TransmitKept(me, peer, now, rto, budget, k);
      KeptGrows(peer, me, TransmitStep(me, now, rto, budget), k);
    case DeliverCall(number) =>
      ArrivalGrows(me, peer, number, k);
      KeptGrows(peer, me, DeliverStep(me, number, peer.net[number]), k);
      ArrivalKeepsExactly(me, peer, number, k);
    case GiveUpCall(q) =>
      GiveUpIsReceiverFrame(me, q);
      ReceiverSame(me, GiveUpStep(me, q), k);
      SafeFrame(me, GiveUpStep(me, q), k);
      KeptGrows(peer, me, GiveUpStep(me, q), k);
      GiveUpKept(me, peer, q, k);
  }

  lemma SendKept(s: End, r: End, j: Kind, p: Payload, k: Kind)
    requires Sender(s) && Formed(s) && Formed(r) && Kept(s, r, k) && |Sent(s, j)| + 1 < U32 && IsReliable(k)
    ensures Kept(SendStep(s, j, p), r, k)
  {
    hide Send, SendOn, Get, Sent, Sender, Safe, Queued;
    SenderQueued(s, j);
    QueuedGrows(Get(s.channels, j), j, Sent(s, j), p);
    SentAfter(s, j, p, k);
  }

  lemma TransmitKept(s: End, r: End, now: Time, rto: Time, budget: nat, k: Kind)
    requires Sender(s) && Formed(s) && Formed(r) && Kept(s, r, k) && |s.net| < U16 && IsReliable(k)
    ensures Kept(TransmitStep(s, now, rto, budget), r, k)
    ensures SafeGrows(s, TransmitStep(s, now, rto, budget), k)
  {
    hide Packetize, Queued, BeginSend, Sender, Safe;
    TransmitKeepsSender(s, now, rto, budget);
    var after := TransmitStep(s, now, rto, budget);
    assert Repacked(Get(s.channels, k), Get(after.channels, k), s.log[Index(k)]);
    assert Sent(after, k) == Sent(s, k);
    SafeFrame(s, after, k);
  }

  lemma GiveUpKept(s: End, r: End, q: Seq, k: Kind)
    requires Formed(s) && Formed(r) && Kept(s, r, k)
    ensures Kept(GiveUpStep(s, q), r, k)
  {
    hide Safe;
    assert Get(GiveUpStep(s, q).channels, k) == Get(s.channels, k);
    assert Sent(GiveUpStep(s, q), k) == Sent(s, k);
  }

  // ----- whole runs -----

  ghost predicate BothKept(link: Link, k: Kind) {
    Formed(link.a) && Formed(link.b) && Kept(link.a, link.b, k) && Kept(link.b, link.a, k)
  }

  /** Nothing is lost at any point of the run. */
  ghost predicate KeptThroughout(start: Link, events: seq<Event>, k: Kind)
    decreases |events|
  {
    && BothKept(After(start, events), k)
    && (events != [] ==> KeptThroughout(start, events[..|events| - 1], k))
  }

  /** Whenever an acknowledgement arrives, whatever it newly covers is safe at its sender. */
  ghost predicate AlwaysAcksSafe(start: Link, events: seq<Event>, k: Kind)
    decreases |events|
  {
    events != [] ==>
      var before, e := events[..|events| - 1], events[|events| - 1];
      var link := After(start, before);
      && AlwaysAcksSafe(start, before, k)
      && (Formed(link.a) && Formed(link.b) ==>
            if e.byA then CallAcksSafe(link.a, link.b, e.call, k) else CallAcksSafe(link.b, link.a, e.call, k))
  }

  lemma StartsKept(start: Link, k: Kind)
    requires Fresh(start)
    ensures BothKept(start, k)
  {
  }

  /** Over every run, a reliable channel never loses a message at any point exactly when every
      acknowledgement that arrives covers only what its sender has delivered or buffered. */
  lemma {:induction false} LosesExactly(start: Link, events: seq<Event>, k: Kind)
    requires Fresh(start) && Runs(start, events, false) && IsReliable(k)
    ensures KeptThroughout(start, events, k) <==> AlwaysAcksSafe(start, events, k)
    decreases |events|
  {
    hide Linked, Act, Kept, CallAcksSafe;
    if events == [] {
      StartsKept(start, k);
    } else {
      var before, e := events[..|events| - 1], events[|events| - 1];
      LosesExactly(start, before, k);
      RunKeeps(start, before, false);
      var link := After(start, before);
      if KeptThroughout(start, before, k) {
        KeptNow(start, before, k);
        if e.byA {
          CallKeepsExactly(link.a, link.b, e.call, k);
        } else {
          LinkedFlip(link.a, link.b, false);
          CallKeepsExactly(link.b, link.a, e.call, k);
        }
      }
    }
  }

  lemma KeptNow(start: Link, events: seq<Event>, k: Kind)
    requires KeptThroughout(start, events, k)
    ensures BothKept(After(start, events), k)
  {
  }
}
