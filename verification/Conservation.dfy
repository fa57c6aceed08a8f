/** Conservation, one reliable channel at a time. An unordered message refused at the buffer
    cap has been delivered first, so nothing unordered is ever lost; nothing ordered is lost
    while the cap refuses no ordered message. */
module Conservation {
  import opened Common
  import opened Sequences
  import opened Acks
  import opened Channels
  import opened Delivery
  import opened Reliability
  import opened Exchange
  import opened ReliableRuns

  const RO: Kind := ReliableOrdered
  const RU: Kind := ReliableUnordered

  /** What a receiver has done with a reliable id: delivered it, or for the ordered channel
      at least buffered it behind a gap. */
  ghost predicate Safe(r: End, k: Kind, id: Id)
    requires Formed(r)
  {
    if k == RU then Delivered(Output(r, RU), id) else Held(Get(r.channels, k), k, id)
  }

  ghost predicate HeldSafe(r: End)
    requires Formed(r)
  {
    forall id: Id :: Held(Get(r.channels, RU), RU, id) ==> Safe(r, RU, id)
  }

  /** Whatever a received packet carried is safe. */
  ghost predicate ReceivedSafe(net: seq<Packet>, r: End, k: Kind)
    requires Formed(r)
  {
    forall q: Seq, id: Id :: q in r.got && q < |net| && Carries(net[q], k, id) ==> Safe(r, k, id)
  }

  /** Every id sent on the channel is still unacknowledged, or safe. */
  ghost predicate Kept(s: End, r: End, k: Kind)
    requires Formed(s) && Formed(r)
  {
    forall id: Id :: id < |Sent(s, k)| ==> id in Get(s.channels, k).unacked || Safe(r, k, id)
  }

  ghost predicate Surviving(s: End, r: End, k: Kind) {
    && Formed(s) && Formed(r) && IsReliable(k)
    && HeldSafe(r) && ReceivedSafe(s.net, r, k) && Kept(s, r, k)
  }

  /** The receiving half sees no change. */
  lemma SurvivingFrame(s: End, r: End, after: End, k: Kind)
    requires Surviving(s, r, k) && Formed(after)
    requires after.got == r.got && after.delivered == r.delivered
    requires forall j: Kind :: SameReceiving(Get(r.channels, j), Get(after.channels, j))
    ensures Surviving(s, after, k)
  {
    hide Carries, Delivered;
    assert Output(after, RU) == Output(r, RU);
    assert SameReceiving(Get(r.channels, k), Get(after.channels, k));
    assert SameReceiving(Get(r.channels, RU), Get(after.channels, RU));
    forall id: Id
      ensures Safe(after, k, id) <==> Safe(r, k, id)
      ensures Safe(after, RU, id) <==> Safe(r, RU, id)
      ensures Held(Get(after.channels, RU), RU, id) <==> Held(Get(r.channels, RU), RU, id)
    {
    }
  }

  /** The sending half sees no change. */
  lemma SurvivingSame(s: End, after: End, r: End, k: Kind)
    requires Surviving(s, r, k) && Formed(after) && SameSender(s, after)
    ensures Surviving(after, r, k)
  {
    hide Carries, Held, Safe;
    assert SameSending(Get(s.channels, k), Get(after.channels, k));
    assert Sent(after, k) == Sent(s, k);
  }

  // ----- sending -----

  lemma SendSurvives(s: End, r: End, j: Kind, p: Payload, k: Kind)
    requires Sender(s) && Surviving(s, r, k) && |Sent(s, j)| + 1 < U32
    ensures Surviving(SendStep(s, j, p), r, k)
  {
    hide Send, SendOn, Get, Sent, Sender, Held, Carries, Queued, Safe;
    SenderFormed(s);
    SenderQueued(s, j);
    QueuedGrows(Get(s.channels, j), j, Sent(s, j), p);
    SentAfter(s, j, p, k);
    assert SendStep(s, j, p).net == s.net;
  }

  lemma TransmitSurvives(s: End, r: End, now: Time, rto: Time, budget: nat, k: Kind)
    requires Flow(s, r, false) && Surviving(s, r, k) && |s.net| < U16
    ensures Surviving(TransmitStep(s, now, rto, budget), r, k)
  {
    hide Packetize, Queued, BeginSend, Sender, Received, HeaderTrue, Held, Carries, Safe;
    SenderFormed(s);
    TransmitKeepsSender(s, now, rto, budget);
    var after := TransmitStep(s, now, rto, budget);
    assert Repacked(Get(s.channels, k), Get(after.channels, k), s.log[Index(k)]);
    assert Sent(after, k) == Sent(s, k);
    assert forall q: Seq :: q in r.got ==> q < |s.net| && after.net[q] == s.net[q];
  }

  lemma TransmitUnseen(s: End, r: End, now: Time, rto: Time, budget: nat, k: Kind)
    requires Sender(r) && Surviving(s, r, k) && |r.net| < U16
    ensures Surviving(s, TransmitStep(r, now, rto, budget), k)
  {
    hide Packetize, Queued, Sender, Held, Carries, Surviving;
    SenderFormed(r);
    TransmitKeepsSender(r, now, rto, budget);
    var after := TransmitStep(r, now, rto, budget);
    forall j: Kind
      ensures SameReceiving(Get(r.channels, j), Get(after.channels, j))
    {
      assert Repacked(Get(r.channels, j), Get(after.channels, j), r.log[Index(j)]);
    }
    SurvivingFrame(s, r, after, k);
  }

  // ----- taking a packet's messages -----

  /** The cap refuses none of the first `n` messages of the kind; for the unordered channel
      nothing is asked. */
  ghost predicate Lets(e: End, ms: seq<Message>, n: nat, k: Kind)
    requires Formed(e) && n <= |ms|
  {
    k == RO && n > 0 ==>
      && Lets(e, ms, n - 1, k)
      && (ms[n - 1].channel == k ==>
            var prior := Take(e, ms, n - 1);
            Accepts(Get(prior.channels, k), prior.channels.maxBuffered, ms[n - 1]))
  }

  /** What absorbing a run of seen ids holds, it held before. */
  lemma {:induction false} AbsorbHolds(ch: Channel, id: Id)
    ensures Held(Absorb(ch), RU, id) ==> Held(ch, RU, id)
    decreases |ch.seenAbove|
  {
    if ch.nextExpect < U32 && ch.nextExpect in ch.seenAbove {
      AbsorbHolds(ch.(seenAbove := ch.seenAbove - {ch.nextExpect}, nextExpect := ch.nextExpect + 1), id);
    }
  }

  /** An unordered message comes out unless it is held already, whatever the cap does. */
  lemma ReceiveComesOut(ch: Channel, maxBuffered: nat, m: Message, id: Id)
    requires m.channel == RU
    ensures var (after, out) := ReceiveOn(ch, maxBuffered, m);
            && out == (if Held(ch, RU, m.id) then [] else [m])
            && (Held(after, RU, id) ==> Held(ch, RU, id) || id == m.id)
  {
    AbsorbHolds(ch.(nextExpect := ch.nextExpect + 1), id);
  }

  lemma DeliveredMore(out: seq<Message>, more: seq<Message>, id: Id)
    ensures Delivered(out, id) ==> Delivered(out + more, id)
    ensures forall m :: m in more && m.id == id ==> Delivered(out + more, id)
  {
    var all := out + more;
    if Delivered(out, id) {
      var i :| 0 <= i < |out| && out[i].id == id;
      assert all[i].id == id;
    }
    forall m | m in more && m.id == id
      ensures Delivered(all, id)
    {
      var i :| 0 <= i < |more| && more[i] == m;
      assert all[|out| + i].id == id;
    }
  }

  ghost predicate OnlyMore(r: End, after: End, k: Kind)
    requires Formed(r) && Formed(after)
  {
    after.got == r.got && forall id: Id :: Safe(r, k, id) ==> Safe(after, k, id)
  }

  /** What one message does to every channel of its receiver. */
  lemma TakeOneIs(e: End, m: Message)
    requires Formed(e)
    ensures var (next, out) := ReceiveOn(Get(e.channels, m.channel), e.channels.maxBuffered, m);
            var after := Take(e, [m], 1);
            && after.got == e.got
            && (forall j: Kind :: Get(after.channels, j) == if j == m.channel then next else Get(e.channels, j))
            && (forall j: Kind :: Output(after, j) == if j == m.channel then Output(e, j) + out else Output(e, j))
  {
    hide ReceiveOn;
    var (next, out) := ReceiveOn(Get(e.channels, m.channel), e.channels.maxBuffered, m);
    assert Take(e, [m], 0) == e;
    forall j: Kind {
      GetSet(e.channels, m.channel, next, j);
    }
  }

  lemma TakeOneUnordered(e: End, m: Message)
    requires Formed(e) && HeldSafe(e)
    ensures var after := Take(e, [m], 1);
            HeldSafe(after) && OnlyMore(e, after, RU) && (m.channel == RU ==> Safe(after, RU, m.id))
  {
    hide ReceiveOn, Held, Delivered, Take;
    TakeOneIs(e, m);
    var after := Take(e, [m], 1);
    var (next, out) := ReceiveOn(Get(e.channels, m.channel), e.channels.maxBuffered, m);
    forall id: Id
      ensures Safe(e, RU, id) ==> Safe(after, RU, id)
      ensures Held(Get(after.channels, RU), RU, id) ==> Safe(after, RU, id)
      ensures m.channel == RU && id == m.id ==> Safe(after, RU, id)
    {
      if m.channel == RU {
        ReceiveComesOut(Get(e.channels, RU), e.channels.maxBuffered, m, id);
        DeliveredMore(Output(e, RU), out, id);
      }
    }
  }

  lemma TakeOneOrdered(s: End, e: End, m: Message)
    requires Sender(s) && Formed(e) && FromLog(m, s)
    requires Received(Get(e.channels, RO), RO, Sent(s, RO), Output(e, RO), false)
    requires m.channel == RO ==> Accepts(Get(e.channels, RO), e.channels.maxBuffered, m)
    ensures var after := Take(e, [m], 1);
            OnlyMore(e, after, RO) && (m.channel == RO ==> Safe(after, RO, m.id))
  {
    hide ReceiveOn, Held, Take, Sender, Accepts, Ordered;
    SenderFormed(s);
    SenderLog(s, RO);
    TakeOneIs(e, m);
    if m.channel == RO {
      OrderedReceive(Get(e.channels, RO), Sent(s, RO), Output(e, RO), e.channels.maxBuffered, m);
    }
  }

  ghost predicate FirstSafe(r: End, ms: seq<Message>, n: nat, k: Kind)
    requires Formed(r) && n <= |ms|
  {
    forall i :: 0 <= i < n && ms[i].channel == k ==> Safe(r, k, ms[i].id)
  }

  lemma TakeOneSafe(s: End, e: End, m: Message, k: Kind)
    requires Sender(s) && Formed(e) && FromLog(m, s) && HeldSafe(e) && IsReliable(k)
    requires forall j: Kind :: Received(Get(e.channels, j), j, Sent(s, j), Output(e, j), false)
    requires k == RO && m.channel == RO ==> Accepts(Get(e.channels, RO), e.channels.maxBuffered, m)
    ensures var after := Take(e, [m], 1);
            HeldSafe(after) && OnlyMore(e, after, k) && (m.channel == k ==> Safe(after, k, m.id))
  {
    hide Received, Take, Sender, Accepts, Safe, FromLog;
    TakeOneUnordered(e, m);
    if k == RO {
      TakeOneOrdered(s, e, m);
    }
  }

  lemma {:induction false} TakeSafe(s: End, e: End, ms: seq<Message>, n: nat, k: Kind)
    requires Sender(s) && Formed(e) && n <= |ms| && HeldSafe(e) && IsReliable(k)
    requires forall j: Kind :: Received(Get(e.channels, j), j, Sent(s, j), Output(e, j), false)
    requires forall i :: 0 <= i < |ms| ==> FromLog(ms[i], s)
    requires Lets(e, ms, n, k)
    ensures var after := Take(e, ms, n);
            HeldSafe(after) && OnlyMore(e, after, k) && FirstSafe(after, ms, n, k)
  {
    hide Received, Held, Output, Delivered, Take, Formed, Get, Sender, FromLog, Safe, Accepts, TakesFrom;
    if n == 0 {
      TakeZero(e, ms);
    } else {
      SenderFormed(s);
      TakeStep(e, ms, n);
      TakeSafe(s, e, ms, n - 1, k);
      var prior := Take(e, ms, n - 1);
      TakeKeeps(s, e, ms, n - 1, false);
      TakesReceived(s, e, prior, false);
      TakeOneSafe(s, prior, ms[n - 1], k);
    }
  }

  lemma TakeSurvives(s: End, r: End, ms: seq<Message>, k: Kind)
    requires Flow(s, r, false) && Surviving(s, r, k) && Lets(r, ms, |ms|, k)
    requires forall i :: 0 <= i < |ms| ==> FromLog(ms[i], s)
    ensures Surviving(s, Take(r, ms, |ms|), k)
    ensures FirstSafe(Take(r, ms, |ms|), ms, |ms|, k)
  {
    hide Held, Carries, Take, Safe, Get, Sent, Sender, Received, FromLog, Lets, HeaderTrue, ReceivedOnly;
    SenderFormed(s);
    TakeSafe(s, r, ms, |ms|, k);
  }

  lemma HearSurvives(s: End, r: End, number: Seq, k: Kind)
    requires Surviving(s, r, k) && number < |s.net|
    requires FirstSafe(r, s.net[number].messages, |s.net[number].messages|, k)
    ensures Surviving(s, Hear(r, number), k)
  {
    hide Held, Delivered, Receive;
    var after := Hear(r, number);
    assert after.channels == r.channels && forall j: Kind :: Output(after, j) == Output(r, j);
    forall q: Seq, id: Id | q in after.got && q < |s.net| && Carries(s.net[q], k, id)
      ensures Safe(after, k, id)
    {
      assert Safe(r, k, id);
    }
  }

  /** Only packets the peer received retire anything, and what they carried is safe. */
  lemma HearAcksSurvives(s: End, r: End, h: Option<Header>, k: Kind)
    requires Flow(s, r, false) && Surviving(s, r, k)
    requires h.Some? ==> forall q: Seq :: Marks(h.value, q) ==> q in r.got
    ensures Surviving(HearAcks(s, h), r, k)
  {
    hide Received, Held, HeaderTrue, Carries, Queued, FromLog, ReportedOnce, OnAckHeader, RetireAll, Marks, RingGet,
      Remembers, Get, Sent, Elements, Safe;
    if h.Some? {
      SenderFormed(s);
      var added := AckHeaderReports(s.tracker, h.value, |s.net|, Elements(s.reported));
      assert OnAckHeader(s.tracker, h.value).newlyAcked == added;
      AckedSurvives(s, r, HearAcks(s, h), added, k);
    }
  }

  lemma AckedSurvives(s: End, r: End, after: End, added: seq<Seq>, k: Kind)
    requires Sender(s) && Surviving(s, r, k) && Formed(after)
    requires after.log == s.log && after.net == s.net && after.channels == RetireAll(s.channels, added)
    requires forall q: Seq :: q in added ==> q in r.got
    ensures Surviving(after, r, k)
  {
    hide RetireAll, Held, Carries, Remembers, Queued, ReportedOnce, Get, FromLog, Safe;
    RetireAllKeeps(s.channels, added, s.net);
    assert Sent(after, k) == Sent(s, k);
    forall id: Id | id < |Sent(after, k)|
      ensures id in Get(after.channels, k).unacked || Safe(r, k, id)
    {
      assert id in Get(s.channels, k).unacked || Safe(r, k, id);
    }
  }

  // ----- one call -----

  lemma AckFrame(s: End, r: End, after: End, k: Kind)
    requires Surviving(s, r, k) && Formed(after) && SameReceiver(r, after)
    ensures Surviving(s, after, k)
  {
    hide Surviving;
    SurvivingFrame(s, r, after, k);
  }

  /** The caller as receiver: what arrives becomes safe. */
  lemma DeliverReceives(me: End, peer: End, number: Seq, k: Kind)
    requires Linked(me, peer, false) && number < |peer.net| && Surviving(peer, me, k)
    requires Lets(me, peer.net[number].messages, |peer.net[number].messages|, k)
    ensures Formed(me) && Surviving(peer, DeliverStep(me, number, peer.net[number]), k)
  {
    hide Sender, Receiver, Take, Hear, HearAcks, SameSender, SameReceiver, Surviving, FirstSafe, FromLog, Lets;
    SenderFormed(me);
    SenderFormed(peer);
    var p := peer.net[number];
    ArrivalTrue(me, peer, number, false);
    FlowReceived(peer, me, false);
    var took := Take(me, p.messages, |p.messages|);
    TakeSurvives(peer, me, p.messages, k);
    TakeIsSenderFrame(peer, me, p.messages, false);
    SenderFrame(me, took, peer, false);
    var heard := Hear(took, number);
    HearSurvives(peer, took, number, k);
    HearIsSenderFrame(took, number);
    SenderFrame(took, heard, peer, false);
    HearAcksIsReceiverFrame(heard, p.header);
    AckFrame(peer, heard, HearAcks(heard, p.header), k);
  }

  /** The caller as sender: what is retired is safe at the peer. */
  lemma DeliverRetires(me: End, peer: End, number: Seq, k: Kind)
    requires Linked(me, peer, false) && number < |peer.net| && Surviving(me, peer, k)
    ensures Formed(me) && Surviving(DeliverStep(me, number, peer.net[number]), peer, k)
  {
    hide Sender, Receiver, Take, Hear, HearAcks, SameSender, Surviving, FromLog, Marks;
    SenderFormed(me);
    SenderFormed(peer);
    var p := peer.net[number];
    ArrivalTrue(me, peer, number, false);
    FlowReceived(peer, me, false);
    var took := Take(me, p.messages, |p.messages|);
    TakeIsSenderFrame(peer, me, p.messages, false);
    SenderFrame(me, took, peer, false);
    SurvivingSame(me, took, peer, k);
    var heard := Hear(took, number);
    HearIsSenderFrame(took, number);
    SenderFrame(took, heard, peer, false);
    SurvivingSame(took, heard, peer, k);
    HearAcksSurvives(heard, peer, p.header, k);
  }

  /** The cap lets through every message of the kind that the call delivers. */
  ghost predicate LetsThrough(me: End, peer: End, call: Call, k: Kind)
    requires Formed(me)
  {
    match call
    case DeliverCall(number) =>
      number < |peer.net| ==> Lets(me, peer.net[number].messages, |peer.net[number].messages|, k)
    case _ => true
  }

  lemma ActSurvives(me: End, peer: End, call: Call, k: Kind)
    requires Linked(me, peer, false) && Formed(me) && Admissible(me, peer, call, false)
    requires Surviving(me, peer, k) && Surviving(peer, me, k) && LetsThrough(me, peer, call, k)
    ensures Surviving(Act(me, peer, call), peer, k) && Surviving(peer, Act(me, peer, call), k)
  {
    hide Sender, Receiver, Surviving, SendStep, TransmitStep, DeliverStep, GiveUpStep, Lets;
    match call
    case SendCall(j, p) =>
      SendSurvives(me, peer, j, p, k);
      SendIsReceiverFrame(me, j, p);
      AckFrame(peer, me, SendStep(me, j, p), k);
    case TransmitCall(now, rto, budget) =>
      TransmitSurvives(me, peer, now, rto, budget, k);
      TransmitUnseen(peer, me, now, rto, budget, k);
    case DeliverCall(number) =>
      DeliverRetires(me, peer, number, k);
      DeliverReceives(me, peer, number, k);
    case GiveUpCall(q) =>
      GiveUpSurvives(me, peer, q, k);
      GiveUpIsReceiverFrame(me, q);
      AckFrame(peer, me, GiveUpStep(me, q), k);
  }

  lemma GiveUpSurvives(s: End, r: End, q: Seq, k: Kind)
    requires Formed(s) && Surviving(s, r, k)
    ensures Surviving(GiveUpStep(s, q), r, k)
  {
    hide Held, Carries, Safe;
    assert Get(GiveUpStep(s, q).channels, k) == Get(s.channels, k);
    assert Sent(GiveUpStep(s, q), k) == Sent(s, k);
  }

  // ----- runs -----

  /** No buffer cap refuses a message of the kind during the run. Nothing is asked for the
      unordered channel. */
  ghost predicate Unrefused(start: Link, events: seq<Event>, k: Kind)
    decreases |events|
  {
    events != [] ==>
      var before, e := events[..|events| - 1], events[|events| - 1];
      var link := After(start, before);
      && Unrefused(start, before, k)
      && (Formed(link.a) && Formed(link.b) ==>
            if e.byA then LetsThrough(link.a, link.b, e.call, k) else LetsThrough(link.b, link.a, e.call, k))
  }

  lemma StartsSurviving(start: Link, k: Kind)
    requires Fresh(start) && IsReliable(k)
    ensures Surviving(start.a, start.b, k) && Surviving(start.b, start.a, k)
  {
  }

  lemma {:induction false} RunSurvives(start: Link, events: seq<Event>, k: Kind)
    requires Fresh(start) && Runs(start, events, false) && IsReliable(k) && Unrefused(start, events, k)
    ensures var link := After(start, events);
            Surviving(link.a, link.b, k) && Surviving(link.b, link.a, k)
    decreases |events|
  {
    hide Linked, Act, Surviving, LetsThrough;
    if events == [] {
      StartsSurviving(start, k);
    } else {
      var before, e := events[..|events| - 1], events[|events| - 1];
      RunSurvives(start, before, k);
      RunKeeps(start, before, false);
      var link := After(start, before);
      if e.byA {
        ActSurvives(link.a, link.b, e.call, k);
      } else {
        LinkedFlip(link.a, link.b, false);
        ActSurvives(link.b, link.a, e.call, k);
      }
    }
  }

  lemma {:induction false} UnorderedUnrefused(start: Link, events: seq<Event>)
    ensures Unrefused(start, events, RU)
    decreases |events|
  {
    hide After;
    if events != [] {
      UnorderedUnrefused(start, events[..|events| - 1]);
    }
  }

  /** Conservation over every run. Each unordered id sent is still unacknowledged, or was
      delivered, even at the buffer cap; each ordered id is still unacknowledged, or was
      delivered, or is held behind a gap, while the cap refuses no ordered message. */
  lemma NothingLost(start: Link, events: seq<Event>)
    requires Fresh(start) && Runs(start, events, false)
    ensures var link := After(start, events);
            && Formed(link.a) && Formed(link.b)
            && (forall id: Id :: id < |Sent(link.a, RU)| ==>
                  id in Get(link.a.channels, RU).unacked || Delivered(Output(link.b, RU), id))
            && (forall id: Id :: id < |Sent(link.b, RU)| ==>
                  id in Get(link.b.channels, RU).unacked || Delivered(Output(link.a, RU), id))
            && (Unrefused(start, events, RO) ==>
                  && (forall id: Id :: id < |Sent(link.a, RO)| ==>
                        id in Get(link.a.channels, RO).unacked || Held(Get(link.b.channels, RO), RO, id))
                  && (forall id: Id :: id < |Sent(link.b, RO)| ==>
                        id in Get(link.b.channels, RO).unacked || Held(Get(link.a.channels, RO), RO, id)))
  {
    hide After, Runs, Fresh, Carries, Held, Delivered, Get, Sent, Output, Unrefused;
    UnorderedUnrefused(start, events);
    RunSurvives(start, events, RU);
    if Unrefused(start, events, RO) {
      RunSurvives(start, events, RO);
    }
  }
}
