/** Whole runs of two connected endpoints, and what each delivery guarantee comes to. */
module ReliableRuns {
  import opened Common
  import opened Sequences
  import opened Acks
  import opened Channels
  import opened Delivery
  import opened Reliability
  import opened Exchange

  /** What a caller owes: ids do not wrap, packet numbers are not reused, and only packets
      that were sent arrive. With `uncapped`, also that no buffer cap refuses a message. */
  ghost predicate Admissible(me: End, peer: End, call: Call, uncapped: bool)
    requires Formed(me)
  {
    match call
    case SendCall(k, p) => |Sent(me, k)| + 1 < U32
    case TransmitCall(now, rto, budget) => |me.net| < U16
    case DeliverCall(number) =>
      && number < |peer.net| && number < U16
      && (uncapped ==> Uncapped(me, peer.net[number].messages, |peer.net[number].messages|))
    case GiveUpCall(q) => true
  }

  function Act(me: End, peer: End, call: Call): (r: End)
    requires Formed(me)
    requires call.DeliverCall? ==> call.number < |peer.net| && call.number < U16
    ensures Formed(r)
  {
    match call
    case SendCall(k, p) => SendStep(me, k, p)
    case TransmitCall(now, rto, budget) => TransmitStep(me, now, rto, budget)
    case DeliverCall(number) => DeliverStep(me, number, peer.net[number])
    case GiveUpCall(q) => GiveUpStep(me, q)
  }

  /** Both directions hold. */
  ghost predicate Linked(a: End, b: End, uncapped: bool) {
    Flow(a, b, uncapped) && Flow(b, a, uncapped)
  }

  lemma DeliverKeeps(me: End, peer: End, number: Seq, uncapped: bool)
    requires Linked(me, peer, uncapped) && number < |peer.net|
    requires uncapped ==> Uncapped(me, peer.net[number].messages, |peer.net[number].messages|)
    ensures Linked(DeliverStep(me, number, peer.net[number]), peer, uncapped)
  {
    hide Sender, Receiver, TakenIn, Conserved, Take, Hear, HearAcks, Uncapped, SameSender, SameReceiver, FromLog,
      Held, Carries, HoldsFirst;
    var p := peer.net[number];
    var n := |p.messages|;
    assert Formed(me) && Formed(peer) by {
      SenderFormed(me);
      SenderFormed(peer);
    }
    ArrivalTrue(me, peer, number, uncapped);
    var took := Take(me, p.messages, n);
    TakeKeepsFlow(peer, me, p.messages, uncapped);
    FlowReceived(peer, me, uncapped);
    TakeIsSenderFrame(peer, me, p.messages, uncapped);
    SenderFrame(me, took, peer, uncapped);
    var heard := Hear(took, number);
    if uncapped {
      CarriedHeld(took, p);
    }
    HearKeepsFlow(peer, took, number, uncapped);
    HearIsSenderFrame(took, number);
    SenderFrame(took, heard, peer, uncapped);
    HearAcksKeepsFlow(heard, peer, p.header, uncapped);
    HearAcksIsReceiverFrame(heard, p.header);
    ReceiverFrame(peer, heard, HearAcks(heard, p.header), uncapped);
  }

  lemma ArrivalTrue(me: End, peer: End, number: Seq, uncapped: bool)
    requires Linked(me, peer, uncapped) && number < |peer.net|
    ensures forall i :: 0 <= i < |peer.net[number].messages| ==> FromLog(peer.net[number].messages[i], peer)
    ensures peer.net[number].header.Some? ==>
              forall q: Seq :: Marks(peer.net[number].header.value, q) ==> q in peer.got
  {
    assert HeaderTrue(peer.net[number], peer.got);
  }

  lemma FlowReceived(s: End, r: End, uncapped: bool)
    requires Flow(s, r, uncapped)
    ensures forall k: Kind :: Received(Get(r.channels, k), k, Sent(s, k), Output(r, k), uncapped)
  {
  }

  lemma CarriedHeld(r: End, p: Packet)
    requires Formed(r) && HoldsFirst(r, p.messages, |p.messages|)
    ensures forall k: Kind, id: Id :: Carries(p, k, id) ==> Held(Get(r.channels, k), k, id)
  {
    hide Held, Get;
  }

  lemma ActKeeps(me: End, peer: End, call: Call, uncapped: bool)
    requires Linked(me, peer, uncapped) && Admissible(me, peer, call, uncapped)
    ensures Linked(Act(me, peer, call), peer, uncapped)
  {
    hide Sender, Receiver, TakenIn, Conserved, SendStep, TransmitStep, DeliverStep, GiveUpStep, SameReceiver;
    SenderFormed(me);
    match call
    case SendCall(k, p) =>
      SendKeepsFlow(me, peer, k, p, uncapped);
      SendIsReceiverFrame(me, k, p);
      ReceiverFrame(peer, me, SendStep(me, k, p), uncapped);
    case TransmitCall(now, rto, budget) =>
      TransmitKeepsFlow(me, peer, now, rto, budget, uncapped);
      TransmitKeepsReceiver(peer, me, now, rto, budget, uncapped);
    case DeliverCall(number) =>
      DeliverKeeps(me, peer, number, uncapped);
    case GiveUpCall(q) =>
      GiveUpKeepsFlow(me, peer, q, uncapped);
      GiveUpIsReceiverFrame(me, q);
      ReceiverFrame(peer, me, GiveUpStep(me, q), uncapped);
  }

  // ----- runs -----

  /** One call by either end. */
  datatype Event = Event(byA: bool, call: Call)

  datatype Link = Link(a: End, b: End)

  ghost predicate Permitted(link: Link, e: Event, uncapped: bool) {
    && Formed(link.a) && Formed(link.b)
    && if e.byA then Admissible(link.a, link.b, e.call, uncapped)
       else Admissible(link.b, link.a, e.call, uncapped)
  }

  function Happen(link: Link, e: Event): Link
    requires Formed(link.a) && Formed(link.b)
    requires e.call.DeliverCall? ==>
               e.call.number < U16 && e.call.number < if e.byA then |link.b.net| else |link.a.net|
  {
    if e.byA then link.(a := Act(link.a, link.b, e.call))
    else link.(b := Act(link.b, link.a, e.call))
  }

  ghost predicate Runs(start: Link, events: seq<Event>, uncapped: bool)
    decreases |events|
  {
    events != [] ==>
      && Runs(start, events[..|events| - 1], uncapped)
      && Permitted(After(start, events[..|events| - 1]), events[|events| - 1], uncapped)
  }

  /** The state a run reaches; an event that cannot happen leaves it as it is. */
  ghost function After(start: Link, events: seq<Event>): Link
    decreases |events|
  {
    if events == [] then start
    else
      var link := After(start, events[..|events| - 1]);
      var e := events[|events| - 1];
      if Permitted(link, e, false) then Happen(link, e) else link
  }

  /** Both ends new, with any buffer sizes. */
  ghost predicate Fresh(link: Link) {
    exists ca: nat, ma: nat, cb: nat, mb: nat ::
      ca > 0 && cb > 0 && link == Link(NewEnd(ca, ma), NewEnd(cb, mb))
  }

  lemma {:induction false} RunKeeps(start: Link, events: seq<Event>, uncapped: bool)
    requires Fresh(start) && Runs(start, events, uncapped)
    ensures var link := After(start, events); Linked(link.a, link.b, uncapped)
    decreases |events|
  {
    hide Linked, Act;
    if events == [] {
      StartsLinked(start, uncapped);
    } else {
      var before, e := events[..|events| - 1], events[|events| - 1];
      RunKeeps(start, before, uncapped);
      var link := After(start, before);
      PermittedAnyway(link, e, uncapped);
      if e.byA {
        ActKeeps(link.a, link.b, e.call, uncapped);
      } else {
        LinkedFlip(link.a, link.b, uncapped);
        ActKeeps(link.b, link.a, e.call, uncapped);
        LinkedFlip(Act(link.b, link.a, e.call), link.a, uncapped);
      }
    }
  }

  lemma StartsLinked(start: Link, uncapped: bool)
    requires Fresh(start)
    ensures Linked(start.a, start.b, uncapped)
  {
    hide Sender, Receiver, TakenIn, Conserved;
    var ca: nat, ma: nat, cb: nat, mb: nat :|
      ca > 0 && cb > 0 && start == Link(NewEnd(ca, ma), NewEnd(cb, mb));
    FlowStarts(ca, ma, cb, mb);
    FlowStarts(cb, mb, ca, ma);
    FlowForgets(start.a, start.b, uncapped);
    FlowForgets(start.b, start.a, uncapped);
  }

  lemma FlowForgets(s: End, r: End, uncapped: bool)
    requires Flow(s, r, true)
    ensures Flow(s, r, uncapped)
  {
    hide Ordered, Unordered, Ascending, AllGenuine, Sender, TakenIn, Conserved;
    SenderFormed(s);
    assert forall k: Kind :: Received(Get(r.channels, k), k, Sent(s, k), Output(r, k), uncapped);
  }

  lemma LinkedFlip(a: End, b: End, uncapped: bool)
    requires Linked(a, b, uncapped)
    ensures Linked(b, a, uncapped)
  {
  }

  lemma PermittedAnyway(link: Link, e: Event, uncapped: bool)
    requires Permitted(link, e, uncapped)
    ensures Permitted(link, e, false)
  {
  }

  // ----- the guarantees -----

  function Payloads(ms: seq<Message>): seq<Payload> {
    seq(|ms|, i requires 0 <= i < |ms| => ms[i].payload)
  }

  /** ReliableOrdered: under any loss, duplication, reordering and delay, and whatever the
      buffer cap refuses, what comes out is a prefix of what was sent. */
  lemma OrderedIsPrefix(start: Link, events: seq<Event>)
    requires Fresh(start) && Runs(start, events, false)
    ensures var link := After(start, events);
            && Formed(link.a) && Formed(link.b)
            && Payloads(Output(link.b, ReliableOrdered)) <= Sent(link.a, ReliableOrdered)
            && Payloads(Output(link.a, ReliableOrdered)) <= Sent(link.b, ReliableOrdered)
  {
    hide After, Sender, Runs;
    RunKeeps(start, events, false);
    var link := After(start, events);
    OrderedFlow(link.a, link.b, false);
    OrderedFlow(link.b, link.a, false);
  }

  lemma OrderedFlow(s: End, r: End, uncapped: bool)
    requires Flow(s, r, uncapped)
    ensures Formed(s) && Formed(r)
    ensures Payloads(Output(r, ReliableOrdered)) <= Sent(s, ReliableOrdered)
  {
    FlowReceived(s, r, uncapped);
    var out, log := Output(r, ReliableOrdered), Sent(s, ReliableOrdered);
    assert Ordered(Get(r.channels, ReliableOrdered), log, out);
    forall i | 0 <= i < |out|
      ensures Payloads(out)[i] == log[i]
    {
      assert Genuine(out[i], ReliableOrdered, log);
    }
  }

  /** ReliableUnordered: while no cap refuses a message, each id comes out at most once, with
      the payload sent under it, and what came out is exactly the ids below
      `nextExpect` and those seen above it. */
  lemma UnorderedOnce(start: Link, events: seq<Event>)
    requires Fresh(start) && Runs(start, events, true)
    ensures var link := After(start, events);
            && Formed(link.a) && Formed(link.b)
            && var ch, out := Get(link.b.channels, ReliableUnordered), Output(link.b, ReliableUnordered);
            && Once(out) && AllGenuine(out, ReliableUnordered, Sent(link.a, ReliableUnordered))
            && forall id: Id :: Delivered(out, id) <==> id < ch.nextExpect || id in ch.seenAbove
  {
    hide After, Sender, Runs;
    RunKeeps(start, events, true);
    var link := After(start, events);
    FlowReceived(link.a, link.b, true);
    assert Received(Get(link.b.channels, ReliableUnordered), ReliableUnordered, Sent(link.a, ReliableUnordered),
                    Output(link.b, ReliableUnordered), true);
  }

  /** UnreliableSequenced: what comes out is strictly newer every time, while ids span less
      than half their space. */
  lemma SequencedAscends(start: Link, events: seq<Event>)
    requires Fresh(start) && Runs(start, events, false)
    requires |After(start, events).a.log| == 4
    requires |After(start, events).a.log[Index(UnreliableSequenced)]| <= SEQUENCED_SPAN
    ensures var link := After(start, events);
            && Formed(link.a) && Formed(link.b)
            && var out := Output(link.b, UnreliableSequenced);
            && AllGenuine(out, UnreliableSequenced, Sent(link.a, UnreliableSequenced))
            && forall i, j :: 0 <= i < j < |out| ==> out[i].id < out[j].id
  {
    hide After, Sender, Runs;
    RunKeeps(start, events, false);
    var link := After(start, events);
    FlowReceived(link.a, link.b, false);
    assert Received(Get(link.b.channels, UnreliableSequenced), UnreliableSequenced, Sent(link.a, UnreliableSequenced),
                    Output(link.b, UnreliableSequenced), false);
  }

  /** Once everything is acknowledged, the ordered channel has delivered exactly what was
      sent, in order, and the unordered one every id exactly once. */
  lemma FullyAckedIsFullyDelivered(start: Link, events: seq<Event>)
    requires Fresh(start) && Runs(start, events, true)
    requires Formed(After(start, events).a)
    requires forall k: Kind :: Get(After(start, events).a.channels, k).unacked == map[]
    ensures var link := After(start, events);
            && Formed(link.b)
            && Payloads(Output(link.b, ReliableOrdered)) == Sent(link.a, ReliableOrdered)
            && Once(Output(link.b, ReliableUnordered))
            && forall id: Id :: Delivered(Output(link.b, ReliableUnordered), id) <==>
                 id < |Sent(link.a, ReliableUnordered)|
  {
    hide After, Runs, TakenIn;
    RunKeeps(start, events, true);
    var link := After(start, events);
    HeldDelivers(link.a, link.b);
  }

  /** Every reliable id sent is held by the peer. */
  ghost predicate AllHeld(s: End, r: End)
    requires Formed(s) && Formed(r)
  {
    forall k: Kind, id: Id :: IsReliable(k) && id < |Sent(s, k)| ==> Held(Get(r.channels, k), k, id)
  }

  lemma HeldDelivers(s: End, r: End)
    requires Flow(s, r, true) && AllHeld(s, r)
    ensures Payloads(Output(r, ReliableOrdered)) == Sent(s, ReliableOrdered)
    ensures Once(Output(r, ReliableUnordered))
    ensures forall id: Id :: Delivered(Output(r, ReliableUnordered), id) <==> id < |Sent(s, ReliableUnordered)|
  {
    hide Sender, TakenIn;
    SenderFormed(s);
    OrderedFlow(s, r, true);
    FlowReceived(s, r, true);
    SenderLog(s, ReliableOrdered);
    var ch, log := Get(r.channels, ReliableOrdered), Sent(s, ReliableOrdered);
    assert Ordered(ch, log, Output(r, ReliableOrdered));
    assert ch.nextExpect < |log| ==> !Held(ch, ReliableOrdered, ch.nextExpect);
    var un, ulog := Get(r.channels, ReliableUnordered), Sent(s, ReliableUnordered);
    assert Unordered(un, ulog, Output(r, ReliableUnordered));
    forall id: Id
      ensures Held(un, ReliableUnordered, id) <==> id < |ulog|
    {
    }
  }

  /** Acknowledgements are sound over every run: every sequence ever reported was received
      by the peer, and none is reported twice. */
  lemma AcksSound(start: Link, events: seq<Event>)
    requires Fresh(start) && Runs(start, events, false)
    ensures var link := After(start, events);
            && (forall q: Seq :: q in link.a.reported ==> q in link.b.got)
            && (forall q: Seq :: q in link.b.reported ==> q in link.a.got)
            && Distinct(link.a.reported) && Distinct(link.b.reported)
  {
    hide After, Runs, Received, Conserved, TakenIn, Queued, ReportedOnce;
    RunKeeps(start, events, false);
  }
}
