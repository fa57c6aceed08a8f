/** When a message goes out, and when it goes out again: what a packet carries, stated in
    times and sizes, and the same over whole runs in terms of the packets sent so far. */
module Retransmission {
  import opened Common
  import opened Sequences
  import opened Acks
  import opened Channels
  import opened Delivery
  import opened Reliability
  import opened Exchange
  import opened ReliableRuns

  /** `x` doubled `n` times. */
  function Doubled(x: nat, n: nat): nat
    decreases n
  {
    if n == 0 then x else Doubled(2 * x, n - 1)
  }

  /** How long a message waits before it may be sent again, jitter aside: half the round
      trip but at least 10 ms, doubled for every attempt past the eighth, five times at most. */
  function Wait(rto: Time, attempts: nat): nat {
    Doubled(if rto / 2 < 10_000 then 10_000 else rto / 2,
            if attempts <= 8 then 0 else if attempts <= 13 then attempts - 8 else 5)
  }

  /** The spread that keeps retries from falling in step with a periodic loss: at most half
      the wait, and fixed by the message and the attempt. */
  function Jitter(id: Id, attempts: nat, wait: nat): nat {
    (id * 0x9E37_79B9_7F4A_7C15 + attempts * 0x100_0000_01B3) % U64 % (wait / 2 + 1)
  }

  lemma WaitIsDelay(rto: Time, id: Id, attempts: nat)
    requires rto < 0x400_0000_0000_0000
    ensures var wait := Wait(rto, attempts);
            && 10_000 <= wait && Jitter(id, attempts, wait) <= wait / 2
            && RetryDelay(rto, id, attempts) == wait + Jitter(id, attempts, wait)
  {
    hide Wait, BackoffFactor;
    WaitIsBackoff(rto, attempts);
    JitterBound((id * 0x9E37_79B9_7F4A_7C15 + attempts * 0x100_0000_01B3) % U64, Wait(rto, attempts));
  }

  lemma WaitIsBackoff(rto: Time, attempts: nat)
    requires rto < 0x400_0000_0000_0000
    ensures Wait(rto, attempts) == (if rto / 2 < 10_000 then 10_000 else rto / 2) * BackoffFactor(attempts)
    ensures 10_000 <= Wait(rto, attempts) < 0x4000_0000_0000_0000
  {
    var eager := if rto / 2 < 10_000 then 10_000 else rto / 2;
    assert Doubled(eager, 0) == eager;
    assert Doubled(eager, 1) == Doubled(2 * eager, 0);
    assert Doubled(eager, 2) == Doubled(2 * eager, 1) == Doubled(4 * eager, 0);
    assert Doubled(eager, 3) == Doubled(2 * eager, 2) == Doubled(4 * eager, 1) == Doubled(8 * eager, 0);
    assert Doubled(eager, 4) == Doubled(4 * eager, 2) == Doubled(8 * eager, 1) == Doubled(16 * eager, 0);
    assert Doubled(eager, 5) == Doubled(4 * eager, 3) == Doubled(8 * eager, 2) == Doubled(16 * eager, 1)
           == Doubled(32 * eager, 0);
  }

  lemma JitterBound(mixed: nat, wait: nat)
    requires wait < 0x4000_0000_0000_0000
    ensures 0 <= mixed % (wait / 2 + 1) <= wait / 2
    ensures (wait + mixed % (wait / 2 + 1)) % U64 == wait + mixed % (wait / 2 + 1)
  {
    ModShrinks(mixed, wait / 2 + 1);
  }

  /** Sent too recently to be sent again. */
  predicate Early(lastSent: Option<Time>, attempts: nat, now: Time, rto: Time) {
    lastSent.Some? && now < lastSent.value + Wait(rto, attempts)
  }

  /** Never sent, or waiting longer than any jitter. */
  predicate Late(lastSent: Option<Time>, attempts: nat, now: Time, rto: Time) {
    lastSent.None? || now >= lastSent.value + Wait(rto, attempts) + Wait(rto, attempts) / 2
  }

  /** Never sent, or past its wait and its jitter. */
  predicate Ripe(lastSent: Option<Time>, attempts: nat, id: Id, now: Time, rto: Time) {
    lastSent.None? || now >= lastSent.value + Wait(rto, attempts) + Jitter(id, attempts, Wait(rto, attempts))
  }

  lemma RipeIsDue(p: Pending, id: Id, now: Time, rto: Time)
    requires rto < 0x400_0000_0000_0000
    ensures Due(p, id, now, rto) <==> Ripe(p.lastSent, p.attempts, id, now, rto)
  {
    hide Jitter, Wait, RetryDelay;
    WaitIsDelay(rto, id, p.attempts);
  }

  lemma RipeBetween(lastSent: Option<Time>, attempts: nat, id: Id, now: Time, rto: Time)
    requires rto < 0x400_0000_0000_0000
    ensures Early(lastSent, attempts, now, rto) ==> !Ripe(lastSent, attempts, id, now, rto)
    ensures Late(lastSent, attempts, now, rto) ==> Ripe(lastSent, attempts, id, now, rto)
  {
    hide Jitter, Wait, RetryDelay;
    WaitIsDelay(rto, id, attempts);
  }

  // ----- the parts of a packet -----

  predicate InPacket(out: seq<Message>, k: Kind, id: Id) {
    exists i :: 0 <= i < |out| && out[i].channel == k && out[i].id == id
  }

  /** The bytes a packet holds that come before channel `k`'s share ends: the ordered
      channel's, and `k`'s own. */
  function Share(out: seq<Message>, k: Kind): nat {
    if out == [] then 0
    else (if out[0].channel == ReliableOrdered || out[0].channel == k then |out[0].payload| else 0) + Share(out[1..], k)
  }

  lemma {:induction false} ShareConcat(a: seq<Message>, b: seq<Message>, k: Kind)
    ensures Share(a + b, k) == Share(a, k) + Share(b, k)
  {
    if a == [] {
      assert a + b == b;
    } else {
      ShareConcat(a[1..], b, k);
      assert (a + b)[1..] == a[1..] + b;
    }
  }

  ghost predicate AllOn(out: seq<Message>, k: Kind) {
    forall i :: 0 <= i < |out| ==> out[i].channel == k
  }

  lemma {:induction false} ShareOf(out: seq<Message>, j: Kind, k: Kind)
    requires AllOn(out, j)
    ensures Share(out, k) == if j == ReliableOrdered || j == k then Bytes(out) else 0
  {
    if out != [] {
      ShareOf(out[1..], j, k);
    }
  }

  /** The four passes of one packet. */
  datatype Parts = Parts(ro: Collected, ru: Collected, us: (seq<Message>, nat), un: (seq<Message>, nat))

  function PartsOf(cs: ChannelSet, now: Time, rto: Time, budget: nat): Parts
    requires Shaped(cs)
  {
    var a := Get(cs, ReliableOrdered).unacked;
    var b := Get(cs, ReliableUnordered).unacked;
    var ro := CollectReliable(ReliableOrdered, a, a.Keys, now, rto, budget);
    var ru := CollectReliable(ReliableUnordered, b, b.Keys, now, rto, ro.left);
    var us := CollectQueue(UnreliableSequenced, Get(cs, UnreliableSequenced).queue, ru.left);
    Parts(ro, ru, us, CollectQueue(Unreliable, Get(cs, Unreliable).queue, us.1))
  }

  function Joined(p: Parts): seq<Message> {
    p.ro.out + p.ru.out + p.us.0 + p.un.0
  }

  lemma PackedInParts(cs: ChannelSet, q: Seq, now: Time, rto: Time, budget: nat)
    requires Shaped(cs)
    ensures var (after, out) := Packetize(cs, q, now, rto, budget);
            var p := PartsOf(cs, now, rto, budget);
            && Shaped(after) && out == Joined(p)
            && Get(after, ReliableOrdered) == Get(cs, ReliableOrdered).(unacked := p.ro.unacked)
            && Get(after, ReliableUnordered) == Get(cs, ReliableUnordered).(unacked := p.ru.unacked)
            && Get(after, UnreliableSequenced) == Get(cs, UnreliableSequenced).(queue := [])
            && Get(after, Unreliable) == Get(cs, Unreliable).(queue := [])
  {
    hide CollectReliable, CollectQueue, Recorded;
    var p0 := PackFrom(cs, 0, now, rto, budget);
    var p1 := PackFrom(cs, 1, now, rto, budget);
    var p2 := PackFrom(cs, 2, now, rto, budget);
    var p3 := PackFrom(cs, 3, now, rto, budget);
    var p4 := PackFrom(cs, 4, now, rto, budget);
    var p := PartsOf(cs, now, rto, budget);
    assert p1.out == p.ro.out && p1.left == p.ro.left;
    assert p2.out == p.ro.out + p.ru.out && p2.left == p.ru.left;
    assert p3.out == p.ro.out + p.ru.out + p.us.0;
  }

  function PartOf(p: Parts, k: Kind): Collected
    requires IsReliable(k)
  {
    if k == ReliableOrdered then p.ro else p.ru
  }

  function BudgetOf(p: Parts, budget: nat, k: Kind): nat {
    if k == ReliableOrdered then budget else p.ro.left
  }

  /** A reliable channel's messages in the packet are those its own pass took, and its share
      is what the reliable passes up to its own used. */
  lemma ReliablePart(cs: ChannelSet, now: Time, rto: Time, budget: nat, k: Kind)
    requires Shaped(cs) && IsReliable(k)
    ensures var p := PartsOf(cs, now, rto, budget);
            var c := PartOf(p, k);
            && c == CollectReliable(k, Get(cs, k).unacked, Get(cs, k).unacked.Keys, now, rto, BudgetOf(p, budget, k))
            && CollectsDue(k, Get(cs, k).unacked, Get(cs, k).unacked.Keys, now, rto, c)
            && (forall i :: 0 <= i < |c.out| ==> c.out[i] in Joined(p))
            && (forall i :: 0 <= i < |Joined(p)| && Joined(p)[i].channel == k ==> Joined(p)[i] in c.out)
            && Share(Joined(p), k) + c.left == budget
  {
    hide CollectReliable, CollectQueue, Get;
    var p := PartsOf(cs, now, rto, budget);
    var a, b := Get(cs, ReliableOrdered).unacked, Get(cs, ReliableUnordered).unacked;
    CollectKeeps(ReliableOrdered, a, a.Keys, now, rto, budget);
    CollectKeeps(ReliableUnordered, b, b.Keys, now, rto, p.ro.left);
    QueueKeeps(UnreliableSequenced, Get(cs, UnreliableSequenced).queue, p.ru.left);
    QueueKeeps(Unreliable, Get(cs, Unreliable).queue, p.us.1);
    JoinedShares(p, k);
  }

  lemma JoinedShares(p: Parts, k: Kind)
    requires IsReliable(k)
    requires AllOn(p.ro.out, ReliableOrdered) && AllOn(p.ru.out, ReliableUnordered)
    requires AllOn(p.us.0, UnreliableSequenced) && AllOn(p.un.0, Unreliable)
    ensures Share(Joined(p), k) == Bytes(p.ro.out) + if k == ReliableOrdered then 0 else Bytes(p.ru.out)
    ensures forall i :: 0 <= i < |PartOf(p, k).out| ==> PartOf(p, k).out[i] in Joined(p)
    ensures forall i :: 0 <= i < |Joined(p)| && Joined(p)[i].channel == k ==> Joined(p)[i] in PartOf(p, k).out
  {
    ShareConcat(p.ro.out + p.ru.out + p.us.0, p.un.0, k);
    ShareConcat(p.ro.out + p.ru.out, p.us.0, k);
    ShareConcat(p.ro.out, p.ru.out, k);
    ShareOf(p.ro.out, ReliableOrdered, k);
    ShareOf(p.ru.out, ReliableUnordered, k);
    ShareOf(p.us.0, UnreliableSequenced, k);
    ShareOf(p.un.0, Unreliable, k);
  }

  // ----- what a packet carries -----

  /** A message of the channel no newer than `id`, ripe to be sent, that was too large for
      what the reliable messages before it left of the budget; no newer one went. */
  ghost predicate Crowded(cs: ChannelSet, out: seq<Message>, k: Kind, id: Id, now: Time, rto: Time, budget: nat)
    requires Shaped(cs)
  {
    var unacked := Get(cs, k).unacked;
    exists x: Id :: x <= id && x in unacked
      && Ripe(unacked[x].lastSent, unacked[x].attempts, x, now, rto)
      && |unacked[x].payload| + Share(out, k) > budget
      && (forall i :: 0 <= i < |out| && out[i].channel == k ==> out[i].id < x)
  }

  /** A reliable message is in the packet exactly when it is ripe and neither it nor an older
      one is too large for what is left. Going again counts one more attempt and restarts the
      wait; staying out changes nothing. */
  lemma PacketOnTime(cs: ChannelSet, q: Seq, now: Time, rto: Time, budget: nat, k: Kind, id: Id)
    requires Shaped(cs) && IsReliable(k) && rto < 0x400_0000_0000_0000 && id in Get(cs, k).unacked
    ensures var (after, out) := Packetize(cs, q, now, rto, budget);
            var p := Get(cs, k).unacked[id];
            && Shaped(after) && id in Get(after, k).unacked
            && (InPacket(out, k, id) <==>
                  Ripe(p.lastSent, p.attempts, id, now, rto) && !Crowded(cs, out, k, id, now, rto, budget))
            && (InPacket(out, k, id) ==> Message(k, id, p.payload) in out)
            && Get(after, k).unacked[id] ==
               (if !InPacket(out, k, id) then p
                else if p.lastSent.None? then Pending(p.payload, Some(now), p.attempts)
                else Pending(p.payload, Some(now), if p.attempts < U32 - 1 then p.attempts + 1 else U32 - 1))
  {
    hide CollectReliable, Due, Ripe, Packetize, Joined, PartsOf, Get;
    PackedInParts(cs, q, now, rto, budget);
    ReliablePart(cs, now, rto, budget, k);
    var out := Packetize(cs, q, now, rto, budget).1;
    var unacked := Get(cs, k).unacked;
    var c := PartOf(PartsOf(cs, now, rto, budget), k);
    RipeIsDue(unacked[id], id, now, rto);
    PartListed(c.out, out, k, id);
    if Ripe(unacked[id].lastSent, unacked[id].attempts, id, now, rto) && !InPacket(out, k, id) {
      HeadOfLine(k, unacked, unacked.Keys, now, rto, BudgetOf(PartsOf(cs, now, rto, budget), budget, k), id);
      var x: Id :| x <= id && Blocks(unacked, unacked.Keys, now, rto, c, x);
      RipeIsDue(unacked[x], x, now, rto);
    }
  }

  lemma PartListed(part: seq<Message>, out: seq<Message>, k: Kind, id: Id)
    requires AllOn(part, k) && (forall i :: 0 <= i < |part| ==> part[i] in out)
    requires forall i :: 0 <= i < |out| && out[i].channel == k ==> out[i] in part
    ensures InPacket(out, k, id) <==> Listed(part, id)
    ensures Listed(part, id) ==> exists m :: m in part && m in out && m.id == id
  {
    if Listed(part, id) {
      var i :| 0 <= i < |part| && part[i].id == id;
      assert part[i] in out;
    }
  }

  /** An unreliable message still queued goes out with the next packet if it fits what is
      left, and is forgotten either way. */
  lemma QueuedGoesOnce(cs: ChannelSet, q: Seq, now: Time, rto: Time, budget: nat, k: Kind)
    requires Shaped(cs) && !IsReliable(k)
    ensures var (after, out) := Packetize(cs, q, now, rto, budget);
            && Shaped(after) && Get(after, k).queue == []
            && (forall e :: e in Get(cs, k).queue && |e.1| + Bytes(out) <= budget ==> Message(k, e.0, e.1) in out)
  {
    hide CollectReliable, CollectQueue, Get, Packetize;
    PackedInParts(cs, q, now, rto, budget);
    var p := PartsOf(cs, now, rto, budget);
    ReliablePart(cs, now, rto, budget, ReliableOrdered);
    var b := Get(cs, ReliableUnordered).unacked;
    CollectKeeps(ReliableOrdered, Get(cs, ReliableOrdered).unacked, Get(cs, ReliableOrdered).unacked.Keys, now, rto, budget);
    CollectKeeps(ReliableUnordered, b, b.Keys, now, rto, p.ro.left);
    QueueKeeps(UnreliableSequenced, Get(cs, UnreliableSequenced).queue, p.ru.left);
    QueueKeeps(Unreliable, Get(cs, Unreliable).queue, p.us.1);
    BytesConcat(p.ro.out + p.ru.out + p.us.0, p.un.0);
    BytesConcat(p.ro.out + p.ru.out, p.us.0);
    BytesConcat(p.ro.out, p.ru.out);
  }

  /** What has just been sent goes out with the next packet that has room for it. */
  lemma SentGoesOut(cs: ChannelSet, k: Kind, payload: Payload, q: Seq, now: Time, rto: Time, budget: nat)
    requires Shaped(cs) && rto < 0x400_0000_0000_0000
    ensures var id := Get(cs, k).nextSend;
            var sent := Send(cs, k, payload);
            var out := Packetize(sent, q, now, rto, budget).1;
            && Get(sent, k).nextSend == (id + 1) % U32
            && (IsReliable(k) ==> Message(k, id, payload) in out || Crowded(sent, out, k, id, now, rto, budget))
            && (!IsReliable(k) && |payload| + Bytes(out) <= budget ==> Message(k, id, payload) in out)
  {
    hide Packetize, Crowded, InPacket, Wait, Jitter;
    var id := Get(cs, k).nextSend;
    var sent := Send(cs, k, payload);
    GetSet(cs, k, SendOn(Get(cs, k), k, payload), k);
    if IsReliable(k) {
      PacketOnTime(sent, q, now, rto, budget, k, id);
    } else {
      QueuedGoesOnce(sent, q, now, rto, budget, k);
      assert Get(sent, k).queue[|Get(cs, k).queue|] == (id, payload);
      assert (id, payload) in Get(sent, k).queue;
    }
  }

  // ----- room for everything -----

  /** The bytes waiting for acknowledgement under the ids given. */
  function Weight(unacked: map<Id, Pending>, rest: set<Id>): nat
    requires rest <= unacked.Keys
    decreases |rest|
  {
    if rest == {} then 0 else |unacked[Least(rest)].payload| + Weight(unacked, rest - {Least(rest)})
  }

  function Backlog(cs: ChannelSet, k: Kind): nat
    requires Shaped(cs)
  {
    Weight(Get(cs, k).unacked, Get(cs, k).unacked.Keys)
  }

  lemma {:induction false} WeightSame(a: map<Id, Pending>, b: map<Id, Pending>, rest: set<Id>)
    requires rest <= a.Keys && rest <= b.Keys && forall id :: id in rest ==> a[id].payload == b[id].payload
    ensures Weight(a, rest) == Weight(b, rest)
    decreases |rest|
  {
    if rest != {} {
      WeightSame(a, b, rest - {Least(rest)});
    }
  }

  /** With room for everything, everything due is taken. */
  lemma {:induction false} AmpleTakes(k: Kind, unacked: map<Id, Pending>, rest: set<Id>, now: Time, rto: Time,
                                      budget: nat)
    requires rest <= unacked.Keys && Weight(unacked, rest) <= budget
    ensures var c := CollectReliable(k, unacked, rest, now, rto, budget);
            && (forall id :: id in rest && Due(unacked[id], id, now, rto) ==> Listed(c.out, id))
            && c.left + Weight(unacked, rest) >= budget
    decreases |rest|
  {
    hide Due, Listed;
    if rest != {} {
      var first := Least(rest);
      var p := unacked[first];
      if !Due(p, first, now, rto) {
        AmpleTakes(k, unacked, rest - {first}, now, rto, budget);
      } else {
        var u := unacked[first := Resent(p, now)];
        WeightSame(unacked, u, rest - {first});
        AmpleTakes(k, u, rest - {first}, now, rto, budget - |p.payload|);
        var d := CollectReliable(k, u, rest - {first}, now, rto, budget - |p.payload|);
        forall id | id in rest && Due(unacked[id], id, now, rto)
          ensures Listed([Message(k, first, p.payload)] + d.out, id)
        {
          ListedCons(Message(k, first, p.payload), d.out, id);
          assert id != first ==> u[id] == unacked[id];
        }
      }
    }
  }

  lemma AmplePacket(cs: ChannelSet, q: Seq, now: Time, rto: Time, budget: nat, k: Kind, id: Id)
    requires Shaped(cs) && IsReliable(k) && rto < 0x400_0000_0000_0000 && id in Get(cs, k).unacked
    requires Backlog(cs, ReliableOrdered) + Backlog(cs, ReliableUnordered) <= budget
    requires Ripe(Get(cs, k).unacked[id].lastSent, Get(cs, k).unacked[id].attempts, id, now, rto)
    ensures InPacket(Packetize(cs, q, now, rto, budget).1, k, id)
  {
    hide CollectReliable, Due, Ripe, Packetize, Joined, Get, Weight;
    PackedInParts(cs, q, now, rto, budget);
    ReliablePart(cs, now, rto, budget, k);
    var p := PartsOf(cs, now, rto, budget);
    var a, b := Get(cs, ReliableOrdered).unacked, Get(cs, ReliableUnordered).unacked;
    RipeIsDue(Get(cs, k).unacked[id], id, now, rto);
    AmpleTakes(ReliableOrdered, a, a.Keys, now, rto, budget);
    AmpleTakes(ReliableUnordered, b, b.Keys, now, rto, p.ro.left);
    PartListed(PartOf(p, k).out, Packetize(cs, q, now, rto, budget).1, k, id);
  }

  // ----- whole runs -----

  /** How many of the packets carried the message, and when the last of them went. */
  ghost function Carried(net: seq<Packet>, k: Kind, id: Id): nat {
    if net == [] then 0
    else Carried(net[..|net| - 1], k, id) + if Carries(net[|net| - 1], k, id) then 1 else 0
  }

  ghost function LastCarried(net: seq<Packet>, times: seq<Time>, k: Kind, id: Id): Option<Time>
    requires |times| == |net|
  {
    if net == [] then None
    else if Carries(net[|net| - 1], k, id) then Some(times[|net| - 1])
    else LastCarried(net[..|net| - 1], times[..|net| - 1], k, id)
  }

  function Side(link: Link, byA: bool): End {
    if byA then link.a else link.b
  }

  /** When each packet of one end was sent. */
  ghost function Times(start: Link, events: seq<Event>, byA: bool): seq<Time>
    decreases |events|
  {
    if events == [] then []
    else
      var e := events[|events| - 1];
      var before := events[..|events| - 1];
      Times(start, before, byA)
      + if e.byA == byA && Permitted(After(start, before), e, false) then TimeOf(e.call) else []
  }

  function TimeOf(call: Call): seq<Time> {
    if call.TransmitCall? then [call.now] else []
  }

  function Retries(carried: nat): nat {
    if carried == 0 then 0 else carried - 1
  }

  /** A channel's bookkeeping is what the packets sent say. */
  ghost predicate Timed(e: End, times: seq<Time>) {
    && Formed(e) && |times| == |e.net|
    && forall k: Kind, id: Id :: IsReliable(k) && id in Get(e.channels, k).unacked ==>
         BookTrue(Get(e.channels, k).unacked[id], e.net, times, k, id)
  }

  ghost predicate BookTrue(p: Pending, net: seq<Packet>, times: seq<Time>, k: Kind, id: Id)
    requires |times| == |net|
  {
    p.lastSent == LastCarried(net, times, k, id) && p.attempts == Retries(Carried(net, k, id))
  }

  lemma {:induction false} CarriedBounds(net: seq<Packet>, times: seq<Time>, k: Kind, id: Id)
    requires |times| == |net|
    ensures Carried(net, k, id) <= |net|
    ensures LastCarried(net, times, k, id).None? <==> Carried(net, k, id) == 0
    ensures (forall i :: 0 <= i < |net| ==> !Carries(net[i], k, id)) ==> Carried(net, k, id) == 0
  {
    hide Carries;
    if net != [] {
      CarriedBounds(net[..|net| - 1], times[..|net| - 1], k, id);
    }
  }

  /** A new id has not been carried yet. */
  lemma NotYetCarried(e: End, k: Kind, id: Id)
    requires Sender(e) && id == |Sent(e, k)|
    ensures forall i :: 0 <= i < |e.net| ==> !Carries(e.net[i], k, id)
  {
    forall i | 0 <= i < |e.net|
      ensures !Carries(e.net[i], k, id)
    {
      assert forall j :: 0 <= j < |e.net[i].messages| ==> FromLog(e.net[i].messages[j], e);
    }
  }

  lemma NewBook(payload: Payload, net: seq<Packet>, times: seq<Time>, k: Kind, id: Id)
    requires |times| == |net| && forall i :: 0 <= i < |net| ==> !Carries(net[i], k, id)
    ensures BookTrue(Pending(payload, None, 0), net, times, k, id)
  {
    CarriedBounds(net, times, k, id);
  }

  lemma SendTimed(me: End, k: Kind, payload: Payload, times: seq<Time>)
    requires Sender(me) && Timed(me, times) && |Sent(me, k)| + 1 < U32
    ensures Timed(SendStep(me, k, payload), times)
  {
    hide Queued, Carries, FromLog, Sender, BookTrue, Get, Send;
    SenderFormed(me);
    SenderQueued(me, k);
    var after := SendStep(me, k, payload);
    assert Get(me.channels, k).nextSend == |Sent(me, k)| by { assert Queued(Get(me.channels, k), Sent(me, k)); }
    forall j: Kind, id: Id | IsReliable(j) && id in Get(after.channels, j).unacked
      ensures BookTrue(Get(after.channels, j).unacked[id], after.net, times, j, id)
    {
      SentAfter(me, k, payload, j);
      if j == k && id == |Sent(me, k)| {
        NotYetCarried(me, k, id);
        NewBook(payload, me.net, times, k, id);
      } else {
        assert BookTrue(Get(me.channels, j).unacked[id], me.net, times, j, id);
      }
    }
  }

  lemma CarriesIsInPacket(p: Packet, k: Kind, id: Id)
    requires IsReliable(k)
    ensures Carries(p, k, id) <==> InPacket(p.messages, k, id)
  {
  }

  lemma BookAfter(p: Pending, net: seq<Packet>, times: seq<Time>, k: Kind, id: Id, sent: Packet, now: Time)
    requires |times| == |net| < U16 && IsReliable(k) && BookTrue(p, net, times, k, id)
    ensures BookTrue(if Carries(sent, k, id) then Resent(p, now) else p, net + [sent], times + [now], k, id)
  {
    hide Carries;
    CarriedBounds(net, times, k, id);
    assert (net + [sent])[..|net|] == net && (times + [now])[..|net|] == times;
  }

  lemma TransmitTimed(me: End, now: Time, rto: Time, budget: nat, times: seq<Time>)
    requires Sender(me) && Timed(me, times) && |me.net| < U16
    ensures Timed(TransmitStep(me, now, rto, budget), times + [now])
  {
    hide Queued, Carries, FromLog, Sender, BookTrue, Get, Packetize, Resent, Due;
    SenderFormed(me);
    var after := TransmitStep(me, now, rto, budget);
    var q := me.tracker.nextSequence;
    var sent := after.net[|me.net|];
    PackedInParts(me.channels, q, now, rto, budget);
    forall k: Kind, id: Id | IsReliable(k) && id in Get(after.channels, k).unacked
      ensures BookTrue(Get(after.channels, k).unacked[id], after.net, times + [now], k, id)
    {
      ReliablePart(me.channels, now, rto, budget, k);
      var c := PartOf(PartsOf(me.channels, now, rto, budget), k);
      assert Get(after.channels, k).unacked == c.unacked;
      PartListed(c.out, sent.messages, k, id);
      CarriesIsInPacket(sent, k, id);
      assert BookTrue(Get(me.channels, k).unacked[id], me.net, times, k, id);
      BookAfter(Get(me.channels, k).unacked[id], me.net, times, k, id, sent, now);
    }
  }

  /** Whatever leaves the packets and the pending messages alone leaves the bookkeeping true. */
  lemma FrameTimed(me: End, after: End, times: seq<Time>)
    requires Timed(me, times) && Formed(after) && after.net == me.net
    requires forall k: Kind, id: Id :: id in Get(after.channels, k).unacked ==>
               id in Get(me.channels, k).unacked && Get(after.channels, k).unacked[id] == Get(me.channels, k).unacked[id]
    ensures Timed(after, times)
  {
    hide BookTrue;
  }

  lemma DeliverTimed(me: End, peer: End, number: Seq, times: seq<Time>)
    requires Linked(me, peer, false) && number < |peer.net| && Timed(me, times)
    ensures Timed(DeliverStep(me, number, peer.net[number]), times)
  {
    hide Sender, Receiver, Take, Hear, HearAcks, FromLog, Marks, Timed, Received, Get;
    var p := peer.net[number];
    SenderFormed(me);
    SenderFormed(peer);
    ArrivalTrue(me, peer, number, false);
    FlowReceived(peer, me, false);
    var took := Take(me, p.messages, |p.messages|);
    TakeKeepsFlow(peer, me, p.messages, false);
    TakeIsSenderFrame(peer, me, p.messages, false);
    SenderFrame(me, took, peer, false);
    var heard := Hear(took, number);
    HearIsSenderFrame(took, number);
    SenderFrame(took, heard, peer, false);
    assert forall k: Kind :: SameSending(Get(me.channels, k), Get(took.channels, k));
    assert forall k: Kind :: SameSending(Get(took.channels, k), Get(heard.channels, k));
    FrameTimed(me, heard, times);
    HearAcksTimed(heard, p.header, times);
  }

  lemma HearAcksTimed(e: End, h: Option<Header>, times: seq<Time>)
    requires Sender(e) && Timed(e, times)
    ensures Timed(HearAcks(e, h), times)
  {
    hide BookTrue, RetireAll, Queued, FromLog, ReportedOnce, Carries, Get, OnAckHeader;
    if h.Some? {
      var t := OnAckHeader(e.tracker, h.value);
      RetireAllKeeps(e.channels, t.newlyAcked, e.net);
      FrameTimed(e, HearAcks(e, h), times);
    }
  }

  lemma ActTimed(me: End, peer: End, call: Call, times: seq<Time>)
    requires Linked(me, peer, false) && Timed(me, times) && Formed(me) && Admissible(me, peer, call, false)
    ensures Timed(Act(me, peer, call), times + TimeOf(call))
  {
    hide Sender, Receiver, Timed, SendStep, TransmitStep, DeliverStep, GiveUpStep;
    match call
    case SendCall(k, p) =>
      SendTimed(me, k, p, times);
      assert times + [] == times;
    case TransmitCall(now, rto, budget) =>
      TransmitTimed(me, now, rto, budget, times);
    case DeliverCall(number) =>
      DeliverTimed(me, peer, number, times);
      assert times + [] == times;
    case GiveUpCall(q) =>
      GiveUpTimed(me, q, times);
      assert times + [] == times;
  }

  lemma GiveUpTimed(me: End, q: Seq, times: seq<Time>)
    requires Timed(me, times)
    ensures Timed(GiveUpStep(me, q), times)
  {
    hide BookTrue;
    assert forall k: Kind :: Get(GiveUpStep(me, q).channels, k) == Get(me.channels, k);
    FrameTimed(me, GiveUpStep(me, q), times);
  }

  /** Over every run, what a message's wait is reckoned from is when a packet last carried
      it, and its attempts are the packets that carried it after the first. */
  lemma {:induction false} RunTimed(start: Link, events: seq<Event>, byA: bool)
    requires Fresh(start) && Runs(start, events, false)
    ensures Timed(Side(After(start, events), byA), Times(start, events, byA))
    decreases |events|
  {
    hide Timed, Act, Fresh, Linked;
    if events == [] {
      StartsTimed(start, byA);
    } else {
      var before, e := events[..|events| - 1], events[|events| - 1];
      RunTimed(start, before, byA);
      RunKeeps(start, before, false);
      var link := After(start, before);
      LinkedFlip(link.a, link.b, false);
      if e.byA == byA {
        ActTimed(Side(link, byA), Side(link, !byA), e.call, Times(start, before, byA));
      } else {
        assert Times(start, events, byA) == Times(start, before, byA);
      }
    }
  }

  lemma StartsTimed(start: Link, byA: bool)
    requires Fresh(start)
    ensures Timed(Side(start, byA), [])
  {
  }

  /** One more packet sent by one end of a run. */
  ghost function NextPacket(start: Link, events: seq<Event>, byA: bool, now: Time, rto: Time, budget: nat): Packet
    requires Formed(Side(After(start, events), byA))
  {
    TransmitStep(Side(After(start, events), byA), now, rto, budget).net[|Side(After(start, events), byA).net|]
  }

  lemma NextPacketIs(start: Link, events: seq<Event>, byA: bool, now: Time, rto: Time, budget: nat)
    requires Fresh(start) && Runs(start, events, false) && |Side(After(start, events), byA).net| < U16
    ensures var me := Side(After(start, events), byA);
            && Formed(me)
            && Runs(start, events + [Event(byA, TransmitCall(now, rto, budget))], false)
            && Side(After(start, events + [Event(byA, TransmitCall(now, rto, budget))]), byA).net
               == me.net + [NextPacket(start, events, byA, now, rto, budget)]
            && NextPacket(start, events, byA, now, rto, budget).messages
               == Packetize(me.channels, me.tracker.nextSequence, now, rto, budget).1
  {
    hide Packetize, Linked, Fresh;
    RunKeeps(start, events, false);
    LinkedFormed(After(start, events).a, After(start, events).b, false);
    var more := events + [Event(byA, TransmitCall(now, rto, budget))];
    assert more[..|more| - 1] == events;
  }

  lemma LinkedFormed(a: End, b: End, uncapped: bool)
    requires Linked(a, b, uncapped)
    ensures Sender(a) && Sender(b) && Formed(a) && Formed(b)
  {
    SenderFormed(a);
    SenderFormed(b);
  }

  /** Over every run, exactly which of the messages not yet acknowledged the next packet
      carries: those past their wait and jitter since the last packet that carried them, and
      not crowded out by one no newer. So none goes again within its wait, and each does once
      half as long again has passed and there is room for everything. */
  lemma CarriedAgain(start: Link, events: seq<Event>, byA: bool, k: Kind, id: Id, now: Time, rto: Time, budget: nat)
    requires Fresh(start) && Runs(start, events, false) && |Side(After(start, events), byA).net| < U16
    requires IsReliable(k) && rto < 0x400_0000_0000_0000
    requires Formed(Side(After(start, events), byA)) && id in Get(Side(After(start, events), byA).channels, k).unacked
    ensures var me := Side(After(start, events), byA);
            var times := Times(start, events, byA);
            && |times| == |me.net|
            && var last := LastCarried(me.net, times, k, id);
            var tries := Retries(Carried(me.net, k, id));
            var p := NextPacket(start, events, byA, now, rto, budget);
            && (Carries(p, k, id) <==>
                  Ripe(last, tries, id, now, rto) && !Crowded(me.channels, p.messages, k, id, now, rto, budget))
            && (Early(last, tries, now, rto) ==> !Carries(p, k, id))
            && (Late(last, tries, now, rto)
                && Backlog(me.channels, ReliableOrdered) + Backlog(me.channels, ReliableUnordered) <= budget ==>
                  Carries(p, k, id))
  {
    hide Packetize, Crowded, Early, Late, Ripe, Carries, InPacket, Backlog, Fresh, Runs, After, Get;
    RunTimed(start, events, byA);
    NextPacketIs(start, events, byA, now, rto, budget);
    var me := Side(After(start, events), byA);
    var times := Times(start, events, byA);
    var p := NextPacket(start, events, byA, now, rto, budget);
    assert BookTrue(Get(me.channels, k).unacked[id], me.net, times, k, id);
    CarriesIsInPacket(p, k, id);
    PacketOnTime(me.channels, me.tracker.nextSequence, now, rto, budget, k, id);
    RipeBetween(LastCarried(me.net, times, k, id), Retries(Carried(me.net, k, id)), id, now, rto);
    if Ripe(LastCarried(me.net, times, k, id), Retries(Carried(me.net, k, id)), id, now, rto)
       && Backlog(me.channels, ReliableOrdered) + Backlog(me.channels, ReliableUnordered) <= budget {
      AmplePacket(me.channels, me.tracker.nextSequence, now, rto, budget, k, id);
    }
  }

  // ----- recovery -----

  /** Every unacknowledged message of both reliable channels has waited long enough. */
  ghost predicate AllLate(e: End, times: seq<Time>, now: Time, rto: Time)
    requires Formed(e) && |times| == |e.net|
  {
    forall k: Kind, id: Id :: IsReliable(k) && id in Get(e.channels, k).unacked ==>
      Late(LastCarried(e.net, times, k, id), Retries(Carried(e.net, k, id)), now, rto)
  }

  lemma {:induction false} RunsAnyway(start: Link, events: seq<Event>)
    requires Runs(start, events, true)
    ensures Runs(start, events, false)
    decreases |events|
  {
    hide After, Permitted;
    if events != [] {
      RunsAnyway(start, events[..|events| - 1]);
      PermittedAnyway(After(start, events[..|events| - 1]), events[|events| - 1], true);
    }
  }

  /** The sender sends one packet and the receiver takes it. */
  lemma SentThenArrived(link: Link, now: Time, rto: Time, budget: nat)
    requires Linked(link.a, link.b, true) && |link.a.net| < U16
    ensures Formed(link.a) && Formed(link.b)
    ensures var mid := Happen(link, Event(true, TransmitCall(now, rto, budget)));
            && |mid.a.net| == |link.a.net| + 1
            && var end := Happen(mid, Event(false, DeliverCall(|link.a.net|)));
            && Formed(end.a) && Formed(end.b)
            && end.a == mid.a && end.a.log == link.a.log && |link.a.net| in end.b.got
            && forall k: Kind :: Get(end.a.channels, k).unacked.Keys == Get(link.a.channels, k).unacked.Keys
  {
    hide Packetize, Take, Queued, Receiver, Get, SameReceiving;
    LinkedFormed(link.a, link.b, true);
    TransmitKeepsSender(link.a, now, rto, budget);
    var mid := Happen(link, Event(true, TransmitCall(now, rto, budget)));
    assert RepackedAll(link.a.channels, mid.a.channels, link.a.log);
    forall k: Kind
      ensures Get(mid.a.channels, k).unacked.Keys == Get(link.a.channels, k).unacked.Keys
    {
      assert Repacked(Get(link.a.channels, k), Get(mid.a.channels, k), link.a.log[Index(k)]);
    }
  }

  lemma EverythingHeld(s: End, r: End, p: Packet, q: Seq)
    requires Flow(s, r, true) && Formed(s) && Formed(r)
    requires q in r.got && q < |s.net| && s.net[q] == p
    requires forall k: Kind, id: Id :: IsReliable(k) && id in Get(s.channels, k).unacked ==> Carries(p, k, id)
    ensures AllHeld(s, r)
  {
    hide Carries, Get, Held, Sender, Receiver;
  }

  /** One packet sent by the first end and taken by the second. */
  function Exchanged(number: nat, now: Time, rto: Time, budget: nat): seq<Event> {
    [Event(true, TransmitCall(now, rto, budget)), Event(false, DeliverCall(number))]
  }

  lemma ExchangeReaches(start: Link, events: seq<Event>, now: Time, rto: Time, budget: nat)
    requires Fresh(start) && Runs(start, events, true) && |After(start, events).a.net| < U16
    requires Runs(start, events + Exchanged(|After(start, events).a.net|, now, rto, budget), true)
    ensures var link := After(start, events);
            var end := After(start, events + Exchanged(|link.a.net|, now, rto, budget));
            && Linked(end.a, end.b, true) && Formed(end.a) && Formed(end.b) && Formed(link.a)
            && end.a.net == link.a.net + [NextPacket(start, events, true, now, rto, budget)]
            && end.a.log == link.a.log && |link.a.net| in end.b.got
            && forall k: Kind :: Get(end.a.channels, k).unacked.Keys == Get(link.a.channels, k).unacked.Keys
  {
    hide Fresh, Get, Linked, Happen, NextPacket;
    var link := After(start, events);
    var more := events + [Exchanged(|link.a.net|, now, rto, budget)[0]];
    var all := events + Exchanged(|link.a.net|, now, rto, budget);
    assert all[..|all| - 1] == more && more[..|more| - 1] == events;
    RunsAnyway(start, events);
    NextPacketIs(start, events, true, now, rto, budget);
    RunKeeps(start, events, true);
    RunKeeps(start, all, true);
    LinkedFormed(After(start, all).a, After(start, all).b, true);
    SentThenArrived(link, now, rto, budget);
    PermittedAnyway(link, more[|events|], true);
    PermittedAnyway(After(start, more), all[|more|], true);
  }

  /** Whatever the network did before, one packet sent late enough, with room for everything
      unacknowledged, repairs all of it by arriving: both reliable channels have then
      delivered everything sent, the ordered one in order and the unordered one once. */
  lemma OnePacketRepairs(start: Link, events: seq<Event>, now: Time, rto: Time, budget: nat)
    requires Fresh(start) && Runs(start, events, true) && |After(start, events).a.net| < U16
    requires rto < 0x400_0000_0000_0000 && Formed(After(start, events).a)
    requires var a := After(start, events).a;
             && |Times(start, events, true)| == |a.net|
             && AllLate(a, Times(start, events, true), now, rto)
             && Backlog(a.channels, ReliableOrdered) + Backlog(a.channels, ReliableUnordered) <= budget
    requires Runs(start, events + Exchanged(|After(start, events).a.net|, now, rto, budget), true)
    ensures var link := After(start, events + Exchanged(|After(start, events).a.net|, now, rto, budget));
            && Formed(link.a) && Formed(link.b)
            && link.a.log == After(start, events).a.log
            && Payloads(Output(link.b, ReliableOrdered)) == Sent(link.a, ReliableOrdered)
            && Once(Output(link.b, ReliableUnordered))
            && forall id: Id :: Delivered(Output(link.b, ReliableUnordered), id) <==>
                 id < |Sent(link.a, ReliableUnordered)|
  {
    hide Fresh, Late, Carries, Get, Backlog, Payloads, Once, Delivered, Timed, LastCarried, Carried, After, Runs,
      Sender, Receiver, TakenIn, Conserved, Exchanged, NextPacket;
    ExchangeReaches(start, events, now, rto, budget);
    RunsAnyway(start, events);
    var link := After(start, events);
    var end := After(start, events + Exchanged(|link.a.net|, now, rto, budget));
    var p := NextPacket(start, events, true, now, rto, budget);
    forall k: Kind, id: Id | IsReliable(k) && id in Get(end.a.channels, k).unacked
      ensures Carries(p, k, id)
    {
      assert id in Get(link.a.channels, k).unacked;
      CarriedAgain(start, events, true, k, id, now, rto, budget);
    }
    EverythingHeld(end.a, end.b, p, |link.a.net|);
    HeldDelivers(end.a, end.b);
  }
}
