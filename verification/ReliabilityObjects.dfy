/** `SequenceBuffer`, `AckTracker` and `ChannelSet` as the objects they are: every method
    updates its fields in place and is tied to the value-level call it performs. */
module ReliabilityObjects {
  import opened Common
  import opened Sequences
  import Acks
  import C = Channels

  class SequenceBuffer<T(==)> {
    var entries: Ring<T>

    constructor (capacity: nat)
      requires capacity > 0
      ensures entries == seq(capacity, i => None)
    {
      entries := seq(capacity, i => None);
    }

    method Insert(s: Seq, value: T)
      requires |entries| > 0
      modifies this
      ensures entries == RingPut(old(entries), s, value)
    {
      entries := entries[s % |entries| := Some((s, value))];
    }

    method Get(s: Seq) returns (r: Option<T>)
      requires |entries| > 0
      ensures r == RingGet(entries, s)
    {
      r := None;
      match entries[s % |entries|] {
        case Some(entry) =>
          if entry.0 == s {
            r := Some(entry.1);
          }
        case None =>
      }
    }
  }

  class AckTracker {
    var nextSequence: Seq
    var remoteHighest: Option<Seq>
    const received: SequenceBuffer<()>
    const sent: SequenceBuffer<Acks.SentPacket>
    var newlyAcked: seq<Seq>

    ghost predicate Valid()
      reads this, received, sent
    {
      Acks.Sized(View()) && received as object != sent as object
    }

    ghost function View(): Acks.Tracker
      reads this, received, sent
    {
      Acks.Tracker(nextSequence, remoteHighest, received.entries, sent.entries, newlyAcked)
    }

    constructor (capacity: nat)
      requires capacity > 0
      ensures Valid() && View() == Acks.NewTracker(capacity)
    {
      nextSequence, remoteHighest, newlyAcked := 0, None, [];
      received := new SequenceBuffer(capacity);
      sent := new SequenceBuffer(capacity);
    }

    method BeginSend(now: Time) returns (s: Seq)
      requires Valid()
      modifies this, sent
      ensures Valid() && s == old(nextSequence) && View() == Acks.BeginSend(old(View()), now)
    {
      s := nextSequence;
      nextSequence := (nextSequence + 1) % U16;
      sent.Insert(s, Acks.SentPacket(now, false));
    }

    method OnReceive(s: Seq)
      requires Valid()
      modifies this, received
      ensures Valid() && View() == Acks.Receive(old(View()), s)
    {
      match remoteHighest {
        case Some(h) =>
          if IsNewer(s, h) {
            remoteHighest := Some(s);
          }
        case None => remoteHighest := Some(s);
      }
      received.Insert(s, ());
    }

    method MakeHeader() returns (h: Acks.Header)
      requires Valid()
      ensures h == Acks.AckHeader(View())
    {
      if remoteHighest.None? {
        return Acks.Header(0, seq(Acks.ACK_BITS, i => false));
      }
      var ack := remoteHighest.value;
      var bits: seq<bool> := seq(Acks.ACK_BITS, i => false);
      var i := 0;
      while i < Acks.ACK_BITS
        invariant 0 <= i <= |bits| == Acks.ACK_BITS
        invariant forall k :: 0 <= k < i ==> bits[k] == Contains(received.entries, Wire(ack - 1 - k))
        invariant forall k :: i <= k < Acks.ACK_BITS ==> !bits[k]
      {
        var entry := received.Get(Wire(ack - 1 - i));
        if entry.Some? {
          bits := bits[i := true];
        }
        i := i + 1;
      }
      h := Acks.Header(ack, bits);
    }

    method AckOne(s: Seq)
      requires Valid()
      modifies this, sent
      ensures Valid() && View() == Acks.AckOne(old(View()), s)
    {
      var entry := sent.Get(s);
      if entry.None? {
        return;
      }
      if entry.value.acked {
        return;
      }
      sent.Insert(s, entry.value.(acked := true));
      newlyAcked := newlyAcked + [s];
    }

    method OnAckHeader(h: Acks.Header)
      requires Valid()
      modifies this, sent
      ensures Valid() && View() == Acks.OnAckHeader(old(View()), h)
    {
      AckOne(h.ack);
      ghost var first := View();
      var i := 0;
      while i < Acks.ACK_BITS
        invariant 0 <= i <= Acks.ACK_BITS
        invariant Valid() && View() == Acks.AckBitsFrom(first, h, i)
      {
        if h.bits[i] {
          AckOne(Wire(h.ack - 1 - i));
        }
        i := i + 1;
      }
    }

    method DrainNewlyAcked() returns (drained: seq<Seq>)
      requires Valid()
      modifies this
      ensures Valid() && drained == old(newlyAcked) && View() == old(View()).(newlyAcked := [])
    {
      drained := newlyAcked;
      newlyAcked := [];
    }
  }

  class ChannelSet {
    var channels: seq<C.Channel>
    var inPacket: map<Seq, seq<(C.Kind, C.Id)>>
    const maxBuffered: nat

    ghost predicate Valid()
      reads this
    {
      |channels| == 4
    }

    ghost function View(): C.ChannelSet
      reads this
    {
      C.ChannelSet(channels, inPacket, maxBuffered)
    }

    constructor (maxBuffered: nat)
      ensures Valid() && View() == C.NewChannels(maxBuffered)
    {
      channels := [C.NEW_CHANNEL, C.NEW_CHANNEL, C.NEW_CHANNEL, C.NEW_CHANNEL];
      inPacket := map[];
      this.maxBuffered := maxBuffered;
    }

    method Send(kind: C.Kind, payload: C.Payload) returns (id: C.Id)
      requires Valid()
      modifies this
      ensures Valid() && View() == C.Send(old(View()), kind, payload)
      ensures id == C.Get(old(View()), kind).nextSend
    {
      var s := channels[C.Index(kind)];
      id := s.nextSend;
      s := s.(nextSend := (id + 1) % U32);
      if C.IsReliable(kind) {
        s := s.(unacked := s.unacked[id := C.Pending(payload, None, 0)]);
      } else {
        s := s.(queue := s.queue + [(id, payload)]);
      }
      channels := channels[C.Index(kind) := s];
    }

    /** One reliable channel's share of a packet. */
    method PackReliable(kind: C.Kind, now: Time, rto: Time, budget: nat)
      returns (out: seq<C.Message>, recorded: seq<(C.Kind, C.Id)>, left: nat)
      requires Valid() && C.IsReliable(kind)
      modifies this
      ensures Valid() && inPacket == old(inPacket)
      ensures var packed := C.PackChannel(C.Get(old(View()), kind), kind, now, rto, budget);
              View() == C.Set(old(View()), kind, packed.channel) && out == packed.out && left == packed.left
      ensures recorded == C.Recorded(out)
    {
      var s := channels[C.Index(kind)];
      ghost var whole := C.CollectReliable(kind, s.unacked, s.unacked.Keys, now, rto, budget);
      var unacked, rest := s.unacked, s.unacked.Keys;
      out, recorded, left := [], [], budget;
      while rest != {}
        invariant rest <= unacked.Keys
        invariant var c := C.CollectReliable(kind, unacked, rest, now, rto, left);
                  whole == C.Collected(c.unacked, out + c.out, c.left)
        invariant recorded == C.Recorded(out)
        decreases |rest|
      {
        var id := Least(rest);
        var pending := unacked[id];
        rest := rest - {id};
        if !C.Due(pending, id, now, rto) {
          continue;
        }
        if |pending.payload| > left {
          assert out + [] == out;
          rest := {};
          break;
        }
        left := left - |pending.payload|;
        unacked := unacked[id := C.Resent(pending, now)];
        out := out + [C.Message(kind, id, pending.payload)];
        assert out[..|out| - 1] + [out[|out| - 1]] == out;
        recorded := recorded + [(kind, id)];
      }
      assert out + [] == out;
      channels := channels[C.Index(kind) := s.(unacked := unacked)];
    }

    /** One unreliable channel's share of a packet. */
    method PackQueue(kind: C.Kind, budget: nat) returns (out: seq<C.Message>, left: nat)
      requires Valid() && !C.IsReliable(kind)
      modifies this
      ensures Valid() && inPacket == old(inPacket)
      ensures C.Recorded(out) == []
      ensures forall now, rto ::
                var packed := C.PackChannel(C.Get(old(View()), kind), kind, now, rto, budget);
                View() == C.Set(old(View()), kind, packed.channel) && out == packed.out && left == packed.left
    {
      var s := channels[C.Index(kind)];
      var queued := s.queue;
      ghost var whole := C.CollectQueue(kind, queued, budget);
      channels := channels[C.Index(kind) := s.(queue := [])];
      out, left := [], budget;
      var i := 0;
      assert queued[0..] == queued && [] + whole.0 == whole.0;
      while i < |queued|
        invariant 0 <= i <= |queued|
        invariant var c := C.CollectQueue(kind, queued[i..], left);
                  whole.0 == out + c.0 && whole.1 == c.1
        invariant C.Recorded(out) == []
      {
        ghost var rest := C.CollectQueue(kind, queued[i..], left).0;
        var (id, payload) := queued[i];
        assert queued[i..][1..] == queued[i + 1..];
        if |payload| <= left {
          left := left - |payload|;
          ghost var more := [C.Message(kind, id, payload)];
          assert out + rest == out + more + C.CollectQueue(kind, queued[i + 1..], left).0;
          out := out + [C.Message(kind, id, payload)];
          assert out[..|out| - 1] + [out[|out| - 1]] == out;
        }
        i := i + 1;
      }
      assert out + [] == out;
    }

    method Packetize(packet: Seq, now: Time, rto: Time, budget: nat) returns (out: seq<C.Message>)
      requires Valid()
      modifies this
      ensures Valid() && (View(), out) == C.Packetize(old(View()), packet, now, rto, budget)
    {
      var left := budget;
      out := [];
      var recorded: seq<(C.Kind, C.Id)> := [];
      ghost var before := View();
      var n := 0;
      while n < 4
        invariant 0 <= n <= 4
        invariant Valid() && C.PackFrom(before, n, now, rto, budget) == C.Packing(View(), out, left)
        invariant recorded == C.Recorded(out)
      {
        var kind := C.ORDER[n];
        var more: seq<C.Message>;
        var listed: seq<(C.Kind, C.Id)> := [];
        if C.IsReliable(kind) {
          more, listed, left := PackReliable(kind, now, rto, left);
        } else {
          more, left := PackQueue(kind, left);
        }
        RecordedConcat(out, more);
        recorded := recorded + listed;
        out := out + more;
        n := n + 1;
      }
      if recorded != [] {
        inPacket := inPacket[packet := recorded];
      }
    }

    method OnPacketAcked(packet: Seq)
      requires Valid()
      modifies this
      ensures Valid() && View() == C.OnPacketAcked(old(View()), packet)
    {
      if packet !in inPacket {
        return;
      }
      var entries := inPacket[packet];
      inPacket := inPacket - {packet};
      ghost var before := View();
      var i := 0;
      while i < |entries|
        invariant 0 <= i <= |entries|
        invariant Valid() && View() == C.RetireFrom(before, entries[..i])
      {
        assert entries[..i + 1][..i] == entries[..i];
        var (kind, id) := entries[i];
        var s := channels[C.Index(kind)];
        channels := channels[C.Index(kind) := s.(unacked := s.unacked - {id})];
        i := i + 1;
      }
      assert entries[..|entries|] == entries;
    }

    method OnPacketLost(packet: Seq)
      requires Valid()
      modifies this
      ensures Valid() && View() == C.OnPacketLost(old(View()), packet)
    {
      inPacket := inPacket - {packet};
    }

    method OnReceive(m: C.Message) returns (out: seq<C.Message>)
      requires Valid()
      modifies this
      ensures Valid() && (View(), out) == C.OnReceive(old(View()), m)
    {
      var s := channels[C.Index(m.channel)];
      out := [];
      match m.channel {
        case Unreliable =>
          out := [m];
        case UnreliableSequenced =>
          if C.SequencedNewer(s.highest, m.id) {
            s := s.(highest := Some(m.id));
            out := [m];
          }
        case ReliableUnordered =>
          if !(m.id < s.nextExpect || m.id in s.seenAbove) {
            out := [m];
            if m.id == s.nextExpect {
              s := s.(nextExpect := s.nextExpect + 1);
              s := AbsorbRun(s);
            } else if |s.seenAbove| < maxBuffered {
              s := s.(seenAbove := s.seenAbove + {m.id});
            }
          }
        case ReliableOrdered =>
          if !(m.id < s.nextExpect || m.id in s.ordered) {
            if m.id == s.nextExpect {
              s := s.(nextExpect := s.nextExpect + 1);
              var released;
              s, released := ReleaseRun(s);
              out := [m] + released;
            } else if |s.ordered| < maxBuffered {
              s := s.(ordered := s.ordered[m.id := m.payload]);
            }
          }
      }
      channels := channels[C.Index(m.channel) := s];
    }
  }

  lemma {:induction false} RecordedConcat(a: seq<C.Message>, b: seq<C.Message>)
    ensures C.Recorded(a + b) == C.Recorded(a) + C.Recorded(b)
  {
    if b == [] {
      assert a + b == a;
    } else {
      RecordedConcat(a, b[..|b| - 1]);
      assert (a + b)[..|a + b| - 1] == a + b[..|b| - 1];
    }
  }

  method AbsorbRun(start: C.Channel) returns (s: C.Channel)
    ensures s == C.Absorb(start)
  {
    s := start;
    while s.nextExpect < U32 && s.nextExpect in s.seenAbove
      invariant C.Absorb(s) == C.Absorb(start)
      decreases |s.seenAbove|
    {
      s := s.(seenAbove := s.seenAbove - {s.nextExpect}, nextExpect := s.nextExpect + 1);
    }
  }

  method ReleaseRun(start: C.Channel) returns (s: C.Channel, out: seq<C.Message>)
    ensures (s, out) == C.Release(start)
  {
    s, out := start, [];
    ghost var whole := C.Release(start);
    assert [] + whole.1 == whole.1;
    while s.nextExpect < U32 && s.nextExpect in s.ordered
      invariant whole.0 == C.Release(s).0 && whole.1 == out + C.Release(s).1
      decreases |s.ordered|
    {
      var m := C.Message(C.ReliableOrdered, s.nextExpect, s.ordered[s.nextExpect]);
      ghost var rest := C.Release(s).1;
      assert |s.ordered - {s.nextExpect}| < |s.ordered| by {
        var smaller := s.ordered - {s.nextExpect};
        assert smaller.Keys == s.ordered.Keys - {s.nextExpect};
        assert |smaller.Keys| == |smaller| && |s.ordered.Keys| == |s.ordered|;
      }
      s := s.(ordered := s.ordered - {s.nextExpect}, nextExpect := s.nextExpect + 1);
      assert out + rest == out + [m] + C.Release(s).1;
      out := out + [m];
    }
    assert out + [] == out;
  }
}
