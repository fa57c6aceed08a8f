/** Acknowledgement tracking: one header reports the highest sequence received and the 32
    before it; the sender reports each acknowledged sequence once. */
module Acks {
  import opened Common
  import opened Sequences

  const ACK_BITS: nat := 32

  /** The 32-bit field of a header, as its bits. */
  type AckBits = b: seq<bool> | |b| == 32 witness seq(32, i => false)

  datatype Header = Header(ack: Seq, bits: AckBits)

  datatype SentPacket = SentPacket(sentAt: Time, acked: bool)

  datatype Tracker = Tracker(
    nextSequence: Seq,
    remoteHighest: Option<Seq>,
    received: Ring<()>,
    sent: Ring<SentPacket>,
    newlyAcked: seq<Seq>)

  predicate Sized(t: Tracker) {
    |t.received| > 0 && |t.sent| > 0
  }

  function NewTracker(capacity: nat): (t: Tracker)
    requires capacity > 0
    ensures Sized(t)
  {
    Tracker(0, None, seq(capacity, i => None), seq(capacity, i => None), [])
  }

  function BeginSend(t: Tracker, now: Time): Tracker
    requires Sized(t)
  {
    t.(nextSequence := Wire(t.nextSequence + 1),
       sent := RingPut(t.sent, t.nextSequence, SentPacket(now, false)))
  }

  function Receive(t: Tracker, s: Seq): Tracker
    requires Sized(t)
  {
    t.(remoteHighest := if t.remoteHighest.Some? && !IsNewer(s, t.remoteHighest.value)
                        then t.remoteHighest else Some(s),
       received := RingPut(t.received, s, ()))
  }

  function AckHeader(t: Tracker): Header
    requires Sized(t)
  {
    match t.remoteHighest
    case None => Header(0, seq(ACK_BITS, i => false))
    case Some(ack) =>
      Header(ack, seq(ACK_BITS, i requires 0 <= i < ACK_BITS => Contains(t.received, Wire(ack - 1 - i))))
  }

  function AckOne(t: Tracker, s: Seq): (r: Tracker)
    requires Sized(t)
    ensures Sized(r)
  {
    match RingGet(t.sent, s)
    case None => t
    case Some(p) =>
      if p.acked then t
      else t.(sent := RingPut(t.sent, s, p.(acked := true)), newlyAcked := t.newlyAcked + [s])
  }

  function AckBitsFrom(t: Tracker, h: Header, k: nat): (r: Tracker)
    requires Sized(t) && k <= ACK_BITS
    ensures Sized(r)
  {
    if k == 0 then t
    else
      var prior := AckBitsFrom(t, h, k - 1);
      if h.bits[k - 1] then AckOne(prior, Wire(h.ack - k)) else prior
  }

  function OnAckHeader(t: Tracker, h: Header): (r: Tracker)
    requires Sized(t)
    ensures Sized(r)
  {
    AckBitsFrom(AckOne(t, h.ack), h, ACK_BITS)
  }

  /** The sequences a header acknowledges. */
  predicate Marks(h: Header, s: Seq) {
    s == h.ack || exists i: nat :: i < ACK_BITS && h.bits[i] && s == Wire(h.ack - 1 - i)
  }

  // ----- soundness -----

  /** What the receiving half may claim: only sequences that arrived. */
  ghost predicate ReceivedOnly(t: Tracker, got: set<Seq>)
    requires Sized(t)
  {
    && (t.remoteHighest.None? <==> got == {})
    && (t.remoteHighest.Some? ==> t.remoteHighest.value in got)
    && (forall s: Seq :: Contains(t.received, s) ==> s in got)
  }

  lemma ReceiveSound(t: Tracker, got: set<Seq>, s: Seq)
    requires Sized(t) && ReceivedOnly(t, got)
    ensures ReceivedOnly(Receive(t, s), got + {s})
  {
    forall q: Seq ensures Contains(RingPut(t.received, s, ()), q) ==> q in got + {s} {
      RingPutGet(t.received, s, (), q);
    }
  }

  /** Once something has arrived, a header marks only sequences that arrived. */
  lemma HeaderSound(t: Tracker, got: set<Seq>, s: Seq)
    requires Sized(t) && ReceivedOnly(t, got) && got != {}
    requires Marks(AckHeader(t), s)
    ensures s in got
  {
  }

  /** A header marks only sequences that arrived exactly when something has: before the first
      receipt it acknowledges packet 0. */
  lemma HeaderSoundExactly(t: Tracker, got: set<Seq>)
    requires Sized(t) && ReceivedOnly(t, got)
    ensures (forall s: Seq :: Marks(AckHeader(t), s) ==> s in got) <==> got != {}
  {
    if got == {} {
      assert Marks(AckHeader(t), 0);
    }
    forall s: Seq | Marks(AckHeader(t), s) && got != {}
      ensures s in got
    {
      HeaderSound(t, got, s);
    }
  }

  /** What the sending half remembers after `count` packets, having reported `reported`:
      an entry is flagged exactly when it was reported. */
  ghost predicate ReportedOnce(t: Tracker, count: nat, reported: set<Seq>)
    requires Sized(t)
  {
    && t.nextSequence == Wire(count)
    && (forall s: Seq :: RingGet(t.sent, s).Some? ==>
          s < count && (RingGet(t.sent, s).value.acked <==> s in reported))
    && (forall s: Seq :: s in reported ==> s < count)
  }

  lemma BeginSendKeeps(t: Tracker, count: nat, reported: set<Seq>, now: Time)
    requires Sized(t) && ReportedOnce(t, count, reported) && count < U16
    ensures ReportedOnce(BeginSend(t, now), count + 1, reported)
  {
    forall q: Seq {
      RingPutGet(t.sent, t.nextSequence, SentPacket(now, false), q);
    }
  }

  function Elements(q: seq<Seq>): set<Seq> {
    set s | s in q
  }

  /** `later` extends `earlier`'s report by `added`: pairwise distinct, none of them
      reported before. */
  ghost predicate Reports(earlier: Tracker, later: Tracker, reported: set<Seq>, added: seq<Seq>) {
    && later.newlyAcked == earlier.newlyAcked + added
    && (forall i, j :: 0 <= i < j < |added| ==> added[i] != added[j])
    && (forall s :: s in added ==> s !in reported)
  }

  lemma AckOneReports(t: Tracker, count: nat, reported: set<Seq>, s: Seq)
    requires Sized(t) && ReportedOnce(t, count, reported)
    ensures var newly := RingGet(t.sent, s).Some? && s !in reported;
            && ReportedOnce(AckOne(t, s), count, if newly then reported + {s} else reported)
            && AckOne(t, s).newlyAcked == t.newlyAcked + (if newly then [s] else [])
            && (forall q: Seq :: RingGet(AckOne(t, s).sent, q).Some? <==> RingGet(t.sent, q).Some?)
  {
    if RingGet(t.sent, s).Some? {
      var p := RingGet(t.sent, s).value;
      assert t.sent[s % |t.sent|] == Some((s, p));
      forall q: Seq {
        RingPutGet(t.sent, s, p.(acked := true), q);
      }
    }
  }

  /** A header reports exactly the marked sequences that are still remembered and were
      never reported, each once. */
  ghost predicate ReportsMarked(t: Tracker, later: Tracker, count: nat, reported: set<Seq>, added: seq<Seq>,
                                marked: set<Seq>)
    requires Sized(t) && Sized(later)
  {
    && Reports(t, later, reported, added)
    && (forall s: Seq :: s in added <==> s in marked && RingGet(t.sent, s).Some? && s !in reported)
    && ReportedOnce(later, count, reported + Elements(added))
    && (forall q: Seq :: RingGet(later.sent, q).Some? <==> RingGet(t.sent, q).Some?)
  }

  lemma AckNext(t: Tracker, mid: Tracker, count: nat, reported: set<Seq>, added: seq<Seq>, marked: set<Seq>, s: Seq)
    returns (more: seq<Seq>)
    requires Sized(t) && Sized(mid)
    requires ReportsMarked(t, mid, count, reported, added, marked)
    ensures ReportsMarked(t, AckOne(mid, s), count, reported, more, marked + {s})
  {
    AckOneReports(mid, count, reported + Elements(added), s);
    var newly := RingGet(mid.sent, s).Some? && s !in reported + Elements(added);
    more := added + if newly then [s] else [];
    assert Elements(more) == if newly then Elements(added) + {s} else Elements(added);
    assert reported + Elements(more) ==
           if newly then reported + Elements(added) + {s} else reported + Elements(added);
  }

  ghost function MarkedBy(h: Header, k: nat): set<Seq>
    requires k <= ACK_BITS
  {
    if k == 0 then {h.ack}
    else MarkedBy(h, k - 1) + if h.bits[k - 1] then {Wire(h.ack - k)} else {}
  }

  lemma {:induction false} MarkedIsMarks(h: Header, k: nat, s: Seq)
    requires k <= ACK_BITS
    ensures s in MarkedBy(h, k) <==>
            s == h.ack || exists i: nat :: i < k && h.bits[i] && s == Wire(h.ack - 1 - i)
  {
    if k > 0 {
      MarkedIsMarks(h, k - 1, s);
      if h.bits[k - 1] {
        assert h.ack - k == h.ack - 1 - (k - 1);
      }
    }
  }

  lemma {:induction false} AckBitsReport(t: Tracker, h: Header, count: nat, reported: set<Seq>, k: nat)
    returns (added: seq<Seq>)
    requires Sized(t) && ReportedOnce(t, count, reported) && k <= ACK_BITS
    ensures ReportsMarked(t, AckBitsFrom(AckOne(t, h.ack), h, k), count, reported, added, MarkedBy(h, k))
  {
    hide ReportedOnce, AckOne;
    if k == 0 {
      assert reported + Elements([]) == reported;
      added := AckNext(t, t, count, reported, [], {}, h.ack);
      assert {} + {h.ack} == MarkedBy(h, 0);
    } else {
      added := AckBitsReport(t, h, count, reported, k - 1);
      if h.bits[k - 1] {
        added := AckNext(t, AckBitsFrom(AckOne(t, h.ack), h, k - 1), count, reported, added,
                         MarkedBy(h, k - 1), Wire(h.ack - k));
      } else {
        assert MarkedBy(h, k) == MarkedBy(h, k - 1);
      }
    }
  }

  /** Processing a header reports exactly the sequences it marks that were sent, are still
      remembered and were never reported, each once; nothing reported before recurs. */
  lemma AckHeaderReports(t: Tracker, h: Header, count: nat, reported: set<Seq>) returns (added: seq<Seq>)
    requires Sized(t) && ReportedOnce(t, count, reported)
    ensures Reports(t, OnAckHeader(t, h), reported, added)
    ensures forall s: Seq :: s in added <==> Marks(h, s) && RingGet(t.sent, s).Some? && s !in reported
    ensures ReportedOnce(OnAckHeader(t, h), count, reported + Elements(added))
  {
    added := AckBitsReport(t, h, count, reported, ACK_BITS);
    forall s: Seq
      ensures s in MarkedBy(h, ACK_BITS) <==> Marks(h, s)
    {
      MarkedIsMarks(h, ACK_BITS, s);
    }
  }
}
