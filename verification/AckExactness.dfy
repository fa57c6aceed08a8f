/** When a header is not only sound but exact, as a condition on the buffer's capacity. */
module AckExactness {
  import opened Common
  import opened Sequences
  import opened Acks

  function ReceiveAll(capacity: nat, arrivals: seq<nat>): (t: Tracker)
    requires capacity > 0
    ensures Sized(t) && |t.received| == capacity
  {
    if arrivals == [] then NewTracker(capacity)
    else Receive(ReceiveAll(capacity, arrivals[..|arrivals| - 1]), Wire(arrivals[|arrivals| - 1]))
  }

  function Highest(arrivals: seq<nat>): (h: nat)
    requires arrivals != []
    ensures h in arrivals && forall n :: n in arrivals ==> n <= h
  {
    var last := arrivals[|arrivals| - 1];
    if |arrivals| == 1 then last
    else
      var h := Highest(arrivals[..|arrivals| - 1]);
      assert forall n :: n in arrivals ==> n in arrivals[..|arrivals| - 1] || n == last;
      if last > h then last else h
  }

  /** A run of arrivals, by true number: all within one 16-bit cycle from `lo`, each under
      half the space from the highest so far and none a full buffer behind it. */
  ghost predicate Orderly(capacity: nat, arrivals: seq<nat>, lo: nat) {
    && (forall n :: n in arrivals ==> lo <= n < lo + U16)
    && (forall k :: 0 < k < |arrivals| ==>
          var h := Highest(arrivals[..k]);
          Gap(arrivals[k], h) < REACH && h < arrivals[k] + capacity)
  }

  /** The header names the highest arrival and marks exactly the arrivals among the 32
      numbers before it. */
  ghost predicate Exact(capacity: nat, arrivals: seq<nat>)
    requires capacity > 0 && arrivals != []
  {
    var h := Highest(arrivals);
    var header := AckHeader(ReceiveAll(capacity, arrivals));
    && header.ack == Wire(h)
    && forall i: nat :: i < ACK_BITS ==> (header.bits[i] <==> h - 1 - i in arrivals)
  }

  /** Numbers a buffer apart or less never share a slot: the capacity divides the wire
      space, or exceeds it. */
  predicate Aligned(capacity: nat)
    requires capacity > 0
  {
    capacity >= U16 || U16 % capacity == 0
  }

  lemma AlignedSlot(capacity: nat, n: nat)
    requires 0 < capacity < U16 && U16 % capacity == 0
    ensures Wire(n) % capacity == n % capacity
  {
    var q, k := n / U16, U16 / capacity;
    assert U16 == capacity * k;
    assert n == capacity * (k * q) + Wire(n) by {
      assert n == U16 * q + Wire(n);
      assert U16 * q == capacity * (k * q);
    }
    MultipleVanishes(Wire(n), k * q, capacity);
  }

  lemma MultipleVanishes(x: nat, q: nat, m: nat)
    requires m > 0
    ensures (m * q + x) % m == x % m
  {
    var y := m * q + x;
    assert y == m * (y / m) + y % m && x == m * (x / m) + x % m;
    var d := y / m - q - x / m;
    assert x % m - y % m == m * d by {
      assert m * (y / m) - m * q - m * (x / m) == m * d;
    }
    if d >= 1 { MulAtLeast(m, d); } else if d <= -1 { MulAtLeast(m, -d); }
  }

  lemma SlotsDistinct(capacity: nat, a: nat, b: nat)
    requires capacity > 0 && Aligned(capacity)
    requires a != b && Gap(a, b) < capacity && Gap(a, b) < U16
    ensures Wire(a) % capacity != Wire(b) % capacity
  {
    hide Wire;
    if Wire(a) == Wire(b) {
      SameWire(a, b);
    } else if capacity < U16 {
      AlignedSlot(capacity, a);
      AlignedSlot(capacity, b);
      if a % capacity == b % capacity {
        ResiduesDistinct(a, b, capacity);
      }
    }
  }

  /** The state a run leaves: every entry is an arrival's, and every arrival less than a
      buffer behind the highest is still there. */
  ghost predicate Holds(t: Tracker, arrivals: seq<nat>)
    requires Sized(t) && arrivals != []
  {
    var h := Highest(arrivals);
    && t.remoteHighest == Some(Wire(h))
    && (forall s: Seq :: Contains(t.received, s) ==> exists m :: m in arrivals && s == Wire(m))
    && (forall m :: m in arrivals && h < m + |t.received| ==> Contains(t.received, Wire(m)))
  }

  lemma OrderlyPrefix(capacity: nat, before: seq<nat>, last: nat, lo: nat)
    requires before != [] && Orderly(capacity, before + [last], lo)
    ensures Orderly(capacity, before, lo)
    ensures var h := Highest(before); Gap(last, h) < REACH && h < last + capacity
  {
    hide Highest, Gap;
    var arrivals := before + [last];
    forall n | n in before
      ensures lo <= n < lo + U16
    {
      assert n in arrivals;
    }
    forall k | 0 < k < |before|
      ensures var h := Highest(before[..k]); Gap(before[k], h) < REACH && h < before[k] + capacity
    {
      assert arrivals[..k] == before[..k] && arrivals[k] == before[k];
    }
    assert arrivals[..|before|] == before && arrivals[|before|] == last;
    assert before[..|before|] == before && arrivals[|before|] == last;
  }

  lemma ReceiveContains(t: Tracker, s: Seq, q: Seq)
    requires Sized(t)
    ensures Contains(Receive(t, s).received, q) <==>
            q == s || (q % |t.received| != s % |t.received| && Contains(t.received, q))
  {
    RingPutGet(t.received, s, (), q);
  }

  lemma ReceiveHighest(t: Tracker, n: nat, h: nat)
    requires Sized(t) && t.remoteHighest == Some(Wire(h)) && Gap(n, h) < REACH
    ensures Receive(t, Wire(n)).remoteHighest == Some(Wire(if n > h then n else h))
  {
    OrderSurvivesWrap(n, h);
  }

  lemma HighestOf(before: seq<nat>, last: nat)
    ensures Highest(before + [last]) == if before != [] && Highest(before) > last then Highest(before) else last
  {
    var arrivals := before + [last];
    assert arrivals[..|before|] == before && arrivals[|before|] == last;
  }

  lemma {:induction false} RunHolds(capacity: nat, arrivals: seq<nat>, lo: nat)
    requires capacity > 0 && Aligned(capacity)
    requires arrivals != [] && Orderly(capacity, arrivals, lo)
    ensures Holds(ReceiveAll(capacity, arrivals), arrivals)
  {
    hide ReceiveAll, Highest, Holds, Orderly, Aligned;
    var before, last := arrivals[..|arrivals| - 1], arrivals[|arrivals| - 1];
    assert arrivals == before + [last];
    if before == [] {
      FirstHolds(capacity, last);
      assert arrivals == [last];
    } else {
      OrderlyPrefix(capacity, before, last, lo);
      RunHolds(capacity, before, lo);
      ReceiveHolds(capacity, before, last, lo);
    }
  }

  lemma FirstHolds(capacity: nat, n: nat)
    requires capacity > 0
    ensures Holds(ReceiveAll(capacity, [n]), [n])
    ensures Highest([n]) == n
  {
    ReceiveAllUnfolds(capacity, [], n);
    HighestOf([], n);
    assert [] + [n] == [n];
    ReceiveFirst(capacity, Wire(n));
    assert ReceiveAll(capacity, []) == NewTracker(capacity);
    hide ReceiveAll, Receive, Highest, Contains, Wire;
    assert n in [n];
  }

  lemma ReceiveFirst(capacity: nat, s: Seq)
    requires capacity > 0
    ensures var t := Receive(NewTracker(capacity), s);
            t.remoteHighest == Some(s) && forall q: Seq :: Contains(t.received, q) <==> q == s
  {
    forall q: Seq {
      ReceiveContains(NewTracker(capacity), s, q);
    }
  }

  lemma ReceiveHolds(capacity: nat, before: seq<nat>, last: nat, lo: nat)
    requires capacity > 0 && Aligned(capacity) && before != []
    requires Orderly(capacity, before + [last], lo)
    requires Holds(ReceiveAll(capacity, before), before)
    ensures Holds(ReceiveAll(capacity, before + [last]), before + [last])
  {
    hide ReceiveAll, Highest, Receive, Contains, Aligned, Wire, Orderly;
    var arrivals := before + [last];
    var t := ReceiveAll(capacity, before);
    ReceiveAllUnfolds(capacity, before, last);
    OrderlyPrefix(capacity, before, last, lo);
    HighestOf(before, last);
    ReceiveHighest(t, last, Highest(before));
    ReceiveTraces(t, before, last);
    forall m | m in arrivals && Highest(arrivals) < m + capacity
      ensures Contains(Receive(t, Wire(last)).received, Wire(m))
    {
      ReceiveRetains(t, before, last, lo, m);
    }
  }

  lemma ReceiveTraces(t: Tracker, before: seq<nat>, last: nat)
    requires Sized(t)
    requires forall s: Seq :: Contains(t.received, s) ==> exists m :: m in before && s == Wire(m)
    ensures forall s: Seq :: Contains(Receive(t, Wire(last)).received, s) ==>
              exists m :: m in before + [last] && s == Wire(m)
  {
    hide Contains, Wire;
    forall s: Seq | Contains(Receive(t, Wire(last)).received, s)
      ensures exists m :: m in before + [last] && s == Wire(m)
    {
      ReceiveContains(t, Wire(last), s);
      var m :| (m in before || m == last) && s == Wire(m);
      assert m in before + [last];
    }
  }

  lemma ReceiveRetains(t: Tracker, before: seq<nat>, last: nat, lo: nat, m: nat)
    requires before != [] && Sized(t) && Holds(t, before) && Aligned(|t.received|)
    requires Orderly(|t.received|, before + [last], lo)
    requires m in before + [last] && Highest(before + [last]) < m + |t.received|
    ensures Contains(Receive(t, Wire(last)).received, Wire(m))
  {
    hide Receive, Contains, Wire, Highest;
    OrderlyPrefix(|t.received|, before, last, lo);
    HighestOf(before, last);
    ReceiveContains(t, Wire(last), Wire(m));
    if m != last {
      assert last in before + [last];
      SlotsDistinct(|t.received|, m, last);
    }
  }

  lemma ReceiveAllUnfolds(capacity: nat, before: seq<nat>, last: nat)
    requires capacity > 0
    ensures ReceiveAll(capacity, before + [last]) == Receive(ReceiveAll(capacity, before), Wire(last))
  {
    var arrivals := before + [last];
    assert arrivals[..|arrivals| - 1] == before && arrivals[|arrivals| - 1] == last;
  }

  lemma HeldIsExact(capacity: nat, arrivals: seq<nat>, lo: nat)
    requires capacity > ACK_BITS && arrivals != []
    requires forall n :: n in arrivals ==> lo <= n < lo + U16
    requires Holds(ReceiveAll(capacity, arrivals), arrivals)
    ensures Exact(capacity, arrivals)
  {
    hide ReceiveAll, Highest, Contains, AckHeader, Wire;
    var t, h := ReceiveAll(capacity, arrivals), Highest(arrivals);
    forall i: nat | i < ACK_BITS
      ensures AckHeader(t).bits[i] <==> h - 1 - i in arrivals
    {
      HeaderBit(t, h, i);
      if Contains(t.received, Wire(h - 1 - i)) {
        var m :| m in arrivals && Wire(h - 1 - i) == Wire(m);
        SameWire(h - 1 - i, m);
      }
    }
    HeaderBit(t, h, 0);
  }

  lemma HeaderBit(t: Tracker, h: nat, i: nat)
    requires Sized(t) && t.remoteHighest == Some(Wire(h)) && i < ACK_BITS
    ensures AckHeader(t).ack == Wire(h)
    ensures AckHeader(t).bits[i] <==> Contains(t.received, Wire(h - 1 - i))
  {
    WireShift(h, 1 + i);
  }

  lemma WireShift(h: nat, d: nat)
    requires d <= ACK_BITS
    ensures Wire(Wire(h) - d) == Wire(h - d)
  {
  }

  lemma SameWire(a: int, b: int)
    requires -0x1_0000 < a - b < 0x1_0000 && Wire(a) == Wire(b)
    ensures a == b
  {
    ResiduesDistinct(a, b, U16);
  }

  /** A header is exact after every orderly run exactly when the buffer holds at least 33
      sequences and its capacity divides 2^16 or reaches it. */
  lemma HeadersExact(capacity: nat)
    requires capacity > 0
    ensures (forall arrivals, lo :: arrivals != [] && Orderly(capacity, arrivals, lo) ==> Exact(capacity, arrivals))
            <==> capacity > ACK_BITS && Aligned(capacity)
  {
    if capacity > ACK_BITS && Aligned(capacity) {
      forall arrivals, lo | arrivals != [] && Orderly(capacity, arrivals, lo)
        ensures Exact(capacity, arrivals)
      {
        RunHolds(capacity, arrivals, lo);
        HeldIsExact(capacity, arrivals, lo);
      }
    } else if capacity <= ACK_BITS {
      ShortBufferForgets(capacity);
    } else {
      MisalignedBufferForgets(capacity);
    }
  }

  /** With 32 slots or fewer, the arrival a full buffer back is forgotten in order. */
  lemma ShortBufferForgets(capacity: nat)
    requires 0 < capacity <= ACK_BITS
    ensures Orderly(capacity, [0, capacity], 0) && !Exact(capacity, [0, capacity])
  {
    hide ReceiveAll, Highest, Contains, AckHeader, Receive;
    var arrivals := [0] + [capacity];
    var t := ReceiveAll(capacity, [0]);
    FirstHolds(capacity, 0);
    HighestOf([0], capacity);
    ReceiveAllUnfolds(capacity, [0], capacity);
    assert arrivals[..1] == [0];
    assert arrivals == [0, capacity];
    ReceiveHighest(t, capacity, 0);
    ReceiveContains(t, Wire(capacity), 0);
    HeaderBit(Receive(t, Wire(capacity)), capacity, capacity - 1);
    assert 0 in arrivals;
  }

  /** With a misaligned capacity, a late arrival from before the wrap evicts a newer one
      from after it. */
  lemma MisalignedBufferForgets(capacity: nat)
    requires ACK_BITS < capacity < U16 && U16 % capacity != 0
    ensures var arrivals := [U16, U16 - U16 % capacity, U16 + 1];
            Orderly(capacity, arrivals, U16 - U16 % capacity) && !Exact(capacity, arrivals)
  {
    hide ReceiveAll, Highest, Contains, AckHeader, Receive;
    var r := U16 % capacity;
    var late := U16 - r;
    LateShares(capacity);
    var two := [U16] + [late];
    var arrivals := two + [U16 + 1];
    assert two[..1] == [U16] && arrivals[..1] == [U16] && arrivals[..2] == two;
    assert arrivals == [U16, late, U16 + 1];
    FirstHolds(capacity, U16);
    HighestOf([U16], late);
    HighestOf(two, U16 + 1);
    ReceiveAllUnfolds(capacity, [U16], late);
    ReceiveAllUnfolds(capacity, two, U16 + 1);
    var t1, t2, t3 := ReceiveAll(capacity, [U16]), ReceiveAll(capacity, two), ReceiveAll(capacity, arrivals);
    ReceiveHighest(t1, late, U16);
    ReceiveHighest(t2, U16 + 1, U16);
    ReceiveContains(t1, late, 0);
    ReceiveContains(t2, 1, 0);
    HeaderBit(t3, U16 + 1, 0);
    assert U16 in arrivals;
  }

  /** A sequence a full buffer behind is not ignored: whatever the capacity, its arrival takes
      the slot of one received before it, whose bit the header had set and now clears. */
  lemma LateArrivalForgets(capacity: nat)
    requires 2 <= capacity < REACH - 1
    ensures var two := ReceiveAll(capacity, [capacity, capacity + 1]);
            AckHeader(two).ack == Wire(capacity + 1) && AckHeader(two).bits[0]
    ensures var three := ReceiveAll(capacity, [capacity, capacity + 1, 0]);
            AckHeader(three).ack == Wire(capacity + 1) && !AckHeader(three).bits[0]
    ensures !Exact(capacity, [capacity, capacity + 1, 0])
  {
    hide ReceiveAll, Highest, Contains, AckHeader, Receive;
    var two := [capacity] + [capacity + 1];
    var arrivals := two + [0];
    assert two == [capacity, capacity + 1] && arrivals == [capacity, capacity + 1, 0];
    FirstHolds(capacity, capacity);
    HighestOf([capacity], capacity + 1);
    HighestOf(two, 0);
    ReceiveAllUnfolds(capacity, [capacity], capacity + 1);
    ReceiveAllUnfolds(capacity, two, 0);
    var t1, t2, t3 := ReceiveAll(capacity, [capacity]), ReceiveAll(capacity, two), ReceiveAll(capacity, arrivals);
    ReceiveHighest(t1, capacity + 1, capacity);
    ReceiveHighest(t2, 0, capacity + 1);
    SlotsOf(capacity);
    assert capacity in [capacity];
    ReceiveContains(t1, capacity + 1, capacity);
    ReceiveContains(t2, 0, capacity);
    HeaderBit(t2, capacity + 1, 0);
    HeaderBit(t3, capacity + 1, 0);
    assert capacity in arrivals;
  }

  lemma SlotsOf(capacity: nat)
    requires capacity >= 2
    ensures capacity % capacity == 0 && (capacity + 1) % capacity == 1 && 0 % capacity == 0
  {
    MultipleVanishes(1, 1, capacity);
    MultipleVanishes(0, 1, capacity);
  }

  lemma LateShares(capacity: nat)
    requires ACK_BITS < capacity < U16 && U16 % capacity != 0
    ensures U16 % capacity < REACH && U16 % capacity < capacity
    ensures (U16 - U16 % capacity) % capacity == 0
  {
    if capacity > REACH {
      MultipleVanishes(U16 - capacity, 1, capacity);
    }
    MultipleVanishes(0, U16 / capacity, capacity);
    assert U16 - U16 % capacity == capacity * (U16 / capacity) + 0;
  }
}
