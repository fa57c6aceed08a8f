/** Fragmentation and reassembly under bounded memory. */
module Fragments {
  import opened Common
  import opened Sequences
  import Bits

  type Bytes = seq<Bits.Byte>
  type Id = n: nat | n < U32

  datatype FragmentHeader = FragmentHeader(messageId: Id, index: Seq, count: Seq)

  datatype Limits = Limits(maxFragments: Seq, maxMessages: nat, maxTotalBytes: nat, timeoutUs: Time)

  datatype FragmentError = BadFragmentCount | IndexOutOfRange | Inconsistent | LimitExceeded

  // ----- splitting -----

  /** Chunks of at most `max` bytes; an empty payload is one empty chunk. */
  function Chunks(payload: Bytes, max: nat): (cs: seq<Bytes>)
    requires max > 0
    ensures cs != []
    ensures forall i :: 0 <= i < |cs| ==> |cs[i]| <= max
  {
    if |payload| <= max then [payload] else [payload[..max]] + Chunks(payload[max..], max)
  }

  function Concat(parts: seq<Bytes>): Bytes {
    if parts == [] then [] else Concat(parts[..|parts| - 1]) + parts[|parts| - 1]
  }

  lemma ConcatSnoc(parts: seq<Bytes>, last: Bytes)
    ensures Concat(parts + [last]) == Concat(parts) + last
  {
    assert (parts + [last])[..|parts|] == parts;
  }

  lemma {:induction false} ConcatSplit(a: seq<Bytes>, b: seq<Bytes>)
    ensures Concat(a + b) == Concat(a) + Concat(b)
  {
    hide Concat;
    if b == [] {
      assert a + b == a;
      ConcatEmpty();
    } else {
      var init, last := b[..|b| - 1], b[|b| - 1];
      ConcatSplit(a, init);
      ConcatSnoc(a + init, last);
      ConcatSnoc(init, last);
      assert a + b == a + init + [last] && b == init + [last];
    }
  }

  lemma ConcatEmpty()
    ensures Concat([]) == []
  {
  }

  lemma ConcatOne(c: Bytes)
    ensures Concat([c]) == c
  {
    assert [c][..0] == [];
  }

  lemma {:induction false} ChunksConcat(payload: Bytes, max: nat)
    requires max > 0
    ensures Concat(Chunks(payload, max)) == payload
    ensures |payload| > (|Chunks(payload, max)| - 1) * max || |Chunks(payload, max)| == 1
    decreases |payload|
  {
    if |payload| <= max {
      ConcatOne(payload);
    } else {
      var rest := Chunks(payload[max..], max);
      ChunksConcat(payload[max..], max);
      ConcatSplit([payload[..max]], rest);
      ConcatOne(payload[..max]);
      assert (|rest| + 1 - 1) * max == (|rest| - 1) * max + max;
    }
  }

  /** Index and count are 16-bit: past 65535 chunks they wrap. */
  function Fragment(id: Id, payload: Bytes, max: nat): (fs: seq<(FragmentHeader, Bytes)>)
    requires max > 0
    ensures |fs| == |Chunks(payload, max)|
  {
    var cs := Chunks(payload, max);
    seq(|cs|, i requires 0 <= i < |cs| => (FragmentHeader(id, i % U16, |cs| % U16), cs[i]))
  }

  // ----- reassembly -----

  datatype Partial = Partial(count: Seq, parts: seq<Option<Bytes>>, received: nat, bytes: nat, firstSeen: Time)

  datatype Reassembler = Reassembler(limits: Limits, partial: map<Id, Partial>, totalBytes: int)

  function NewReassembler(limits: Limits): Reassembler {
    Reassembler(limits, map[], 0)
  }

  predicate Kept(r: Reassembler, id: Id, now: Time)
    requires id in r.partial
  {
    Since(now, r.partial[id].firstSeen) < r.limits.timeoutUs
  }

  /** The bytes of the partial messages with these ids. */
  function BytesOf(partial: map<Id, Partial>, ids: set<Id>): nat
    requires ids <= partial.Keys
    decreases |ids|
  {
    if ids == {} then 0
    else
      var id := Least(ids);
      partial[id].bytes + BytesOf(partial, ids - {id})
  }

  lemma NoBytes(partial: map<Id, Partial>)
    ensures BytesOf(partial, {}) == 0
  {
  }

  lemma {:induction false} BytesWithout(partial: map<Id, Partial>, ids: set<Id>, id: Id)
    requires ids <= partial.Keys && id in ids
    ensures BytesOf(partial, ids) == partial[id].bytes + BytesOf(partial, ids - {id})
    decreases |ids|
  {
    var first := Least(ids);
    if first != id {
      BytesWithout(partial, ids - {first}, id);
      BytesWithout(partial, ids - {id}, first);
      assert ids - {first} - {id} == ids - {id} - {first};
    }
  }

  lemma {:induction false} BytesLocal(a: map<Id, Partial>, b: map<Id, Partial>, ids: set<Id>)
    requires ids <= a.Keys && ids <= b.Keys
    requires forall id :: id in ids ==> a[id].bytes == b[id].bytes
    ensures BytesOf(a, ids) == BytesOf(b, ids)
    decreases |ids|
  {
    if ids != {} {
      BytesLocal(a, b, ids - {Least(ids)});
    }
  }

  lemma {:induction false} BytesSplit(partial: map<Id, Partial>, ids: set<Id>, kept: set<Id>)
    requires ids <= partial.Keys && kept <= ids
    ensures BytesOf(partial, ids) == BytesOf(partial, kept) + BytesOf(partial, ids - kept)
    decreases |kept|
  {
    if kept == {} {
      assert ids - kept == ids;
    } else {
      var id := Least(kept);
      BytesWithout(partial, ids, id);
      BytesSplit(partial, ids - {id}, kept - {id});
      assert ids - {id} - (kept - {id}) == ids - kept;
    }
  }

  function Expired(r: Reassembler, now: Time): Reassembler {
    var dropped := set id | id in r.partial && !Kept(r, id, now);
    r.(partial := r.partial - dropped, totalBytes := r.totalBytes - BytesOf(r.partial, dropped))
  }

  function Drop(r: Reassembler, id: Id): Reassembler
    requires id in r.partial
  {
    r.(partial := r.partial - {id}, totalBytes := r.totalBytes - r.partial[id].bytes)
  }

  function Store(p: Partial, index: nat, data: Bytes): Partial
    requires index < |p.parts|
  {
    p.(parts := p.parts[index := Some(data)], received := p.received + 1, bytes := p.bytes + |data|)
  }

  function Payload(parts: seq<Option<Bytes>>): Bytes {
    if parts == [] then []
    else Payload(parts[..|parts| - 1]) + if parts[|parts| - 1].Some? then parts[|parts| - 1].value else []
  }

  type Pushed = Result<Option<Bytes>, FragmentError>

  /** The entry a fragment goes to, opening it when the message is new. */
  function Opened(r: Reassembler, h: FragmentHeader, now: Time): Reassembler {
    if h.messageId in r.partial then r
    else r.(partial := r.partial[h.messageId := Partial(h.count, seq(h.count, i => None), 0, 0, now)])
  }

  /** Storing a fragment whose entry is open and agrees with it. */
  function Accept(r: Reassembler, h: FragmentHeader, data: Bytes): (Reassembler, Pushed)
    requires h.messageId in r.partial && h.index < |r.partial[h.messageId].parts|
  {
    var entry := r.partial[h.messageId];
    if entry.parts[h.index].Some? then (r, Ok(None))
    else if r.totalBytes + |data| > r.limits.maxTotalBytes then (r, Err(LimitExceeded))
    else
      var stored := Store(entry, h.index, data);
      var next := r.(partial := r.partial[h.messageId := stored], totalBytes := r.totalBytes + |data|);
      if stored.received != stored.count then (next, Ok(None))
      else (Drop(next, h.messageId), Ok(Some(Payload(stored.parts))))
  }

  function Push(r: Reassembler, h: FragmentHeader, data: Bytes, now: Time): (Reassembler, Pushed)
    requires Sound(r)
  {
    if h.count == 0 || h.count > r.limits.maxFragments then (r, Err(BadFragmentCount))
    else if h.index >= h.count then (r, Err(IndexOutOfRange))
    else
      var live := Expired(r, now);
      ExpiredSound(r, now);
      if h.messageId !in live.partial && |live.partial| >= live.limits.maxMessages then (live, Err(LimitExceeded))
      else if h.messageId !in live.partial && live.totalBytes + |data| > live.limits.maxTotalBytes then
        (live, Err(LimitExceeded))
      else
        var open := Opened(live, h, now);
        if open.partial[h.messageId].count != h.count then (Drop(open, h.messageId), Err(Inconsistent))
        else Accept(open, h, data)
  }

  // ----- the accounting -----

  function Stored(parts: seq<Option<Bytes>>): (nat, nat) {
    if parts == [] then (0, 0)
    else
      var before := Stored(parts[..|parts| - 1]);
      var last := parts[|parts| - 1];
      if last.Some? then (before.0 + 1, before.1 + |last.value|) else before
  }

  /** An incomplete message: its counters are those of the parts stored. */
  predicate PartialSound(p: Partial) {
    && |p.parts| == p.count
    && (p.received, p.bytes) == Stored(p.parts)
    && p.received < p.count
  }

  /** `totalBytes` is what the partial messages hold, within the limits. */
  predicate Sound(r: Reassembler) {
    && (forall id: Id :: id in r.partial ==> PartialSound(r.partial[id]))
    && r.totalBytes == BytesOf(r.partial, r.partial.Keys) <= r.limits.maxTotalBytes
    && |r.partial| <= r.limits.maxMessages
  }

  lemma ExpiredSound(r: Reassembler, now: Time)
    requires Sound(r)
    ensures Sound(Expired(r, now))
    ensures forall id: Id :: id in Expired(r, now).partial <==> id in r.partial && Kept(r, id, now)
  {
    hide PartialSound, Kept;
    var dropped := set id | id in r.partial && !Kept(r, id, now);
    var kept := r.partial.Keys - dropped;
    var after := Expired(r, now);
    assert after.partial.Keys == kept;
    BytesSplit(r.partial, r.partial.Keys, dropped);
    BytesLocal(r.partial, after.partial, kept);
    KeysFewer(after.partial, r.partial);
  }

  lemma KeysFewer<T>(a: map<Id, T>, b: map<Id, T>)
    requires a.Keys <= b.Keys
    ensures |a| <= |b|
  {
    assert |b.Keys - a.Keys| == |b.Keys| - |a.Keys|;
    assert |a.Keys| == |a| && |b.Keys| == |b|;
  }

  lemma DropSound(r: Reassembler, id: Id, limit: nat)
    requires id in r.partial
    requires forall x: Id :: x in r.partial && x != id ==> PartialSound(r.partial[x])
    requires r.totalBytes == BytesOf(r.partial, r.partial.Keys) <= r.limits.maxTotalBytes
    requires |r.partial| <= limit + 1 && limit <= r.limits.maxMessages
    ensures Sound(Drop(r, id)) && |Drop(r, id).partial| <= limit
  {
    hide PartialSound;
    var after := Drop(r, id);
    assert after.partial.Keys == r.partial.Keys - {id};
    BytesWithout(r.partial, r.partial.Keys, id);
    BytesLocal(r.partial, after.partial, after.partial.Keys);
    assert |after.partial.Keys| == |after.partial| && |r.partial.Keys| == |r.partial|;
  }

  lemma {:induction false} EmptyStored(n: nat)
    ensures Stored(seq(n, i => None)) == (0, 0)
  {
    if n > 0 {
      EmptyStored(n - 1);
      assert seq(n, i => None)[..n - 1] == seq<Option<Bytes>>(n - 1, i => None);
    }
  }

  lemma {:induction false} StoredWith(parts: seq<Option<Bytes>>, index: nat, data: Bytes)
    requires index < |parts| && parts[index].None?
    ensures Stored(parts[index := Some(data)]) == (Stored(parts).0 + 1, Stored(parts).1 + |data|)
    ensures Stored(parts).0 < |parts|
  {
    var n := |parts| - 1;
    var init := parts[..n];
    if index < n {
      StoredWith(init, index, data);
      assert parts[index := Some(data)][..n] == init[index := Some(data)];
    } else {
      assert parts[index := Some(data)][..n] == init;
      StoredAtMost(init);
    }
  }

  lemma {:induction false} StoredAtMost(parts: seq<Option<Bytes>>)
    ensures Stored(parts).0 <= |parts|
    ensures Stored(parts).0 == |parts| <==> forall i :: 0 <= i < |parts| ==> parts[i].Some?
  {
    if parts != [] {
      StoredAtMost(parts[..|parts| - 1]);
    }
  }

  lemma OpenedSound(r: Reassembler, h: FragmentHeader, now: Time)
    requires Sound(r) && h.count > 0 && (h.messageId in r.partial || |r.partial| < r.limits.maxMessages)
    ensures Sound(Opened(r, h, now))
  {
    hide PartialSound;
    if h.messageId !in r.partial {
      var after := Opened(r, h, now);
      assert PartialSound(after.partial[h.messageId]) by { NewPartialSound(h.count, now); }
      assert after.partial.Keys == r.partial.Keys + {h.messageId};
      BytesWithout(after.partial, after.partial.Keys, h.messageId);
      assert after.partial.Keys - {h.messageId} == r.partial.Keys;
      BytesLocal(r.partial, after.partial, r.partial.Keys);
      assert |after.partial.Keys| == |after.partial| && |r.partial.Keys| == |r.partial|;
    }
  }

  lemma NewPartialSound(count: Seq, now: Time)
    requires count > 0
    ensures PartialSound(Partial(count, seq(count, i => None), 0, 0, now))
  {
    EmptyStored(count);
  }

  lemma AcceptSound(r: Reassembler, h: FragmentHeader, data: Bytes)
    requires Sound(r) && h.messageId in r.partial && h.index < h.count == r.partial[h.messageId].count
    ensures h.index < |r.partial[h.messageId].parts|
    ensures Sound(Accept(r, h, data).0)
    ensures Accept(r, h, data).0.limits == r.limits
  {
    hide BytesOf, Stored, Payload;
    var entry := r.partial[h.messageId];
    assert PartialSound(entry);
    if entry.parts[h.index].None? && r.totalBytes + |data| <= r.limits.maxTotalBytes {
      StoredWith(entry.parts, h.index, data);
      var stored := Store(entry, h.index, data);
      var next := r.(partial := r.partial[h.messageId := stored], totalBytes := r.totalBytes + |data|);
      StoreBytes(r, next, h.messageId, |data|);
      StoredAtMost(stored.parts);
      if stored.received == stored.count {
        DropSound(next, h.messageId, r.limits.maxMessages);
      }
    }
  }

  lemma StoreBytes(r: Reassembler, next: Reassembler, id: Id, more: nat)
    requires id in r.partial && next.partial.Keys == r.partial.Keys
    requires forall x: Id :: x in r.partial && x != id ==> next.partial[x] == r.partial[x]
    requires next.partial[id].bytes == r.partial[id].bytes + more
    ensures BytesOf(next.partial, next.partial.Keys) == BytesOf(r.partial, r.partial.Keys) + more
    ensures |next.partial| == |r.partial|
  {
    BytesWithout(r.partial, r.partial.Keys, id);
    BytesWithout(next.partial, next.partial.Keys, id);
    BytesLocal(r.partial, next.partial, r.partial.Keys - {id});
    assert |next.partial.Keys| == |next.partial| && |r.partial.Keys| == |r.partial|;
  }

  /** Whatever arrives, the accounting holds and the limits are respected. */
  lemma PushSound(r: Reassembler, h: FragmentHeader, data: Bytes, now: Time)
    requires Sound(r)
    ensures Sound(Push(r, h, data, now).0) && Push(r, h, data, now).0.limits == r.limits
  {
    hide Sound, Expired, Opened, Accept, Drop;
    if h.count != 0 && h.count <= r.limits.maxFragments && h.index < h.count {
      var live := Expired(r, now);
      ExpiredSound(r, now);
      ExpiredLimits(r, now);
      if !(h.messageId !in live.partial && |live.partial| >= live.limits.maxMessages) {
        OpenedSound(live, h, now);
        OpenedIs(live, h, now);
        var open := Opened(live, h, now);
        if open.partial[h.messageId].count == h.count {
          AcceptSound(open, h, data);
        } else {
          SoundParts(open, h.messageId);
        }
      }
    }
  }

  lemma ExpiredLimits(r: Reassembler, now: Time)
    requires Sound(r)
    ensures Expired(r, now).limits == r.limits
  {
  }

  lemma OpenedIs(r: Reassembler, h: FragmentHeader, now: Time)
    ensures Opened(r, h, now).limits == r.limits && h.messageId in Opened(r, h, now).partial
  {
  }

  lemma SoundParts(r: Reassembler, id: Id)
    requires Sound(r) && id in r.partial
    ensures Sound(Drop(r, id)) && Drop(r, id).limits == r.limits
  {
    DropSound(r, id, r.limits.maxMessages);
  }

  // ----- one message's progress -----

  /** The message with chunks `cs` has exactly the chunks in `got`. */
  predicate Holding(r: Reassembler, id: Id, cs: seq<Bytes>, got: set<nat>) {
    if got == {} then id !in r.partial
    else
      id in r.partial && r.partial[id].count == |cs| && Parts(r.partial[id].parts, cs, got)
  }

  predicate Parts(parts: seq<Option<Bytes>>, cs: seq<Bytes>, got: set<nat>) {
    && |parts| == |cs|
    && forall i: nat :: i < |cs| ==> parts[i] == if i in got then Some(cs[i]) else None
  }

  predicate Complete(got: set<nat>, n: nat) {
    forall i: nat :: i < n ==> i in got
  }

  lemma {:induction false} PayloadIsConcat(parts: seq<Option<Bytes>>, cs: seq<Bytes>)
    requires |parts| == |cs| && forall i :: 0 <= i < |cs| ==> parts[i] == Some(cs[i])
    ensures Payload(parts) == Concat(cs)
  {
    if parts != [] {
      PayloadIsConcat(parts[..|parts| - 1], cs[..|cs| - 1]);
    }
  }

  lemma ExpiredKeeps(r: Reassembler, now: Time, id: Id)
    requires Sound(r) && id in r.partial && Kept(r, id, now)
    ensures id in Expired(r, now).partial && Expired(r, now).partial[id] == r.partial[id]
  {
  }

  lemma ExpiredAbsent(r: Reassembler, now: Time, id: Id)
    requires id !in r.partial
    ensures id !in Expired(r, now).partial
  {
  }

  lemma HoldingExpired(r: Reassembler, id: Id, cs: seq<Bytes>, got: set<nat>, now: Time)
    requires Sound(r) && Holding(r, id, cs, got) && (got != {} ==> Kept(r, id, now))
    ensures Holding(Expired(r, now), id, cs, got)
  {
    hide Expired, Kept;
    if got != {} {
      ExpiredKeeps(r, now, id);
    } else {
      ExpiredAbsent(r, now, id);
    }
  }

  lemma PartsStore(parts: seq<Option<Bytes>>, cs: seq<Bytes>, got: set<nat>, i: nat)
    requires Parts(parts, cs, got) && i < |cs| && i !in got
    ensures parts[i].None? && Parts(parts[i := Some(cs[i])], cs, got + {i})
  {
  }

  lemma PartsCount(parts: seq<Option<Bytes>>, cs: seq<Bytes>, got: set<nat>)
    requires Parts(parts, cs, got)
    ensures Stored(parts).0 == |cs| <==> Complete(got, |cs|)
    ensures Complete(got, |cs|) ==> Payload(parts) == Concat(cs)
  {
    hide Stored, Payload, Concat;
    StoredAtMost(parts);
    if Complete(got, |cs|) {
      PayloadIsConcat(parts, cs);
    } else {
      var j: nat :| j < |cs| && j !in got;
      assert parts[j].None?;
    }
  }

  lemma AcceptPart(r: Reassembler, id: Id, cs: seq<Bytes>, got: set<nat>, i: nat)
    requires Sound(r) && id in r.partial && i < |cs| < U16
    requires r.partial[id].count == |cs| && Parts(r.partial[id].parts, cs, got)
    requires Accept(r, FragmentHeader(id, i, |cs|), cs[i]).1.Ok?
    ensures var (after, out) := Accept(r, FragmentHeader(id, i, |cs|), cs[i]);
            && out == Ok(if i !in got && Complete(got + {i}, |cs|) then Some(Concat(cs)) else None)
            && Holding(after, id, cs, if i !in got && Complete(got + {i}, |cs|) then {} else got + {i})
  {
    hide BytesOf, Concat, Payload, Complete, Stored;
    var entry := r.partial[id];
    if i in got {
      assert got + {i} == got;
    } else {
      var stored := Store(entry, i, cs[i]);
      assert PartialSound(entry);
      PartsStore(entry.parts, cs, got, i);
      StoredWith(entry.parts, i, cs[i]);
      PartsCount(stored.parts, cs, got + {i});
    }
  }

  /** A fragment of the message that is not refused: a duplicate changes nothing, the last
      missing index returns the whole payload, any other is kept. */
  lemma PushPart(r: Reassembler, id: Id, cs: seq<Bytes>, got: set<nat>, i: nat, now: Time)
    requires Sound(r) && Holding(r, id, cs, got) && (got != {} ==> Kept(r, id, now))
    requires i < |cs| <= r.limits.maxFragments
    requires Push(r, FragmentHeader(id, i, |cs|), cs[i], now).1.Ok?
    ensures var (after, out) := Push(r, FragmentHeader(id, i, |cs|), cs[i], now);
            && out == Ok(if i !in got && Complete(got + {i}, |cs|) then Some(Concat(cs)) else None)
            && Holding(after, id, cs, if i !in got && Complete(got + {i}, |cs|) then {} else got + {i})
            && (id in after.partial ==>
                  after.partial[id].firstSeen == if got == {} then now else r.partial[id].firstSeen)
  {
    hide Expired, Kept, Accept, Complete, Sound, Concat;
    var h := FragmentHeader(id, i, |cs|);
    var live := Expired(r, now);
    ExpiredSound(r, now);
    HoldingExpired(r, id, cs, got, now);
    if got != {} {
      ExpiredKeeps(r, now, id);
    }
    OpenedIs(live, h, now);
    var open := Opened(live, h, now);
    assert id in live.partial || |live.partial| < live.limits.maxMessages;
    OpenedSound(live, h, now);
    AcceptPart(open, id, cs, got, i);
    AcceptStamp(open, h, cs[i]);
  }

  lemma AcceptStamp(r: Reassembler, h: FragmentHeader, data: Bytes)
    requires h.messageId in r.partial && h.index < |r.partial[h.messageId].parts|
    ensures var after := Accept(r, h, data).0;
            && (h.messageId in after.partial ==>
                  after.partial[h.messageId].firstSeen == r.partial[h.messageId].firstSeen)
            && (forall id :: id != h.messageId ==>
                  (id in after.partial <==> id in r.partial) &&
                  (id in r.partial ==> after.partial[id] == r.partial[id]))
  {
    hide Payload, BytesOf;
  }

  /** A fragment of another message leaves this one alone, unless its timeout has passed. */
  lemma PushOther(r: Reassembler, id: Id, h: FragmentHeader, data: Bytes, now: Time)
    requires Sound(r) && h.messageId != id && (id in r.partial ==> Kept(r, id, now))
    ensures var after := Push(r, h, data, now).0;
            && (id in after.partial <==> id in r.partial)
            && (id in r.partial ==> after.partial[id] == r.partial[id])
  {
    hide Expired, Kept, Accept, Sound;
    if h.count != 0 && h.count <= r.limits.maxFragments && h.index < h.count {
      var live := Expired(r, now);
      ExpiredSound(r, now);
      if id in r.partial {
        ExpiredKeeps(r, now, id);
      } else {
        ExpiredAbsent(r, now, id);
      }
      if !(h.messageId !in live.partial && |live.partial| >= live.limits.maxMessages) {
        OpenedSound(live, h, now);
        OpenedIs(live, h, now);
        var open := Opened(live, h, now);
        PartsCounted(open, h.messageId);
        if open.partial[h.messageId].count == h.count {
          AcceptStamp(open, h, data);
        }
      }
    }
  }

  lemma PartsCounted(r: Reassembler, id: Id)
    requires Sound(r) && id in r.partial
    ensures |r.partial[id].parts| == r.partial[id].count
  {
    assert PartialSound(r.partial[id]);
  }

  // ----- runs -----

  datatype Arrival = Arrival(header: FragmentHeader, data: Bytes, now: Time)

  /** The reassembler before arrival `n` of a run. */
  function Before(limits: Limits, run: seq<Arrival>, n: nat): (r: Reassembler)
    requires n <= |run|
    ensures Sound(r) && r.limits == limits
  {
    if n == 0 then NewReassembler(limits)
    else
      var prior, a := Before(limits, run, n - 1), run[n - 1];
      PushSound(prior, a.header, a.data, a.now);
      Push(prior, a.header, a.data, a.now).0
  }

  function Outcome(limits: Limits, run: seq<Arrival>, n: nat): Pushed
    requires n < |run|
  {
    Push(Before(limits, run, n), run[n].header, run[n].data, run[n].now).1
  }

  /** Arrival `k` is a fragment of the payload. */
  predicate IsFragment(a: Arrival, id: Id, payload: Bytes, max: nat)
    requires max > 0
  {
    (a.header, a.data) in Fragment(id, payload, max)
  }

  /** The message's fragments are its own, in any order and however repeated, among any
      others; until the run ends the message's own fragments have not timed out. How old the
      reassembler is, and when other messages' fragments came, does not matter. */
  ghost predicate Delivers(limits: Limits, run: seq<Arrival>, id: Id, payload: Bytes, max: nat)
    requires max > 0
  {
    && (forall k :: 0 <= k < |run| && run[k].header.messageId == id ==> IsFragment(run[k], id, payload, max))
    && (forall j, k :: 0 <= j < k < |run| && run[j].header.messageId == id ==>
          Since(run[k].now, run[j].now) < limits.timeoutUs)
  }

  /** The indices of the message that arrived before arrival `n`. */
  function Seen(run: seq<Arrival>, id: Id, n: nat): set<nat>
    requires n <= |run|
  {
    if n == 0 then {}
    else Seen(run, id, n - 1) + if run[n - 1].header.messageId == id then {run[n - 1].header.index} else {}
  }

  lemma FragmentIs(a: Arrival, id: Id, payload: Bytes, max: nat)
    requires max > 0 && IsFragment(a, id, payload, max)
    requires |Chunks(payload, max)| < U16
    ensures var cs := Chunks(payload, max);
            a.header == FragmentHeader(id, a.header.index, |cs|) && a.header.index < |cs| && a.data == cs[a.header.index]
  {
    hide Chunks;
    var fs := Fragment(id, payload, max);
    var i :| 0 <= i < |fs| && fs[i] == (a.header, a.data);
  }

  /** The message's progress through a run in which it is not yet complete. */
  ghost predicate Progress(limits: Limits, run: seq<Arrival>, id: Id, cs: seq<Bytes>, n: nat)
    requires n <= |run|
  {
    var r := Before(limits, run, n);
    && Holding(r, id, cs, Seen(run, id, n))
    && (id in r.partial ==> exists j :: 0 <= j < n && run[j].header.messageId == id && r.partial[id].firstSeen == run[j].now)
  }

  lemma KeptInRun(limits: Limits, run: seq<Arrival>, id: Id, payload: Bytes, max: nat, n: nat)
    requires max > 0 && n < |run| && Delivers(limits, run, id, payload, max)
    requires Progress(limits, run, id, Chunks(payload, max), n)
    ensures var r := Before(limits, run, n); id in r.partial ==> Kept(r, id, run[n].now)
  {
    hide Before, IsFragment, Holding, Chunks, Seen;
    var r := Before(limits, run, n);
    if id in r.partial {
      var j :| 0 <= j < n && run[j].header.messageId == id && r.partial[id].firstSeen == run[j].now;
    }
  }

  lemma ProgressStep(limits: Limits, run: seq<Arrival>, id: Id, payload: Bytes, max: nat, n: nat)
    requires max > 0 && n < |run| && Delivers(limits, run, id, payload, max)
    requires |Chunks(payload, max)| <= limits.maxFragments
    requires Progress(limits, run, id, Chunks(payload, max), n)
    requires run[n].header.messageId == id ==> Outcome(limits, run, n).Ok?
    ensures var cs := Chunks(payload, max);
            var whole := Complete(Seen(run, id, n + 1), |cs|) && run[n].header.index !in Seen(run, id, n);
            && (run[n].header.messageId == id ==> Outcome(limits, run, n) == Ok(if whole then Some(payload) else None))
            && (run[n].header.messageId == id && whole ==> id !in Before(limits, run, n + 1).partial)
            && (!(run[n].header.messageId == id && whole) ==> Progress(limits, run, id, cs, n + 1))
  {
    hide IsFragment, Chunks, Push, Kept, Sound, Complete;
    var cs := Chunks(payload, max);
    var r, a, got := Before(limits, run, n), run[n], Seen(run, id, n);
    KeptInRun(limits, run, id, payload, max, n);
    if a.header.messageId == id {
      FragmentIs(a, id, payload, max);
      ChunksConcat(payload, max);
      PushPart(r, id, cs, got, a.header.index, a.now);
    } else {
      PushOther(r, id, a.header, a.data, a.now);
      assert Seen(run, id, n + 1) == got;
    }
  }

  lemma ProgressStarts(limits: Limits, run: seq<Arrival>, id: Id, cs: seq<Bytes>)
    ensures Progress(limits, run, id, cs, 0)
  {
  }

  lemma {:induction false} SeenGrows(run: seq<Arrival>, id: Id, m: nat, n: nat)
    requires m <= n <= |run|
    ensures Seen(run, id, m) <= Seen(run, id, n)
  {
    if m < n {
      SeenGrows(run, id, m, n - 1);
    }
  }

  lemma {:induction false} ProgressRuns(limits: Limits, run: seq<Arrival>, id: Id, payload: Bytes, max: nat, n: nat)
    requires max > 0 && n <= |run| && Delivers(limits, run, id, payload, max)
    requires |Chunks(payload, max)| <= limits.maxFragments
    requires forall k :: 0 <= k < n && run[k].header.messageId == id ==> Outcome(limits, run, k).Ok?
    requires !Complete(Seen(run, id, n), |Chunks(payload, max)|)
    ensures Progress(limits, run, id, Chunks(payload, max), n)
    ensures forall k :: 0 <= k < n && run[k].header.messageId == id ==> Outcome(limits, run, k) == Ok(None)
  {
    hide Progress, Delivers, Chunks, Outcome, Before;
    if n == 0 {
      ProgressStarts(limits, run, id, Chunks(payload, max));
    } else {
      SeenGrows(run, id, n - 1, n);
      ProgressRuns(limits, run, id, payload, max, n - 1);
      ProgressStep(limits, run, id, payload, max, n - 1);
    }
  }

  /** Round trip: fragments in any order, repeated, and interleaved with other messages give
      nothing until the last missing one, which gives the payload exactly. */
  lemma Reassembles(limits: Limits, run: seq<Arrival>, id: Id, payload: Bytes, max: nat, n: nat)
    requires max > 0 && n < |run| && Delivers(limits, run, id, payload, max)
    requires |Chunks(payload, max)| <= limits.maxFragments
    requires forall k :: 0 <= k <= n && run[k].header.messageId == id ==> Outcome(limits, run, k).Ok?
    requires !Complete(Seen(run, id, n), |Chunks(payload, max)|)
    requires Complete(Seen(run, id, n + 1), |Chunks(payload, max)|)
    ensures Outcome(limits, run, n) == Ok(Some(payload))
    ensures forall k :: 0 <= k < n && run[k].header.messageId == id ==> Outcome(limits, run, k) == Ok(None)
    ensures id !in Before(limits, run, n + 1).partial
  {
    hide Progress, Delivers, Chunks, Outcome, Before;
    ProgressRuns(limits, run, id, payload, max, n);
    ProgressStep(limits, run, id, payload, max, n);
    LastOne(run, id, |Chunks(payload, max)|, n);
  }

  lemma LastOne(run: seq<Arrival>, id: Id, count: nat, n: nat)
    requires n < |run| && !Complete(Seen(run, id, n), count) && Complete(Seen(run, id, n + 1), count)
    ensures run[n].header.messageId == id && run[n].header.index !in Seen(run, id, n)
  {
    var missing: nat :| missing < count && missing !in Seen(run, id, n);
  }

  // ----- too many chunks -----

  /** Whatever is stored for the message is short and within the fragment limit. */
  ghost predicate Short(r: Reassembler, id: Id, max: nat) {
    id in r.partial ==>
      && |r.partial[id].parts| == r.partial[id].count <= r.limits.maxFragments
      && ShortParts(r.partial[id].parts, max)
  }

  ghost predicate ShortParts(parts: seq<Option<Bytes>>, max: nat) {
    forall i :: 0 <= i < |parts| && parts[i].Some? ==> |parts[i].value| <= max
  }

  // ----- refusals -----

  /** The messages still waiting: those whose first fragment came less than a timeout ago. */
  ghost function Waiting(r: Reassembler, now: Time): set<Id> {
    set id | id in r.partial && r.limits.timeoutUs > 0 && now < r.partial[id].firstSeen + r.limits.timeoutUs
  }

  ghost predicate AlreadyHeld(r: Reassembler, h: FragmentHeader, now: Time) {
    && h.messageId in Waiting(r, now)
    && h.index < |r.partial[h.messageId].parts| && r.partial[h.messageId].parts[h.index].Some?
  }

  lemma ExpiredIsWaiting(r: Reassembler, now: Time)
    requires Sound(r)
    ensures var live := Expired(r, now);
            && Sound(live) && live.limits == r.limits
            && live.partial.Keys == Waiting(r, now) && |live.partial| == |Waiting(r, now)|
            && live.totalBytes == BytesOf(r.partial, Waiting(r, now))
            && (forall id :: id in live.partial ==> live.partial[id] == r.partial[id])
  {
    hide PartialSound;
    ExpiredSound(r, now);
    var live := Expired(r, now);
    assert live.partial.Keys == Waiting(r, now);
    assert |live.partial.Keys| == |live.partial|;
    BytesLocal(live.partial, r.partial, Waiting(r, now));
  }

  /** Which fragments are refused, and why, in counts, times and bytes; whatever happens,
      other messages leave only by timing out. */
  lemma RefusedExactly(r: Reassembler, h: FragmentHeader, data: Bytes, now: Time)
    requires Sound(r)
    ensures var (after, out) := Push(r, h, data, now);
            var waiting := Waiting(r, now);
            if h.count == 0 || h.count > r.limits.maxFragments then after == r && out == Err(BadFragmentCount)
            else if h.index >= h.count then after == r && out == Err(IndexOutOfRange)
            else
              && (forall id: Id | id != h.messageId ::
                    && (id in after.partial <==> id in waiting)
                    && (id in waiting ==> after.partial[id] == r.partial[id]))
              && if h.messageId in waiting && r.partial[h.messageId].count != h.count then
                   out == Err(Inconsistent) && h.messageId !in after.partial
                 else if || (h.messageId !in waiting && |waiting| >= r.limits.maxMessages)
                         || (!AlreadyHeld(r, h, now) && BytesOf(r.partial, waiting) + |data| > r.limits.maxTotalBytes) then
                   out == Err(LimitExceeded)
                 else out.Ok?
  {
    hide Waiting, BytesOf, Sound, Stored, Expired;
    if 0 < h.count <= r.limits.maxFragments && h.index < h.count {
      ExpiredIsWaiting(r, now);
      var live := Expired(r, now);
      OpenedIs(live, h, now);
      if h.messageId in live.partial {
        PartsLength(live, h.messageId);
      }
    }
  }

  lemma PartsLength(r: Reassembler, id: Id)
    requires Sound(r) && id in r.partial
    ensures |r.partial[id].parts| == r.partial[id].count
  {
  }

  lemma {:induction false} ShortPayload(parts: seq<Option<Bytes>>, max: nat)
    requires ShortParts(parts, max)
    ensures |Payload(parts)| <= |parts| * max
  {
    if parts != [] {
      ShortPayload(parts[..|parts| - 1], max);
      assert |parts| * max == (|parts| - 1) * max + max;
    }
  }

  lemma AcceptShort(r: Reassembler, h: FragmentHeader, data: Bytes, max: nat)
    requires Sound(r) && h.messageId in r.partial && h.index < h.count == r.partial[h.messageId].count
    requires Short(r, h.messageId, max) && |data| <= max
    ensures h.index < |r.partial[h.messageId].parts|
    ensures Short(Accept(r, h, data).0, h.messageId, max)
    ensures var out := Accept(r, h, data).1;
            out.Ok? && out.value.Some? ==> |out.value.value| <= r.limits.maxFragments * max
  {
    hide BytesOf, Payload, Sound;
    var entry := r.partial[h.messageId];
    var stored := Store(entry, h.index, data);
    ShortPayload(stored.parts, max);
    MulLess(max, |stored.parts|, r.limits.maxFragments);
  }

  lemma ExpiredShort(r: Reassembler, now: Time, id: Id, max: nat)
    requires Sound(r) && Short(r, id, max)
    ensures Short(Expired(r, now), id, max)
  {
    hide ShortParts, BytesOf;
  }

  lemma OpenedShort(r: Reassembler, h: FragmentHeader, now: Time, max: nat)
    requires Short(r, h.messageId, max) && h.count <= r.limits.maxFragments
    ensures Short(Opened(r, h, now), h.messageId, max)
  {
  }

  lemma PushShort(r: Reassembler, id: Id, h: FragmentHeader, data: Bytes, now: Time, max: nat)
    requires Sound(r) && Short(r, id, max) && (h.messageId == id ==> |data| <= max)
    ensures Short(Push(r, h, data, now).0, id, max)
    ensures var out := Push(r, h, data, now).1;
            h.messageId == id && out.Ok? && out.value.Some? ==> |out.value.value| <= r.limits.maxFragments * max
  {
    hide Expired, Accept, Sound, Short;
    if h.count != 0 && h.count <= r.limits.maxFragments && h.index < h.count {
      var live := Expired(r, now);
      ExpiredSound(r, now);
      ExpiredLimits(r, now);
      ExpiredShort(r, now, id, max);
      if !(h.messageId !in live.partial && |live.partial| >= live.limits.maxMessages) {
        OpenedSound(live, h, now);
        OpenedIs(live, h, now);
        var open := Opened(live, h, now);
        PartsCounted(open, h.messageId);
        if h.messageId == id {
          OpenedShort(live, h, now, max);
          DropShort(open, id, max);
          if open.partial[id].count == h.count {
            AcceptShort(open, h, data, max);
          }
        } else {
          OtherShort(live, open, id, max);
          OtherShort(open, Drop(open, h.messageId), id, max);
          if open.partial[h.messageId].count == h.count {
            AcceptStamp(open, h, data);
            AcceptSound(open, h, data);
            OtherShort(open, Accept(open, h, data).0, id, max);
          }
        }
      }
    }
  }

  lemma DropShort(r: Reassembler, id: Id, max: nat)
    requires id in r.partial
    ensures Short(Drop(r, id), id, max)
  {
  }

  lemma OtherShort(r: Reassembler, after: Reassembler, id: Id, max: nat)
    requires Short(r, id, max) && after.limits == r.limits
    requires id in after.partial ==> id in r.partial && after.partial[id] == r.partial[id]
    ensures Short(after, id, max)
  {
  }

  lemma {:induction false} ShortRuns(limits: Limits, run: seq<Arrival>, id: Id, payload: Bytes, max: nat, n: nat)
    requires max > 0 && n <= |run|
    requires forall k :: 0 <= k < |run| && run[k].header.messageId == id ==> IsFragment(run[k], id, payload, max)
    ensures Short(Before(limits, run, n), id, max)
  {
    hide Push, Short, IsFragment, Sound;
    if n == 0 {
      StartsShort(limits, id, max);
    } else {
      ShortRuns(limits, run, id, payload, max, n - 1);
      var a := run[n - 1];
      if a.header.messageId == id {
        FragmentShort(a, id, payload, max);
      }
      PushShort(Before(limits, run, n - 1), id, a.header, a.data, a.now, max);
    }
  }

  lemma StartsShort(limits: Limits, id: Id, max: nat)
    ensures Short(NewReassembler(limits), id, max)
  {
  }

  lemma FragmentShort(a: Arrival, id: Id, payload: Bytes, max: nat)
    requires max > 0 && IsFragment(a, id, payload, max)
    ensures |a.data| <= max
    ensures |Chunks(payload, max)| == 1 ==> a.header.count == 1
  {
    var fs := Fragment(id, payload, max);
    var i :| 0 <= i < |fs| && fs[i] == (a.header, a.data);
  }

  /** A payload of more chunks than the receiver allows, or than 16 bits can count, is never
      returned whole, whichever of its fragments arrive and in whatever order. */
  lemma TooManyChunks(limits: Limits, run: seq<Arrival>, id: Id, payload: Bytes, max: nat, n: nat)
    requires max > 0 && n < |run| && run[n].header.messageId == id
    requires forall k :: 0 <= k < |run| && run[k].header.messageId == id ==> IsFragment(run[k], id, payload, max)
    requires |Chunks(payload, max)| > limits.maxFragments
    ensures Outcome(limits, run, n) != Ok(Some(payload))
  {
    hide Chunks, Short, IsFragment, Sound, Before;
    var count := |Chunks(payload, max)|;
    ChunksConcat(payload, max);
    ShortRuns(limits, run, id, payload, max, n);
    FragmentShort(run[n], id, payload, max);
    PushShort(Before(limits, run, n), id, run[n].header, run[n].data, run[n].now, max);
    if count > 1 {
      ExceedsLimit(|payload|, count, limits.maxFragments, max);
    }
  }

  lemma ExceedsLimit(size: nat, n: nat, limit: nat, max: nat)
    requires size > (n - 1) * max && limit < n
    ensures size > limit * max
  {
    MulLess(max, limit, n - 1);
  }

  /** A receiver with room and time to spare, handed every fragment once in order. */
  function InOrder(id: Id, payload: Bytes, max: nat): (run: seq<Arrival>)
    requires max > 0
    ensures |run| == |Chunks(payload, max)|
  {
    var fs := Fragment(id, payload, max);
    seq(|fs|, i requires 0 <= i < |fs| => Arrival(fs[i].0, fs[i].1, 0))
  }

  predicate Roomy(limits: Limits, payload: Bytes) {
    limits.maxMessages >= 1 && limits.maxTotalBytes >= |payload| && limits.timeoutUs > 0
  }

  function PartsAt(cs: seq<Bytes>, n: nat): (ps: seq<Option<Bytes>>)
    ensures |ps| == |cs|
  {
    seq(|cs|, i requires 0 <= i < |cs| => if i < n then Some(cs[i]) else None)
  }

  function StateAt(limits: Limits, id: Id, cs: seq<Bytes>, n: nat): Reassembler
    requires 0 < n <= |cs| < U16
  {
    var bytes := |Concat(cs[..n])|;
    Reassembler(limits, map[id := Partial(|cs|, PartsAt(cs, n), n, bytes, 0)], bytes)
  }

  lemma PrefixBytes(cs: seq<Bytes>, n: nat)
    requires n < |cs|
    ensures Concat(cs[..n + 1]) == Concat(cs[..n]) + cs[n]
    ensures |Concat(cs[..n])| + |cs[n]| <= |Concat(cs)|
  {
    assert cs[..n + 1][..n] == cs[..n];
    ConcatSplit(cs[..n + 1], cs[n + 1..]);
    assert cs[..n + 1] + cs[n + 1..] == cs;
  }

  lemma NothingExpires(r: Reassembler)
    requires r.limits.timeoutUs > 0 && forall id: Id :: id in r.partial ==> r.partial[id].firstSeen == 0
    ensures Expired(r, 0) == r
  {
    var dropped := set id | id in r.partial && !Kept(r, id, 0);
    assert dropped == {};
    assert r.partial - dropped == r.partial;
  }

  /** With the entry open for the first `n` chunks. */
  function OpenAt(limits: Limits, id: Id, cs: seq<Bytes>, n: nat): Reassembler
    requires n <= |cs| < U16
  {
    var bytes := |Concat(cs[..n])|;
    Reassembler(limits, map[id := Partial(|cs|, PartsAt(cs, n), n, bytes, 0)], bytes)
  }

  lemma OpensInOrder(limits: Limits, id: Id, cs: seq<Bytes>, n: nat, r: Reassembler)
    requires n < |cs| <= limits.maxFragments
    requires r == if n == 0 then NewReassembler(limits) else StateAt(limits, id, cs, n)
    ensures Opened(r, FragmentHeader(id, n, |cs|), 0) == OpenAt(limits, id, cs, n)
  {
    hide Concat;
    ConcatNothing(cs);
    assert n == 0 ==> seq(|cs|, i => None) == PartsAt(cs, 0);
  }

  lemma PartsNext(cs: seq<Bytes>, n: nat)
    requires n < |cs|
    ensures |PartsAt(cs, n)| == |cs| && PartsAt(cs, n)[n].None?
    ensures PartsAt(cs, n)[n := Some(cs[n])] == PartsAt(cs, n + 1)
    ensures n + 1 == |cs| ==> forall i :: 0 <= i < |cs| ==> PartsAt(cs, n + 1)[i] == Some(cs[i])
  {
  }

  lemma AcceptsInOrder(limits: Limits, id: Id, cs: seq<Bytes>, n: nat)
    requires n < |cs| <= limits.maxFragments && limits.maxTotalBytes >= |Concat(cs)|
    ensures var (after, out) := Accept(OpenAt(limits, id, cs, n), FragmentHeader(id, n, |cs|), cs[n]);
            if n + 1 == |cs| then out == Ok(Some(Concat(cs)))
            else out == Ok(None) && after == StateAt(limits, id, cs, n + 1)
  {
    hide Payload, Concat, PartsAt;
    PrefixBytes(cs, n);
    PartsNext(cs, n);
    if n + 1 == |cs| {
      PayloadIsConcat(PartsAt(cs, n + 1), cs);
    } else {
      var open := OpenAt(limits, id, cs, n);
      var stored := Store(open.partial[id], n, cs[n]);
      assert open.partial[id := stored] == map[id := stored];
    }
  }

  lemma StepInOrder(limits: Limits, id: Id, cs: seq<Bytes>, n: nat, r: Reassembler)
    requires n < |cs| <= limits.maxFragments
    requires limits.maxMessages >= 1 && limits.maxTotalBytes >= |Concat(cs)| && limits.timeoutUs > 0
    requires Sound(r) && r == if n == 0 then NewReassembler(limits) else StateAt(limits, id, cs, n)
    ensures var (after, out) := Push(r, FragmentHeader(id, n, |cs|), cs[n], 0);
            if n + 1 == |cs| then out == Ok(Some(Concat(cs)))
            else out == Ok(None) && after == StateAt(limits, id, cs, n + 1)
  {
    hide Expired, Accept, Opened, Concat;
    NothingExpires(r);
    ConcatNothing(cs);
    PrefixBytes(cs, n);
    OpensInOrder(limits, id, cs, n, r);
    AcceptsInOrder(limits, id, cs, n);
  }

  lemma ConcatNothing(cs: seq<Bytes>)
    ensures Concat(cs[..0]) == []
  {
  }

  lemma {:induction false} StatesInOrder(limits: Limits, id: Id, payload: Bytes, max: nat, n: nat)
    requires max > 0 && Roomy(limits, payload) && n < |Chunks(payload, max)| <= limits.maxFragments
    ensures Before(limits, InOrder(id, payload, max), n) ==
            if n == 0 then NewReassembler(limits) else StateAt(limits, id, Chunks(payload, max), n)
  {
    hide Push, StateAt, Chunks, Before, Sound, InOrder, Concat;
    var run, cs := InOrder(id, payload, max), Chunks(payload, max);
    if n > 0 {
      StatesInOrder(limits, id, payload, max, n - 1);
      ChunksConcat(payload, max);
      var before := Before(limits, run, n - 1);
      StepInOrder(limits, id, cs, n - 1, before);
      PlainArrival(id, payload, max, n - 1);
      BeforeNext(limits, run, n - 1);
    } else {
      BeforeFirst(limits, run);
    }
  }

  /** While the count fits 16 bits nothing wraps. */
  lemma PlainArrival(id: Id, payload: Bytes, max: nat, n: nat)
    requires max > 0 && n < |Chunks(payload, max)| < U16
    ensures InOrder(id, payload, max)[n] == Arrival(FragmentHeader(id, n, |Chunks(payload, max)|), Chunks(payload, max)[n], 0)
  {
    hide Chunks;
    ArrivalAt(id, payload, max, n);
  }

  lemma BeforeFirst(limits: Limits, run: seq<Arrival>)
    ensures Before(limits, run, 0) == NewReassembler(limits)
  {
  }

  lemma BeforeNext(limits: Limits, run: seq<Arrival>, n: nat)
    requires n < |run|
    ensures Before(limits, run, n + 1) ==
            Push(Before(limits, run, n), run[n].header, run[n].data, run[n].now).0
  {
    hide Push;
  }

  lemma ArrivalAt(id: Id, payload: Bytes, max: nat, n: nat)
    requires max > 0 && n < |Chunks(payload, max)|
    ensures var cs := Chunks(payload, max);
            InOrder(id, payload, max)[n] == Arrival(FragmentHeader(id, n % U16, |cs| % U16), cs[n], 0)
            && IsFragment(InOrder(id, payload, max)[n], id, payload, max)
  {
    hide Chunks;
    assert Fragment(id, payload, max)[n] in Fragment(id, payload, max);
  }

  /** Handed every fragment once in order, with room and time to spare, a receiver returns the
      payload at the last one exactly when the chunks do not exceed its fragment limit; past
      65535 chunks the 16-bit count has wrapped, and no limit allows them. */
  lemma RoundTripsExactly(limits: Limits, id: Id, payload: Bytes, max: nat)
    requires max > 0 && Roomy(limits, payload)
    ensures var run := InOrder(id, payload, max);
            Outcome(limits, run, |run| - 1) == Ok(Some(payload)) <==> |Chunks(payload, max)| <= limits.maxFragments
  {
    hide Push, StateAt, Chunks, Before;
    var run, cs := InOrder(id, payload, max), Chunks(payload, max);
    var last := |run| - 1;
    forall k: nat | k < |run|
      ensures run[k].header.messageId == id && IsFragment(run[k], id, payload, max)
    {
      ArrivalAt(id, payload, max, k);
    }
    if |cs| <= limits.maxFragments {
      StatesInOrder(limits, id, payload, max, last);
      ChunksConcat(payload, max);
      StepInOrder(limits, id, cs, last, Before(limits, run, last));
      ArrivalAt(id, payload, max, last);
    } else {
      TooManyChunks(limits, run, id, payload, max, last);
    }
  }
}
