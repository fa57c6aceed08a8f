/** `Reassembler` as the object it is: the map of partial messages and the byte total are
    updated in place. */
module ReassemblerObject {
  import opened Common
  import opened Sequences
  import F = Fragments

  class Reassembler {
    const limits: F.Limits
    var partial: map<F.Id, F.Partial>
    var totalBytes: int

    function View(): F.Reassembler
      reads this
    {
      F.Reassembler(limits, partial, totalBytes)
    }

    predicate Valid()
      reads this
    {
      F.Sound(View())
    }

    constructor (limits: F.Limits)
      ensures Valid() && View() == F.NewReassembler(limits)
    {
      this.limits := limits;
      partial, totalBytes := map[], 0;
    }

    /** Drops every message past its timeout. */
    method Expire(now: Time)
      requires Valid()
      modifies this
      ensures Valid() && View() == F.Expired(old(View()), now)
    {
      hide F.Sound, F.Kept, F.BytesOf;
      F.ExpiredSound(View(), now);
      var kept, freed := Sweep(View(), now);
      partial := kept;
      totalBytes := totalBytes - freed;
    }

    /** Accepts a fragment, returning the payload once the last one arrives. */
    method Push(h: F.FragmentHeader, data: F.Bytes, now: Time) returns (r: F.Pushed)
      requires Valid()
      modifies this
      ensures Valid() && (View(), r) == F.Push(old(View()), h, data, now)
    {
      hide F.Sound, F.Expired, F.Payload;
      F.PushSound(View(), h, data, now);
      if h.count == 0 || h.count > limits.maxFragments {
        return Err(F.BadFragmentCount);
      }
      if h.index >= h.count {
        return Err(F.IndexOutOfRange);
      }
      ghost var before := View();
      Expire(now);
      ghost var live := View();
      F.ExpiredLimits(before, now);
      if h.messageId !in partial {
        if |partial| >= limits.maxMessages {
          return Err(F.LimitExceeded);
        }
        if totalBytes + |data| > limits.maxTotalBytes {
          return Err(F.LimitExceeded);
        }
        partial := partial[h.messageId := F.Partial(h.count, seq(h.count, i => None), 0, 0, now)];
      }
      F.OpenedSound(live, h, now);
      assert View() == F.Opened(live, h, now);
      F.PartsCounted(View(), h.messageId);
      var entry := partial[h.messageId];
      if entry.count != h.count {
        partial := partial - {h.messageId};
        totalBytes := totalBytes - entry.bytes;
        return Err(F.Inconsistent);
      }
      if entry.parts[h.index].Some? {
        return Ok(None);
      }
      if totalBytes + |data| > limits.maxTotalBytes {
        return Err(F.LimitExceeded);
      }
      entry := entry.(parts := entry.parts[h.index := Some(data)], received := entry.received + 1, bytes := entry.bytes + |data|);
      partial := partial[h.messageId := entry];
      totalBytes := totalBytes + |data|;
      if entry.received != entry.count {
        return Ok(None);
      }
      partial := partial - {h.messageId};
      totalBytes := totalBytes - entry.bytes;
      var out := Assemble(entry.parts);
      return Ok(Some(out));
    }

    method Clear()
      modifies this
      ensures Valid() && View() == F.NewReassembler(limits)
    {
      partial, totalBytes := map[], 0;
    }
  }

  ghost function TimedOut(r: F.Reassembler, now: Time): set<F.Id> {
    set id | id in r.partial && !F.Kept(r, id, now)
  }

  /** The walk with the messages `rest` still to visit. */
  ghost predicate Sweeping(r: F.Reassembler, now: Time, rest: set<F.Id>, kept: map<F.Id, F.Partial>, freed: nat) {
    && rest <= r.partial.Keys
    && kept == r.partial - (rest + TimedOut(r, now))
    && freed == F.BytesOf(r.partial, TimedOut(r, now) - rest)
  }

  lemma SweepKeeps(r: F.Reassembler, now: Time, rest: set<F.Id>, kept: map<F.Id, F.Partial>, freed: nat, id: F.Id)
    requires Sweeping(r, now, rest, kept, freed) && id in rest && F.Kept(r, id, now)
    ensures Sweeping(r, now, rest - {id}, kept[id := r.partial[id]], freed)
  {
    hide F.Kept, F.BytesOf;
    assert TimedOut(r, now) - (rest - {id}) == TimedOut(r, now) - rest;
    assert kept[id := r.partial[id]] == r.partial - (rest - {id} + TimedOut(r, now));
  }

  lemma SweepDrops(r: F.Reassembler, now: Time, rest: set<F.Id>, kept: map<F.Id, F.Partial>, freed: nat, id: F.Id)
    requires Sweeping(r, now, rest, kept, freed) && id in rest && !F.Kept(r, id, now)
    ensures Sweeping(r, now, rest - {id}, kept, freed + r.partial[id].bytes)
  {
    hide F.Kept, F.BytesOf;
    var out := TimedOut(r, now);
    F.BytesWithout(r.partial, out - (rest - {id}), id);
    assert out - (rest - {id}) - {id} == out - rest;
    assert rest - {id} + out == rest + out;
  }

  lemma SweepStarts(r: F.Reassembler, now: Time)
    ensures Sweeping(r, now, r.partial.Keys, map[], 0)
  {
    hide F.BytesOf;
    F.NoBytes(r.partial);
    assert TimedOut(r, now) - r.partial.Keys == {};
    assert r.partial - (r.partial.Keys + TimedOut(r, now)) == map[];
  }

  lemma SweepEnds(r: F.Reassembler, now: Time, kept: map<F.Id, F.Partial>, freed: nat)
    requires Sweeping(r, now, {}, kept, freed)
    ensures kept == F.Expired(r, now).partial && r.totalBytes - freed == F.Expired(r, now).totalBytes
  {
    hide F.Kept, F.BytesOf;
    assert {} + TimedOut(r, now) == TimedOut(r, now) && TimedOut(r, now) - {} == TimedOut(r, now);
  }

  /** Walks the partial messages, keeping those still in time and counting the others' bytes. */
  method Sweep(r: F.Reassembler, now: Time) returns (kept: map<F.Id, F.Partial>, freed: nat)
    ensures kept == F.Expired(r, now).partial
    ensures r.totalBytes - freed == F.Expired(r, now).totalBytes
  {
    hide F.Kept, F.BytesOf, Sweeping, F.Expired;
    var rest := r.partial.Keys;
    kept, freed := map[], 0;
    SweepStarts(r, now);
    while rest != {}
      invariant rest <= r.partial.Keys && Sweeping(r, now, rest, kept, freed)
      decreases |rest|
    {
      var id: F.Id := Least(rest);
      if F.Kept(r, id, now) {
        SweepKeeps(r, now, rest, kept, freed, id);
        kept := kept[id := r.partial[id]];
      } else {
        SweepDrops(r, now, rest, kept, freed, id);
        freed := freed + r.partial[id].bytes;
      }
      rest := rest - {id};
    }
    SweepEnds(r, now, kept, freed);
  }

  /** Joins the parts of a complete message. */
  method Assemble(parts: seq<Option<F.Bytes>>) returns (out: F.Bytes)
    ensures out == F.Payload(parts)
  {
    out := [];
    var i := 0;
    while i < |parts|
      invariant 0 <= i <= |parts| && out == F.Payload(parts[..i])
    {
      assert parts[..i + 1][..i] == parts[..i];
      if parts[i].Some? {
        out := out + parts[i].value;
      }
      i := i + 1;
    }
    assert parts[..|parts|] == parts;
  }
}
