/** `apply_delta` as it runs: a reader advances while the world is updated in place. */
module DeltaReceiver {
  import opened Common
  import opened Ticks
  import opened Bits
  import opened BitBuffers
  import opened Schema
  import opened Values
  import opened Layout
  import opened Worlds
  import opened FieldIO
  import D = Delta
  import W = WorldObject

  type Outcome = Result<(), D.DeltaError>

  /** Reads `n` flags. */
  method ReadMask(r: BitReader, n: nat) returns (m: Result<seq<bool>, WireError>)
    requires r.Valid()
    modifies r
    ensures r.Valid()
    ensures |old(r.Rest())| < n ==> m == Err(UnexpectedEnd)
    ensures |old(r.Rest())| >= n ==> m == Ok(old(r.Rest())[..n]) && r.Rest() == old(r.Rest())[n..]
  {
    hide BytesBits;
    ghost var start := r.Rest();
    var flags: seq<bool> := [];
    assert start[0..] == start;
    while |flags| < n
      invariant r.Valid() && |flags| <= n && |flags| <= |start|
      invariant flags == start[..|flags|] && r.Rest() == start[|flags|..]
      decreases n - |flags|
    {
      var bit := r.ReadBool();
      if bit.Err? {
        return Err(bit.error);
      }
      assert start[..|flags| + 1] == start[..|flags|] + [start[|flags|]];
      flags := flags + [bit.value];
    }
    m := Ok(flags);
  }

  /** Inserting a component that is there already changes nothing. */
  lemma InsertPresent(ls: seq<ComponentLayout>, s: State, i: nat, c: nat)
    requires StateValid(ls, s) && c < |ls| && PresentAt(s, c, i)
    ensures InsertCell(ls, s, i, c) == s
  {
    assert s.columns[c := s.columns[c]] == s.columns;
  }

  /** Reads and stores the dirty fields of one component. */
  method StoreFields(world: W.World, r: BitReader, e: Entity, c: nat, dirty: seq<bool>) returns (out: Outcome)
    requires world.Consistent() && r.Valid() && world.IsAlive(e)
    requires c < |world.reg.layouts| && PresentAt(world.View(), c, e.index) && |dirty| == |world.reg.layouts[c].fields|
    modifies world`columns, r
    ensures world.Consistent() && r.Valid()
    ensures match D.ApplyFields(world.reg, old(world.View()), c, e.index, dirty, 0, old(r.Rest()))
            case Ok((s, rest)) => out == Ok(()) && world.View() == s && r.Rest() == rest
            case Err(err) => out == Err(err)
  {
    hide BytesBits, StateValid, DecodeFixed, D.RegistryValid, WriteCell;
    var reg := world.reg;
    ghost var goal := D.ApplyFields(reg, world.View(), c, e.index, dirty, 0, r.Rest());
    var f := 0;
    while f < |dirty|
      invariant 0 <= f <= |dirty|
      invariant world.Consistent() && r.Valid() && world.IsAlive(e) && PresentAt(world.View(), c, e.index)
      invariant goal == D.ApplyFields(reg, world.View(), c, e.index, dirty, f, r.Rest())
    {
      if dirty[f] {
        var desc := reg.layouts[c].fields[f].desc;
        DescriptionValid(reg, world.View(), c, f);
        D.DecodedType(desc, r.Rest());
        var v := ReadFixed(r, desc);
        if v.Err? {
          return Err(D.Wire(v.error));
        }
        InsertPresent(reg.layouts, world.View(), e.index, c);
        WriteKeeps(reg.layouts, world.View(), e.index, c, f, v.value);
        var _ := world.Set(e, c, f, v.value);
      }
      f := f + 1;
    }
    out := Ok(());
  }

  lemma DescriptionValid(reg: D.Registry, s: State, c: nat, f: nat)
    requires D.Valid(reg, s) && c < |reg.layouts| && f < |reg.layouts[c].fields|
    ensures ParametersValid(reg.layouts[c].fields[f].desc) && Storable(reg.layouts[c].fields[f].desc.ty)
  {
    assert LayoutValid(reg.layouts[c]);
  }

  /** Removes, inserts and fills components in canonical order. */
  method StoreComponents(world: W.World, r: BitReader, e: Entity, present: seq<bool>) returns (out: Outcome)
    requires world.Consistent() && r.Valid() && world.IsAlive(e) && |present| == |world.reg.canon|
    modifies world`columns, r
    ensures world.Consistent() && r.Valid()
    ensures match D.ApplyComponents(world.reg, old(world.View()), e.index, present, 0, old(r.Rest()))
            case Ok((s, rest)) => out == Ok(()) && world.View() == s && r.Rest() == rest
            case Err(err) => out == Err(err)
  {
    hide BytesBits, StateValid, D.ApplyFields, RemoveCell, InsertCell, LayoutsValid;
    var reg := world.reg;
    ghost var goal := D.ApplyComponents(reg, world.View(), e.index, present, 0, r.Rest());
    var j := 0;
    while j < |present|
      invariant 0 <= j <= |present|
      invariant world.Consistent() && r.Valid() && world.IsAlive(e)
      invariant goal == D.ApplyComponents(reg, world.View(), e.index, present, j, r.Rest())
    {
      var c := reg.canon[j];
      if !present[j] {
        RemoveKeeps(reg.layouts, world.View(), e.index, c);
        var _ := world.Remove(e, c);
      } else {
        InsertKeeps(reg.layouts, world.View(), e.index, c);
        var _ := world.Insert(e, c);
        var dirty := ReadMask(r, |reg.layouts[c].fields|);
        if dirty.Err? {
          return Err(D.Wire(dirty.error));
        }
        out := StoreFields(world, r, e, c, dirty.value);
        if out.Err? {
          return out;
        }
      }
      j := j + 1;
    }
    out := Ok(());
  }

  /** The components of one entity: its presence mask, then each component. */
  method StorePayload(world: W.World, r: BitReader, e: Entity) returns (out: Outcome)
    requires world.Consistent() && r.Valid() && world.IsAlive(e)
    modifies world`columns, r
    ensures world.Consistent() && r.Valid()
    ensures match D.ApplyPayload(world.reg, old(world.View()), e.index, old(r.Rest()))
            case Ok((s, rest)) => out == Ok(()) && world.View() == s && r.Rest() == rest
            case Err(err) => out == Err(err)
  {
    hide BytesBits, StateValid, D.ApplyComponents, D.RegistryValid;
    var present := ReadMask(r, |world.reg.canon|);
    if present.Err? {
      return Err(D.Wire(present.error));
    }
    out := StoreComponents(world, r, e, present.value);
  }

  /** Despawns whoever lives in the slot. */
  method Vacate(world: W.World, i: Half)
    requires world.Consistent()
    modifies world
    ensures world.Consistent() && world.View() == D.DespawnAt(world.reg, old(world.View()), i)
  {
    hide StateValid, Worlds.Despawn;
    var here := world.EntityAt(i);
    if here.Some? {
      var _ := world.Despawn(Entity(i, here.value));
    }
  }

  /** Gives the slot to this generation, replacing any other. */
  method Occupy(world: W.World, i: Half, generation: Half)
    requires world.Consistent()
    modifies world
    ensures world.Consistent() && world.View() == D.SpawnOver(world.reg, old(world.View()), i, generation)
  {
    hide StateValid, SpawnAt, D.DespawnAt;
    var here := world.EntityAt(i);
    if here.Some? {
      if here.value != generation {
        Vacate(world, i);
      }
    }
    world.SpawnOf(Entity(i, generation));
  }

  /** One entry after its index. */
  method StoreEntry(world: W.World, r: BitReader, i: Half) returns (out: Outcome)
    requires world.Consistent() && r.Valid()
    modifies world, r
    ensures world.Consistent() && r.Valid()
    ensures match D.ApplyEntry(world.reg, old(world.View()), i, old(r.Rest()))
            case Ok((s, rest)) => out == Ok(()) && world.View() == s && r.Rest() == rest
            case Err(err) => out == Err(err)
  {
    hide BytesBits, StateValid, D.ApplyPayload, D.RegistryValid, D.SpawnOver, D.DespawnAt, ReadVaruintFrom, Bits.ReadBits;
    var op := r.ReadBits(2);
    if op.Err? {
      return Err(D.Wire(op.error));
    }
    if op.value > 2 {
      return Err(D.ReservedOp);
    }
    if op.value == 2 {
      Vacate(world, i);
      return Ok(());
    }
    var e: Entity;
    if op.value == 1 {
      var generation := r.ReadVaruint();
      if generation.Err? {
        return Err(D.Wire(generation.error));
      }
      if generation.value >= U32 {
        return Err(D.GenerationOutOfRange);
      }
      Occupy(world, i, generation.value);
      e := Entity(i, generation.value);
    } else {
      var here := world.EntityAt(i);
      if here.None? {
        return Err(D.UnknownEntity);
      }
      e := Entity(i, here.value);
    }
    out := StorePayload(world, r, e);
  }

  /** The entries, each at a gap from the one before. */
  method StoreEntries(world: W.World, r: BitReader, count: nat) returns (out: Outcome)
    requires world.Consistent() && r.Valid()
    modifies world, r
    ensures world.Consistent() && r.Valid()
    ensures match D.ApplyEntries(world.reg, old(world.View()), count, -1, old(r.Rest()))
            case Ok((s, rest)) => out == Ok(()) && world.View() == s && r.Rest() == rest
            case Err(err) => out == Err(err)
  {
    hide BytesBits, StateValid, D.ApplyEntry, D.RegistryValid, D.NextIndex, DecodeVaruint;
    var index := -1;
    var left := count;
    ghost var goal := D.ApplyEntries(world.reg, world.View(), count, -1, r.Rest());
    while left > 0
      invariant world.Consistent() && r.Valid() && Fixed.MIN <= index <= Fixed.MAX
      invariant goal == D.ApplyEntries(world.reg, world.View(), left, index, r.Rest())
    {
      var gap := ReadWord(r, None);
      if gap.Err? {
        return Err(D.Wire(gap.error));
      }
      var next := D.NextIndex(index, gap.value);
      if next.Err? {
        return Err(next.error);
      }
      index := next.value;
      out := StoreEntry(world, r, index % U32);
      if out.Err? {
        return out;
      }
      left := left - 1;
    }
    out := Ok(());
  }

  /** Applies an encoded delta, returning the tick it describes. */
  method ApplyDelta(world: W.World, bytes: seq<Byte>) returns (out: Result<Tick, D.DeltaError>)
    requires world.Consistent()
    modifies world
    ensures world.Consistent()
    ensures match D.ApplyDelta(world.reg, old(world.View()), BytesBits(bytes))
            case Ok(s) => out == Ok(s.tick) && world.View() == s
            case Err(err) => out == Err(err)
  {
    hide BytesBits, StateValid, D.ApplyEntries, D.RegistryValid, ReadVaruintFrom;
    var r := new BitReader(bytes);
    var tick := r.ReadBits(32);
    if tick.Err? {
      return Err(D.Wire(tick.error));
    }
    var baseline := r.ReadBits(32);
    if baseline.Err? {
      return Err(D.Wire(baseline.error));
    }
    var count := r.ReadVaruint();
    if count.Err? {
      return Err(D.Wire(count.error));
    }
    if count.value > r.BitsRemaining() {
      return Err(D.CountExceedsPacket);
    }
    var stored := StoreEntries(world, r, count.value);
    if stored.Err? {
      return Err(stored.error);
    }
    world.SetTick(tick.value % U32);
    out := Ok(tick.value % U32);
  }
}
