/** The replicated world as an object: columns, presence flags and the allocator are
    fields its methods update in place. */
module WorldObject {
  import opened Common
  import opened Ticks
  import opened Bits
  import opened Values
  import opened Layout
  import opened Worlds
  import opened Delta

  datatype CoreError = StaleEntity(e: Entity) | UnknownComponent(c: nat) | UnknownField(f: nat) | FieldTypeMismatch
                     | ShapeMismatch(expected: nat, found: nat)

  class World {
    const reg: Registry
    var tick: Tick
    var generations: seq<Half>
    var alive: seq<bool>
    var free: seq<nat>
    var columns: seq<Column>

    function View(): (s: State)
      reads this
      ensures s == State(tick, generations, alive, free, columns)
    {
      State(tick, generations, alive, free, columns)
    }

    ghost predicate Consistent()
      reads this
    {
      Valid(reg, View())
    }

    /** A world with no entities. */
    constructor (reg: Registry)
      requires RegistryValid(reg)
      ensures Consistent() && this.reg == reg
      ensures View().tick == 0 && forall i :: LiveAt(View(), i).None?
    {
      this.reg := reg;
      tick, generations, alive, free := 0, [], [], [];
      columns := seq(|reg.layouts|, c => Column([], []));
    }

    function EntityAt(i: nat): (r: Option<Half>)
      reads this
      ensures r == LiveAt(View(), i)
    {
      if i < |generations| && i < |alive| && alive[i] then Some(generations[i]) else None
    }

    predicate IsAlive(e: Entity)
      reads this
    {
      EntityAt(e.index) == Some(e.generation)
    }

    predicate Has(e: Entity, c: nat)
      reads this
    {
      IsAlive(e) && PresentAt(View(), c, e.index)
    }

    /** Gives every column a slot for every entity. */
    method GrowToFit(slots: nat)
      requires |columns| == |reg.layouts| && forall c :: 0 <= c < |columns| ==> ColumnValid(columns[c], reg.layouts[c].stride)
      modifies this`columns
      ensures columns == GrowAll(reg.layouts, old(columns), slots)
    {
      ghost var before := columns;
      var c := 0;
      while c < |columns|
        invariant 0 <= c <= |columns| == |before|
        invariant forall k :: 0 <= k < c ==> columns[k] == Grow(before[k], slots, reg.layouts[k].stride)
        invariant forall k :: c <= k < |columns| ==> columns[k] == before[k]
      {
        columns := columns[c := Grow(columns[c], slots, reg.layouts[c].stride)];
        c := c + 1;
      }
      assert columns == GrowAll(reg.layouts, before, slots);
    }

    /** Spawns an entity, reusing the most recently freed slot when there is one. */
    method Spawn() returns (e: Entity)
      requires Consistent() && |generations| < U32 - 1 && FreeListValid(View())
      modifies this
      ensures Consistent()
      ensures e == NextEntity(old(View())) && View() == Spawned(reg.layouts, old(View()))
    {
      SpawnedKeeps(reg.layouts, View());
      if |free| > 0 {
        var index := free[|free| - 1];
        e := Entity(index, generations[index]);
        free := free[..|free| - 1];
        alive := alive[index := true];
      } else {
        e := Entity(|generations|, 0);
        generations := generations + [0];
        alive := alive + [true];
      }
      GrowToFit(|generations|);
      assert generations == Spawned(reg.layouts, old(View())).generations;
      assert alive == Spawned(reg.layouts, old(View())).alive;
    }

    method SpawnOf(e: Entity)
      requires Consistent()
      modifies this
      ensures View() == SpawnAt(reg.layouts, old(View()), e)
      ensures Consistent()
    {
      SpawnAtKeeps(reg.layouts, View(), e);
      generations := Resize(generations, e.index + 1, 0)[e.index := e.generation];
      alive := Resize(alive, e.index + 1, false)[e.index := true];
      free := Without(free, e.index);
      GrowToFit(|generations|);
    }

    /** Despawns an entity and clears its components, column by column. */
    method Despawn(e: Entity) returns (was: bool)
      requires Consistent()
      modifies this
      ensures View() == Worlds.Despawn(reg.layouts, old(View()), e)
      ensures Consistent() && was == old(IsAlive(e))
    {
      if !IsAlive(e) {
        return false;
      }
      DespawnKeeps(reg.layouts, View(), e);
      ghost var before := columns;
      var c := 0;
      while c < |columns|
        invariant 0 <= c <= |columns| == |before|
        invariant unchanged(`generations) && unchanged(`alive) && unchanged(`free) && unchanged(`tick)
        invariant forall k :: 0 <= k < c ==> columns[k] == ClearCell(before[k], e.index, reg.layouts[k].stride)
        invariant forall k :: c <= k < |columns| ==> columns[k] == before[k]
      {
        columns := columns[c := ClearCell(columns[c], e.index, reg.layouts[c].stride)];
        c := c + 1;
      }
      alive := alive[e.index := false];
      generations := generations[e.index := (generations[e.index] + 1) % U32];
      free := free + [e.index];
      assert View().columns == Worlds.Despawn(reg.layouts, old(View()), e).columns;
      was := true;
    }

    method Insert(e: Entity, c: nat) returns (r: Result<(), CoreError>)
      requires Consistent()
      modifies this`columns
      ensures Consistent()
      ensures r == if !IsAlive(e) then Err(StaleEntity(e)) else if c >= |reg.layouts| then Err(UnknownComponent(c)) else Ok(())
      ensures View() == if r.Ok? then InsertCell(reg.layouts, old(View()), e.index, c) else old(View())
    {
      if !IsAlive(e) {
        return Err(StaleEntity(e));
      }
      if c >= |reg.layouts| {
        return Err(UnknownComponent(c));
      }
      InsertKeeps(reg.layouts, View(), e.index, c);
      var stride := reg.layouts[c].stride;
      var col := Grow(columns[c], e.index + 1, stride);
      if !col.present[e.index] {
        col := PutSlot(col, e.index, stride, true, Zeros(stride));
      }
      columns := columns[c := col];
      r := Ok(());
    }

    method Remove(e: Entity, c: nat) returns (r: Result<bool, CoreError>)
      requires Consistent()
      modifies this`columns
      ensures Consistent()
      ensures r == if !IsAlive(e) then Err(StaleEntity(e)) else if c >= |reg.layouts| then Err(UnknownComponent(c))
                   else Ok(PresentAt(old(View()), c, e.index))
      ensures View() == if r.Ok? then RemoveCell(reg.layouts, old(View()), e.index, c) else old(View())
    {
      if !IsAlive(e) {
        return Err(StaleEntity(e));
      }
      if c >= |reg.layouts| {
        return Err(UnknownComponent(c));
      }
      RemoveKeeps(reg.layouts, View(), e.index, c);
      if e.index >= |columns[c].present| || !columns[c].present[e.index] {
        return Ok(false);
      }
      columns := columns[c := PutSlot(columns[c], e.index, reg.layouts[c].stride, false, Zeros(reg.layouts[c].stride))];
      r := Ok(true);
    }

    /** Writes a field, inserting the component if it is absent. */
    method Set(e: Entity, c: nat, f: nat, v: Value) returns (r: Result<(), CoreError>)
      requires Consistent()
      modifies this`columns
      ensures Consistent()
      ensures r == if !IsAlive(e) then Err(StaleEntity(e)) else if c >= |reg.layouts| then Err(UnknownComponent(c))
                   else if f >= |reg.layouts[c].fields| then Err(UnknownField(f))
                   else if TypeOf(v) != reg.layouts[c].fields[f].desc.ty then Err(FieldTypeMismatch) else Ok(())
      ensures r.Ok? ==>
                var t := InsertCell(reg.layouts, old(View()), e.index, c);
                Valid(reg, t) && PresentAt(t, c, e.index) && View() == WriteCell(reg.layouts, t, e.index, c, f, v)
      ensures r == Err(FieldTypeMismatch) ==>
                var t := InsertCell(reg.layouts, old(View()), e.index, c);
                Valid(reg, t) && PresentAt(t, c, e.index) && View() == t
      ensures r.Err? && r.error != FieldTypeMismatch ==> View() == old(View())
    {
      if !IsAlive(e) {
        return Err(StaleEntity(e));
      }
      if c >= |reg.layouts| {
        return Err(UnknownComponent(c));
      }
      if f >= |reg.layouts[c].fields| {
        return Err(UnknownField(f));
      }
      InsertKeeps(reg.layouts, View(), e.index, c);
      var _ := Insert(e, c);
      if TypeOf(v) != reg.layouts[c].fields[f].desc.ty {
        return Err(FieldTypeMismatch);
      }
      WriteKeeps(reg.layouts, View(), e.index, c, f, v);
      var slot := Write(reg.layouts[c], SlotOf(columns[c], e.index, reg.layouts[c].stride), f, v);
      columns := columns[c := PutSlot(columns[c], e.index, reg.layouts[c].stride, true, slot)];
      r := Ok(());
    }

    method Snapshot() returns (s: State)
      ensures s == View()
    {
      s := State(tick, generations, alive, free, columns);
    }

    /** Replaces the whole state, unless the snapshot has another number of columns. */
    method Restore(s: State) returns (r: Result<(), CoreError>)
      requires Consistent() && (|s.columns| == |columns| ==> Valid(reg, s))
      modifies this
      ensures Consistent()
      ensures r == if |s.columns| == old(|columns|) then Ok(()) else Err(ShapeMismatch(old(|columns|), |s.columns|))
      ensures View() == if r.Ok? then s else old(View())
    {
      if |s.columns| != |columns| {
        return Err(ShapeMismatch(|columns|, |s.columns|));
      }
      tick, generations, alive, free, columns := s.tick, s.generations, s.alive, s.free, s.columns;
      r := Ok(());
    }

    method SetTick(t: Tick)
      requires Consistent()
      modifies this`tick
      ensures Consistent() && View() == old(View()).(tick := t)
    {
      TickFree(reg, View(), t);
      tick := t;
    }
  }
}
