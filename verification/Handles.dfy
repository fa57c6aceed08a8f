/** Entity handles over whole runs of a world: which ones are handed out, which are live, and
    when a dead one could come back. */
module Handles {
  import opened Common
  import opened Values
  import opened Layout
  import opened Worlds

  ghost predicate NoRepeats(s: seq<nat>) {
    forall i, j :: 0 <= i < j < |s| ==> s[i] != s[j]
  }

  /** The allocator is in order: free slots exist, hold nobody, and are listed once. */
  ghost predicate Orderly(ls: seq<ComponentLayout>, s: State) {
    StateValid(ls, s) && FreeListValid(s) && NoRepeats(s.free)
  }

  // ----- what each call does to the handles -----

  lemma SpawnedHandles(ls: seq<ComponentLayout>, s: State)
    requires Orderly(ls, s) && |s.generations| < U32 - 1
    ensures var e := NextEntity(s); var t := Spawned(ls, s);
            && Orderly(ls, t)
            && |t.generations| == (if e.index < |s.generations| then |s.generations| else |s.generations| + 1)
            && (forall i :: 0 <= i < |s.generations| ==> t.generations[i] == s.generations[i])
            && t.generations[e.index] == e.generation
            && (e.index >= |s.generations| ==> e.generation == 0)
            && (forall i | i != e.index :: LiveAt(t, i) == LiveAt(s, i))
            && LiveAt(s, e.index).None? && LiveAt(t, e.index) == Some(e.generation)
  {
    SpawnedKeeps(ls, s);
  }

  lemma DespawnedHandles(ls: seq<ComponentLayout>, s: State, e: Entity)
    requires Orderly(ls, s) && LiveAt(s, e.index) == Some(e.generation)
    ensures var t := Despawn(ls, s, e);
            && Orderly(ls, t)
            && t.generations == s.generations[e.index := (e.generation + 1) % U32]
            && (forall i | i != e.index :: LiveAt(t, i) == LiveAt(s, i))
            && LiveAt(t, e.index).None?
  {
    DespawnKeeps(ls, s, e);
  }

  /** The slot just vacated is the next one used, under the next generation: the old handle
      is not handed out again, unless the generation wraps. */
  lemma NextAfterDespawn(ls: seq<ComponentLayout>, s: State, e: Entity)
    requires Orderly(ls, s) && LiveAt(s, e.index) == Some(e.generation) && |s.generations| < U32 - 1
    ensures var t := Despawn(ls, s, e);
            && Orderly(ls, t) && |t.generations| == |s.generations|
            && NextEntity(t) == Entity(e.index, (e.generation + 1) % U32)
            && NextEntity(t) != e
  {
    DespawnedHandles(ls, s, e);
  }

  lemma {:induction false} WithoutKeeps(s: seq<nat>, x: nat)
    requires NoRepeats(s)
    ensures NoRepeats(Without(s, x))
  {
    if |s| > 0 {
      var rest := Without(s[1..], x);
      WithoutKeeps(s[1..], x);
      forall i | 0 <= i < |rest|
        ensures rest[i] != s[0]
      {
        assert rest[i] in s[1..];
      }
    }
  }

  /** An identity chosen elsewhere leaves the allocator in order too. */
  lemma SpawnAtOrderly(ls: seq<ComponentLayout>, s: State, e: Entity)
    requires Orderly(ls, s)
    ensures Orderly(ls, SpawnAt(ls, s, e)) && e.index !in SpawnAt(ls, s, e).free
  {
    SpawnAtKeeps(ls, s, e);
    WithoutKeeps(s.free, e.index);
    var t := SpawnAt(ls, s, e);
    forall k | 0 <= k < |t.free|
      ensures t.free[k] < |t.generations| && LiveAt(t, t.free[k]).None?
    {
      assert t.free[k] in s.free;
    }
  }

  /** Whatever leaves the slots alone leaves the allocator in order. */
  lemma OrderlySame(ls: seq<ComponentLayout>, s: State, t: State)
    requires Orderly(ls, s) && StateValid(ls, t)
    requires t.generations == s.generations && t.alive == s.alive && t.free == s.free
    ensures Orderly(ls, t)
  {
    assert forall i :: LiveAt(t, i) == LiveAt(s, i);
  }

  // ----- runs -----

  datatype Op =
    | SpawnOp
    | DespawnOp(e: Entity)
    | InsertOp(e: Entity, c: nat)
    | RemoveOp(e: Entity, c: nat)
    | WriteOp(e: Entity, c: nat, f: nat, v: Value)

  /** A world, with every handle it has handed out and every one it has despawned, in order. */
  datatype Ledger = Ledger(s: State, handed: seq<Entity>, gone: seq<Entity>)

  predicate IsLive(s: State, e: Entity) {
    LiveAt(s, e.index) == Some(e.generation)
  }

  function Step(ls: seq<ComponentLayout>, r: Ledger, op: Op): Ledger
    requires Allowed(ls, r, op)
  {
    var s := r.s;
    match op
    case SpawnOp => Ledger(Spawned(ls, s), r.handed + [NextEntity(s)], r.gone)
    case DespawnOp(e) => Ledger(Despawn(ls, s, e), r.handed, if IsLive(s, e) then r.gone + [e] else r.gone)
    case InsertOp(e, c) => if IsLive(s, e) && c < |ls| then r.(s := InsertCell(ls, s, e.index, c)) else r
    case RemoveOp(e, c) => if IsLive(s, e) && c < |ls| then r.(s := RemoveCell(ls, s, e.index, c)) else r
    case WriteOp(e, c, f, v) =>
      if IsLive(s, e) && c < |ls| && f < |ls[c].fields| && TypeOf(v) == ls[c].fields[f].desc.ty then
        var t := InsertCell(ls, s, e.index, c);
        InsertKeeps(ls, s, e.index, c);
        r.(s := WriteCell(ls, t, e.index, c, f, v))
      else r
  }

  /** What a caller owes: slot indices fit 32 bits, and no slot is reused 2^32 times. */
  ghost predicate Allowed(ls: seq<ComponentLayout>, r: Ledger, op: Op) {
    && Orderly(ls, r.s)
    && (op.SpawnOp? ==> |r.s.generations| < U32 - 1)
    && (op.DespawnOp? && IsLive(r.s, op.e) ==> op.e.generation + 1 < U32)
  }

  ghost predicate Runs(ls: seq<ComponentLayout>, start: State, ops: seq<Op>)
    decreases |ops|
  {
    ops != [] ==>
      && Runs(ls, start, ops[..|ops| - 1])
      && Allowed(ls, After(ls, start, ops[..|ops| - 1]), ops[|ops| - 1])
  }

  /** What a run leads to; an operation that is not allowed leaves everything as it is. */
  ghost function After(ls: seq<ComponentLayout>, start: State, ops: seq<Op>): Ledger
    decreases |ops|
  {
    if ops == [] then Ledger(start, [], [])
    else
      var r := After(ls, start, ops[..|ops| - 1]);
      if Allowed(ls, r, ops[|ops| - 1]) then Step(ls, r, ops[|ops| - 1]) else r
  }

  ghost predicate Empty(ls: seq<ComponentLayout>, s: State) {
    StateValid(ls, s) && s.generations == [] && s.free == []
  }

  /** Which handles a slot has used up, and which it has handed out. */
  predicate Spent(s: State, e: Entity) {
    e.index < |s.generations| && e.generation < s.generations[e.index]
  }

  ghost predicate Accounted(ls: seq<ComponentLayout>, r: Ledger) {
    && Orderly(ls, r.s)
    && (forall e :: e in r.gone <==> Spent(r.s, e))
    && (forall e :: e in r.handed <==> Spent(r.s, e) || IsLive(r.s, e))
    && (forall i, j :: 0 <= i < j < |r.handed| ==> r.handed[i] != r.handed[j])
    && (forall i, j :: 0 <= i < j < |r.gone| ==> r.gone[i] != r.gone[j])
  }

  lemma SpawnAccounted(ls: seq<ComponentLayout>, r: Ledger)
    requires Accounted(ls, r) && Allowed(ls, r, SpawnOp)
    ensures Accounted(ls, Step(ls, r, SpawnOp))
    ensures NextEntity(r.s) !in r.handed
  {
    SpawnedHandles(ls, r.s);
    var e, t := NextEntity(r.s), Spawned(ls, r.s);
    forall x: Entity
      ensures Spent(t, x) <==> Spent(r.s, x)
      ensures IsLive(t, x) <==> IsLive(r.s, x) || x == e
    {
    }
  }

  lemma DespawnAccounted(ls: seq<ComponentLayout>, r: Ledger, e: Entity)
    requires Accounted(ls, r) && Allowed(ls, r, DespawnOp(e)) && IsLive(r.s, e)
    ensures Accounted(ls, Step(ls, r, DespawnOp(e)))
  {
    DespawnedHandles(ls, r.s, e);
    var t := Despawn(ls, r.s, e);
    forall x: Entity
      ensures Spent(t, x) <==> Spent(r.s, x) || x == e
      ensures IsLive(t, x) <==> IsLive(r.s, x) && x != e
    {
    }
  }

  lemma SameAccounted(ls: seq<ComponentLayout>, r: Ledger, t: State)
    requires Accounted(ls, r) && StateValid(ls, t)
    requires t.generations == r.s.generations && t.alive == r.s.alive && t.free == r.s.free
    ensures Accounted(ls, r.(s := t))
  {
    hide Orderly;
    assert Orderly(ls, r.s);
    OrderlySame(ls, r.s, t);
  }

  lemma StepAccounted(ls: seq<ComponentLayout>, r: Ledger, op: Op)
    requires Accounted(ls, r) && Allowed(ls, r, op)
    ensures Accounted(ls, Step(ls, r, op))
  {
    hide Accounted, SpawnAt, Despawn, PresentAt, PutSlot, Grow, Write;
    var s := r.s;
    match op
    case SpawnOp => SpawnAccounted(ls, r);
    case DespawnOp(e) =>
      if IsLive(s, e) {
        DespawnAccounted(ls, r, e);
      } else {
        assert Step(ls, r, op) == r by { DeadStays(ls, s, e); }
      }
    case InsertOp(e, c) =>
      if IsLive(s, e) && c < |ls| {
        InsertKeeps(ls, s, e.index, c);
        SameAccounted(ls, r, InsertCell(ls, s, e.index, c));
      }
    case RemoveOp(e, c) =>
      if IsLive(s, e) && c < |ls| {
        RemoveKeeps(ls, s, e.index, c);
        SameAccounted(ls, r, RemoveCell(ls, s, e.index, c));
      }
    case WriteOp(e, c, f, v) =>
      if IsLive(s, e) && c < |ls| && f < |ls[c].fields| && TypeOf(v) == ls[c].fields[f].desc.ty {
        var t := InsertCell(ls, s, e.index, c);
        InsertKeeps(ls, s, e.index, c);
        WriteKeeps(ls, t, e.index, c, f, v);
        SameAccounted(ls, r, WriteCell(ls, t, e.index, c, f, v));
      }
  }

  lemma DeadStays(ls: seq<ComponentLayout>, s: State, e: Entity)
    requires StateValid(ls, s) && !IsLive(s, e)
    ensures Despawn(ls, s, e) == s
  {
  }

  lemma {:induction false} RunAccounted(ls: seq<ComponentLayout>, start: State, ops: seq<Op>)
    requires Empty(ls, start) && Runs(ls, start, ops)
    ensures Accounted(ls, After(ls, start, ops))
    decreases |ops|
  {
    hide Accounted, Step, Allowed;
    if ops == [] {
      StartAccounted(ls, start);
    } else {
      RunAccounted(ls, start, ops[..|ops| - 1]);
      StepAccounted(ls, After(ls, start, ops[..|ops| - 1]), ops[|ops| - 1]);
    }
  }

  lemma StartAccounted(ls: seq<ComponentLayout>, start: State)
    requires Empty(ls, start)
    ensures Accounted(ls, Ledger(start, [], []))
  {
  }

  /** Over every run that wraps no generation, no handle is handed out twice, and the live
      ones are exactly those handed out and not despawned: a dead handle stays dead. */
  lemma DeadStayDead(ls: seq<ComponentLayout>, start: State, ops: seq<Op>)
    requires Empty(ls, start) && Runs(ls, start, ops)
    ensures var r := After(ls, start, ops);
            && Orderly(ls, r.s)
            && (forall i, j :: 0 <= i < j < |r.handed| ==> r.handed[i] != r.handed[j])
            && (forall e :: IsLive(r.s, e) <==> e in r.handed && e !in r.gone)
            && (forall e :: e in r.gone ==> e in r.handed)
            && (|r.s.generations| < U32 - 1 ==> NextEntity(r.s) !in r.handed)
  {
    hide Runs, After;
    RunAccounted(ls, start, ops);
    var r := After(ls, start, ops);
    hide Orderly;
    assert Orderly(ls, r.s);
    if |r.s.generations| < U32 - 1 {
      assert Allowed(ls, r, SpawnOp);
      SpawnAccounted(ls, r);
    }
  }

  /** What the generation protects, and exactly how far: after a despawn the next handle is
      one handed out before exactly when the generation was the last of 2^32. */
  lemma ReusedExactlyAtWrap(ls: seq<ComponentLayout>, start: State, ops: seq<Op>, e: Entity)
    requires Empty(ls, start) && Runs(ls, start, ops)
    requires IsLive(After(ls, start, ops).s, e) && |After(ls, start, ops).s.generations| < U32 - 1
    ensures var r := After(ls, start, ops);
            && Orderly(ls, r.s)
            && var t := Despawn(ls, r.s, e);
            && Orderly(ls, t) && |t.generations| < U32 - 1
            && (NextEntity(t) in r.handed <==> e.generation == U32 - 1)
  {
    hide Runs, After;
    RunAccounted(ls, start, ops);
    var r := After(ls, start, ops);
    hide Orderly;
    assert Orderly(ls, r.s);
    NextAfterDespawn(ls, r.s, e);
    assert Spent(r.s, Entity(e.index, 0)) <==> e.generation > 0;
  }
}
