/** The replicated state: an allocator with generations and one flat byte column per
    component, and what each operation does to the slots a reader can see. */
module Worlds {
  import opened Common
  import opened Ticks
  import opened Bits
  import opened Values
  import opened Layout

  datatype Entity = Entity(index: Half, generation: Half)

  datatype Column = Column(data: Bytes, present: seq<bool>)

  /** Everything a snapshot copies. */
  datatype State = State(
    tick: Tick, generations: seq<Half>, alive: seq<bool>, free: seq<nat>, columns: seq<Column>)

  const EMPTY := State(0, [], [], [], [])

  // ---------------------------------------------------------------------------
  // Columns

  function Zeros(n: nat): (b: Bytes)
    ensures |b| == n
  {
    seq(n, i => 0)
  }

  ghost predicate ColumnValid(col: Column, stride: nat) {
    |col.data| == |col.present| * stride
  }

  lemma SlotBounds(i: nat, n: nat, stride: nat)
    requires i < n
    ensures 0 <= i * stride && i * stride + stride == (i + 1) * stride <= n * stride
  {
    assert (n - i - 1) * stride >= 0;
    assert n * stride == (i + 1) * stride + (n - i - 1) * stride;
  }

  function SlotOf(col: Column, i: nat, stride: nat): (b: Bytes)
    requires ColumnValid(col, stride) && i < |col.present|
    ensures |b| == stride
  {
    SlotBounds(i, |col.present|, stride);
    col.data[i * stride..i * stride + stride]
  }

  /** `ensure_slots`: grow with absent, zeroed slots. */
  function Grow(col: Column, slots: nat, stride: nat): (r: Column)
    requires ColumnValid(col, stride)
    ensures ColumnValid(r, stride)
    ensures |r.present| == if |col.present| < slots then slots else |col.present|
    ensures forall i :: 0 <= i < |r.present| ==> r.present[i] == (i < |col.present| && col.present[i])
  {
    if |col.present| < slots then
      SlotBounds(|col.present|, slots, stride);
      Column(col.data + Zeros(slots * stride - |col.data|), col.present + seq(slots - |col.present|, i => false))
    else col
  }

  lemma GrowSlots(col: Column, slots: nat, stride: nat, i: nat)
    requires ColumnValid(col, stride) && i < |col.present|
    ensures SlotOf(Grow(col, slots, stride), i, stride) == SlotOf(col, i, stride)
  {
    SlotBounds(i, |col.present|, stride);
  }

  /** Overwrites one slot and its presence flag. */
  function PutSlot(col: Column, i: nat, stride: nat, present: bool, slot: Bytes): (r: Column)
    requires ColumnValid(col, stride) && i < |col.present| && |slot| == stride
    ensures ColumnValid(r, stride) && |r.present| == |col.present|
    ensures r.present == col.present[i := present]
  {
    SlotBounds(i, |col.present|, stride);
    Column(col.data[..i * stride] + slot + col.data[i * stride + stride..], col.present[i := present])
  }

  lemma PutSlots(col: Column, i: nat, stride: nat, present: bool, slot: Bytes, j: nat)
    requires ColumnValid(col, stride) && i < |col.present| && |slot| == stride && j < |col.present|
    ensures SlotOf(PutSlot(col, i, stride, present, slot), j, stride) == if j == i then slot else SlotOf(col, j, stride)
  {
    SlotBounds(i, |col.present|, stride);
    SlotBounds(j, |col.present|, stride);
    if j < i {
      SlotBounds(j, i, stride);
    } else if i < j {
      SlotBounds(i, j, stride);
    }
    hide ColumnValid;
    var a, b := i * stride, j * stride;
    PutBytes(col.data, a, stride, slot, b);
  }

  lemma PutBytes(data: Bytes, a: nat, n: nat, slot: Bytes, b: nat)
    requires |slot| == n && a + n <= |data| && b + n <= |data|
    requires a == b || a + n <= b || b + n <= a
    ensures (data[..a] + slot + data[a + n..])[b..b + n] == if a == b then slot else data[b..b + n]
  {
  }

  // ---------------------------------------------------------------------------
  // What a reader can see of a state

  function LiveAt(s: State, i: nat): Option<Half> {
    if i < |s.generations| && i < |s.alive| && s.alive[i] then Some(s.generations[i]) else None
  }

  function PresentAt(s: State, c: nat, i: nat): bool {
    c < |s.columns| && i < |s.columns[c].present| && s.columns[c].present[i]
  }

  ghost predicate LayoutsValid(ls: seq<ComponentLayout>) {
    forall c :: 0 <= c < |ls| ==> LayoutValid(ls[c])
  }

  /** Columns match their layouts, and a component is present only on a live entity. */
  ghost predicate StateValid(ls: seq<ComponentLayout>, s: State) {
    && LayoutsValid(ls)
    && |s.columns| == |ls|
    && |s.alive| == |s.generations| <= U32
    && (forall c :: 0 <= c < |ls| ==> ColumnValid(s.columns[c], ls[c].stride))
    && (forall c, i :: PresentAt(s, c, i) ==> LiveAt(s, i).Some?)
  }

  function SlotAt(ls: seq<ComponentLayout>, s: State, c: nat, i: nat): (b: Bytes)
    requires StateValid(ls, s) && PresentAt(s, c, i)
    ensures |b| == ls[c].stride
  {
    SlotOf(s.columns[c], i, ls[c].stride)
  }

  function FieldAt(ls: seq<ComponentLayout>, s: State, c: nat, i: nat, f: nat): (v: Value)
    requires StateValid(ls, s) && PresentAt(s, c, i) && f < |ls[c].fields|
    ensures TypeOf(v) == ls[c].fields[f].desc.ty
  {
    Read(ls[c], SlotAt(ls, s, c, i), f)
  }

  /** One component of one slot looks the same in both states. */
  ghost predicate SameCell(ls: seq<ComponentLayout>, s: State, t: State, c: nat, i: nat)
    requires StateValid(ls, s) && StateValid(ls, t)
  {
    && PresentAt(s, c, i) == PresentAt(t, c, i)
    && (PresentAt(s, c, i) ==> SlotAt(ls, s, c, i) == SlotAt(ls, t, c, i))
  }

  // ---------------------------------------------------------------------------
  // Operations

  function Resize<T>(s: seq<T>, n: nat, fill: T): (r: seq<T>)
    ensures |r| == if |s| < n then n else |s|
    ensures s <= r
    ensures forall i :: |s| <= i < |r| ==> r[i] == fill
  {
    if |s| < n then s + seq(n - |s|, i => fill) else s
  }

  function Without(s: seq<nat>, x: nat): (r: seq<nat>)
    ensures forall y :: y in r <==> y in s && y != x
  {
    if |s| == 0 then [] else (if s[0] == x then [] else [s[0]]) + Without(s[1..], x)
  }

  function GrowAll(ls: seq<ComponentLayout>, columns: seq<Column>, slots: nat): (r: seq<Column>)
    requires |columns| == |ls| && forall c :: 0 <= c < |ls| ==> ColumnValid(columns[c], ls[c].stride)
    ensures |r| == |columns|
  {
    seq(|columns|, c requires 0 <= c < |columns| => Grow(columns[c], slots, ls[c].stride))
  }

  /** Spawns an entity with an identity chosen elsewhere. */
  function SpawnAt(ls: seq<ComponentLayout>, s: State, e: Entity): State
    requires StateValid(ls, s)
  {
    var generations := Resize(s.generations, e.index + 1, 0)[e.index := e.generation];
    var alive := Resize(s.alive, e.index + 1, false)[e.index := true];
    State(s.tick, generations, alive, Without(s.free, e.index), GrowAll(ls, s.columns, |generations|))
  }

  lemma SpawnAtKeeps(ls: seq<ComponentLayout>, s: State, e: Entity)
    requires StateValid(ls, s)
    ensures var t := SpawnAt(ls, s, e);
            && StateValid(ls, t) && t.tick == s.tick
            && LiveAt(t, e.index) == Some(e.generation)
            && (forall i | i != e.index :: LiveAt(t, i) == LiveAt(s, i))
            && (forall c, i :: SameCell(ls, s, t, c, i))
            && (forall c | 0 <= c < |ls| :: |t.columns[c].present| > e.index)
  {
    var t := SpawnAt(ls, s, e);
    assert forall c, i :: PresentAt(t, c, i) == PresentAt(s, c, i);
    forall c: nat, i: nat | PresentAt(s, c, i)
      ensures SlotOf(t.columns[c], i, ls[c].stride) == SlotOf(s.columns[c], i, ls[c].stride)
    {
      GrowSlots(s.columns[c], |t.generations|, ls[c].stride, i);
    }
  }

  /** Free slots exist and hold nobody. */
  ghost predicate FreeListValid(s: State) {
    forall k :: 0 <= k < |s.free| ==> s.free[k] < |s.generations| && LiveAt(s, s.free[k]).None?
  }

  /** The identity `spawn` hands out: the most recently freed slot, at the generation it
      was left with, or a new slot. */
  function NextEntity(s: State): Entity
    requires |s.alive| == |s.generations| < U32 - 1 && FreeListValid(s)
  {
    if |s.free| > 0 then Entity(s.free[|s.free| - 1], s.generations[s.free[|s.free| - 1]])
    else Entity(|s.generations|, 0)
  }

  function Spawned(ls: seq<ComponentLayout>, s: State): State
    requires StateValid(ls, s) && |s.generations| < U32 - 1 && FreeListValid(s)
  {
    SpawnAt(ls, s, NextEntity(s)).(free := if |s.free| > 0 then s.free[..|s.free| - 1] else [])
  }

  /** A reader never sees the free list. */
  lemma FreeListUnseen(ls: seq<ComponentLayout>, s: State, t: State)
    requires StateValid(ls, s) && t == s.(free := t.free)
    ensures StateValid(ls, t)
    ensures forall i :: LiveAt(s, i) == LiveAt(t, i)
    ensures forall c, i :: SameCell(ls, s, t, c, i)
  {
    assert forall i :: LiveAt(s, i) == LiveAt(t, i);
    assert forall c, i :: PresentAt(s, c, i) == PresentAt(t, c, i);
  }

  /** A spawn takes a slot nobody lives in, with nothing on it, and disturbs no other. */
  lemma SpawnedKeeps(ls: seq<ComponentLayout>, s: State)
    requires StateValid(ls, s) && |s.generations| < U32 - 1 && FreeListValid(s)
    ensures var e := NextEntity(s); var t := Spawned(ls, s);
            && StateValid(ls, t)
            && LiveAt(s, e.index).None? && LiveAt(t, e.index) == Some(e.generation)
            && (forall c :: !PresentAt(t, c, e.index))
            && (forall i | i != e.index :: LiveAt(t, i) == LiveAt(s, i))
            && (forall c, i :: SameCell(ls, s, t, c, i))
  {
    var e := NextEntity(s);
    SpawnAtKeeps(ls, s, e);
    FreeListUnseen(ls, SpawnAt(ls, s, e), Spawned(ls, s));
    hide SlotAt;
    forall c, i ensures SameCell(ls, s, Spawned(ls, s), c, i) {
      assert SameCell(ls, s, SpawnAt(ls, s, e), c, i);
    }
    forall c ensures !PresentAt(Spawned(ls, s), c, e.index) {
      assert SameCell(ls, s, Spawned(ls, s), c, e.index);
    }
  }

  function ClearCell(col: Column, i: nat, stride: nat): (r: Column)
    requires ColumnValid(col, stride)
    ensures ColumnValid(r, stride) && |r.present| == |col.present|
  {
    if i < |col.present| then PutSlot(col, i, stride, false, Zeros(stride)) else col
  }

  /** Despawns the entity: its slot dies, its components are cleared and zeroed, its
      generation moves on and its index becomes free. */
  function Despawn(ls: seq<ComponentLayout>, s: State, e: Entity): State
    requires StateValid(ls, s)
  {
    if LiveAt(s, e.index) != Some(e.generation) then s
    else
      State(s.tick, s.generations[e.index := (s.generations[e.index] + 1) % U32], s.alive[e.index := false], s.free + [e.index],
            seq(|s.columns|, c requires 0 <= c < |s.columns| => ClearCell(s.columns[c], e.index, ls[c].stride)))
  }

  lemma DespawnKeeps(ls: seq<ComponentLayout>, s: State, e: Entity)
    requires StateValid(ls, s) && LiveAt(s, e.index) == Some(e.generation)
    ensures var t := Despawn(ls, s, e);
            && StateValid(ls, t) && t.tick == s.tick
            && t.generations == s.generations[e.index := (e.generation + 1) % U32]
            && LiveAt(t, e.index) == None
            && (forall c :: !PresentAt(t, c, e.index))
            && (forall i | i != e.index :: LiveAt(t, i) == LiveAt(s, i))
            && (forall c, i | i != e.index :: SameCell(ls, s, t, c, i))
  {
    var t := Despawn(ls, s, e);
    assert forall c, i | i != e.index :: PresentAt(t, c, i) == PresentAt(s, c, i);
    forall c: nat, i: nat | PresentAt(s, c, i) && i != e.index
      ensures SlotOf(t.columns[c], i, ls[c].stride) == SlotOf(s.columns[c], i, ls[c].stride)
    {
      if e.index < |s.columns[c].present| {
        PutSlots(s.columns[c], e.index, ls[c].stride, false, Zeros(ls[c].stride), i);
      }
    }
  }

  /** Adds a component, zero-initialised unless already there. */
  function InsertCell(ls: seq<ComponentLayout>, s: State, i: nat, c: nat): State
    requires StateValid(ls, s) && c < |ls|
  {
    var col := Grow(s.columns[c], i + 1, ls[c].stride);
    if col.present[i] then s.(columns := s.columns[c := col])
    else s.(columns := s.columns[c := PutSlot(col, i, ls[c].stride, true, Zeros(ls[c].stride))])
  }

  lemma InsertKeeps(ls: seq<ComponentLayout>, s: State, i: nat, c: nat)
    requires StateValid(ls, s) && c < |ls| && LiveAt(s, i).Some?
    ensures var t := InsertCell(ls, s, i, c);
            && StateValid(ls, t)
            && t.tick == s.tick && t.generations == s.generations && t.alive == s.alive
            && PresentAt(t, c, i)
            && (PresentAt(s, c, i) ==> SameCell(ls, s, t, c, i))
            && (forall d, k | d != c || k != i :: SameCell(ls, s, t, d, k))
  {
    var t := InsertCell(ls, s, i, c);
    var stride := ls[c].stride;
    var col := Grow(s.columns[c], i + 1, stride);
    assert forall d, k | d != c || k != i :: PresentAt(t, d, k) == PresentAt(s, d, k);
    assert forall k :: LiveAt(t, k) == LiveAt(s, k);
    forall k | PresentAt(s, c, k) && (k != i || PresentAt(s, c, i))
      ensures SlotOf(t.columns[c], k, stride) == SlotOf(s.columns[c], k, stride)
    {
      GrowSlots(s.columns[c], i + 1, stride, k);
      if !col.present[i] {
        PutSlots(col, i, stride, true, Zeros(stride), k);
      }
    }
  }

  function RemoveCell(ls: seq<ComponentLayout>, s: State, i: nat, c: nat): State
    requires StateValid(ls, s) && c < |ls|
  {
    if PresentAt(s, c, i) then s.(columns := s.columns[c := PutSlot(s.columns[c], i, ls[c].stride, false, Zeros(ls[c].stride))])
    else s
  }

  lemma RemoveKeeps(ls: seq<ComponentLayout>, s: State, i: nat, c: nat)
    requires StateValid(ls, s) && c < |ls|
    ensures var t := RemoveCell(ls, s, i, c);
            && StateValid(ls, t)
            && t.tick == s.tick && t.generations == s.generations && t.alive == s.alive
            && !PresentAt(t, c, i)
            && (forall d, k | d != c || k != i :: SameCell(ls, s, t, d, k))
  {
    var t := RemoveCell(ls, s, i, c);
    assert forall d, k | d != c || k != i :: PresentAt(t, d, k) == PresentAt(s, d, k);
    assert forall k :: LiveAt(t, k) == LiveAt(s, k);
    forall k | PresentAt(s, c, k) && PresentAt(s, c, i) && k != i
      ensures SlotOf(t.columns[c], k, ls[c].stride) == SlotOf(s.columns[c], k, ls[c].stride)
    {
      PutSlots(s.columns[c], i, ls[c].stride, false, Zeros(ls[c].stride), k);
    }
  }

  /** Writes one field of a present component. */
  function WriteCell(ls: seq<ComponentLayout>, s: State, i: nat, c: nat, f: nat, v: Value): State
    requires StateValid(ls, s) && PresentAt(s, c, i) && f < |ls[c].fields| && TypeOf(v) == ls[c].fields[f].desc.ty
  {
    var slot := Write(ls[c], SlotAt(ls, s, c, i), f, v);
    s.(columns := s.columns[c := PutSlot(s.columns[c], i, ls[c].stride, true, slot)])
  }

  lemma WriteKeeps(ls: seq<ComponentLayout>, s: State, i: nat, c: nat, f: nat, v: Value)
    requires StateValid(ls, s) && PresentAt(s, c, i) && f < |ls[c].fields| && TypeOf(v) == ls[c].fields[f].desc.ty
    ensures var t := WriteCell(ls, s, i, c, f, v);
            && StateValid(ls, t)
            && t.tick == s.tick && t.generations == s.generations && t.alive == s.alive
            && PresentAt(t, c, i)
            && (forall g | 0 <= g < |ls[c].fields| ::
                  FieldAt(ls, t, c, i, g) == if g == f then v else FieldAt(ls, s, c, i, g))
            && (forall d, k | d != c || k != i :: SameCell(ls, s, t, d, k))
  {
    var t := WriteCell(ls, s, i, c, f, v);
    var slot := Write(ls[c], SlotAt(ls, s, c, i), f, v);
    assert forall d, k :: PresentAt(t, d, k) == PresentAt(s, d, k);
    assert forall k :: LiveAt(t, k) == LiveAt(s, k);
    forall k | PresentAt(s, c, k)
      ensures SlotOf(t.columns[c], k, ls[c].stride) == if k == i then slot else SlotOf(s.columns[c], k, ls[c].stride)
    {
      PutSlots(s.columns[c], i, ls[c].stride, true, slot, k);
    }
    forall g | 0 <= g < |ls[c].fields|
      ensures Read(ls[c], slot, g) == if g == f then v else FieldAt(ls, s, c, i, g)
    {
      WriteRead(ls[c], SlotAt(ls, s, c, i), f, v, g);
    }
  }
}
