/** A delta carries what changed and nothing else: which slots it mentions, with which
    operation, and every bit of its size. */
module Minimality {
  import opened Common
  import opened Fixed
  import opened Bits
  import opened Schema
  import opened Values
  import opened Layout
  import opened Worlds
  import opened Delta
  import opened Replication

  /** The baseline already shows the slot as it would be sent. */
  ghost predicate Shown(reg: Registry, cur: State, base: Option<State>, i: nat)
    requires SameSchema(reg, reg) && Valid(reg, cur) && BaseValid(reg, base)
  {
    if base.Some? then SlotAsSent(reg, cur, reg, base.value, i) else LiveAt(cur, i).None?
  }

  lemma SlotIsItself(reg: Registry, s: State, i: nat)
    requires SameSchema(reg, reg) && Valid(reg, s)
    ensures SameSlot(reg, s, reg, s, i)
  {
    hide LayoutValid, StateValid;
  }

  /** Nothing is said about a slot exactly when the baseline already shows what would be. */
  lemma SilentExactly(reg: Registry, cur: State, base: Option<State>, i: Half)
    requires SameSchema(reg, reg) && Valid(reg, cur) && BaseValid(reg, base)
    ensures EntryFor(reg, cur, base, i) == Ok(None) <==> Shown(reg, cur, base, i)
  {
    hide LayoutValid, StateValid, ComponentsPayload, SlotAsSent, SameSlot, PresenceMask;
    if base.Some? {
      SlotIsItself(reg, base.value, i);
      if EntryFor(reg, cur, base, i) == Ok(None) {
        SilentSlot(reg, cur, base, reg, base.value, i);
      }
      if Shown(reg, cur, base, i) {
        SentSlotIsSilent(reg, cur, base.value, i);
      }
    }
  }

  /** What a mention says happened: a despawn when nobody lives there any more, a spawn when
      the one who does is not the one the baseline shows, an update otherwise. */
  lemma OperationIs(reg: Registry, cur: State, base: Option<State>, i: Half)
    requires SameSchema(reg, reg) && Valid(reg, cur) && BaseValid(reg, base)
    requires EntryFor(reg, cur, base, i).Ok? && !Shown(reg, cur, base, i)
    ensures EntryFor(reg, cur, base, i).value.Some?
    ensures var e := EntryFor(reg, cur, base, i).value.value;
            var before := if base.Some? then LiveAt(base.value, i) else None;
            && e.index == i
            && (e.op == Despawned <==> LiveAt(cur, i).None?)
            && (e.op == Spawn <==> LiveAt(cur, i).Some? && before != LiveAt(cur, i))
            && (LiveAt(cur, i).Some? ==> e.generation == LiveAt(cur, i).value)
            && (LiveAt(cur, i).None? ==> before.Some?)
  {
    hide LayoutValid, StateValid, ComponentsPayload, SlotAsSent, PresenceMask;
    SilentExactly(reg, cur, base, i);
  }

  // ----- every bit accounted for -----

  /** The baseline shows this very entity with this field's value as it would be sent. */
  ghost predicate FieldShown(reg: Registry, cur: State, base: Option<State>, c: nat, i: nat, f: nat)
    requires Valid(reg, cur) && BaseValid(reg, base) && PresentAt(cur, c, i) && f < |reg.layouts[c].fields|
  {
    && base.Some? && LiveAt(base.value, i) == LiveAt(cur, i) && PresentAt(base.value, c, i)
    && FieldAt(reg.layouts, base.value, c, i, f)
       == LossyRoundTrip(reg.layouts[c].fields[f].desc, FieldAt(reg.layouts, cur, c, i, f))
  }

  function EncodedSize(d: FieldDesc, v: Value): nat
    requires ParametersValid(d) && Storable(d.ty)
  {
    if EncodeFixed(d, v).Ok? then |EncodeFixed(d, v).value| else 0
  }

  /** Which fields the baseline does not show as they would be sent. */
  ghost function UnshownFields(reg: Registry, cur: State, base: Option<State>, c: nat, i: nat): (m: seq<bool>)
    requires Valid(reg, cur) && BaseValid(reg, base) && PresentAt(cur, c, i)
    ensures |m| == |reg.layouts[c].fields|
  {
    seq(|reg.layouts[c].fields|, f requires 0 <= f < |reg.layouts[c].fields| => !FieldShown(reg, cur, base, c, i, f))
  }

  /** The encodings of the marked values from `f` on. */
  function MarkedSize(l: ComponentLayout, vals: seq<Value>, marked: seq<bool>, f: nat): nat
    requires LayoutValid(l) && ValuesFit(l, vals) && |marked| == |vals| && f <= |vals|
    decreases |vals| - f
  {
    if f == |vals| then 0
    else (if marked[f] then EncodedSize(l.fields[f].desc, vals[f]) else 0) + MarkedSize(l, vals, marked, f + 1)
  }

  /** Nothing for a field already shown, its encoding for any other. */
  ghost function FieldsSize(reg: Registry, cur: State, base: Option<State>, c: nat, i: nat): nat
    requires Valid(reg, cur) && BaseValid(reg, base) && PresentAt(cur, c, i)
  {
    MarkedSize(reg.layouts[c], SentValues(reg, cur, c, i), UnshownFields(reg, cur, base, c, i), 0)
  }

  /** The components from canonical position `j` on: one mask bit a field, and the fields. */
  ghost function ComponentsSize(reg: Registry, cur: State, base: Option<State>, i: nat, j: nat): nat
    requires Valid(reg, cur) && BaseValid(reg, base) && j <= |reg.canon|
    decreases |reg.canon| - j
  {
    if j == |reg.canon| then 0
    else
      var c := reg.canon[j];
      (if PresentAt(cur, c, i) then |reg.layouts[c].fields| + FieldsSize(reg, cur, base, c, i) else 0)
      + ComponentsSize(reg, cur, base, i, j + 1)
  }

  /** One slot's entry, after slot `prev`: gap, operation, the generation of a new entity, one
      presence bit a component, and the components. */
  ghost function SlotSize(reg: Registry, cur: State, base: Option<State>, i: nat, prev: int): nat
    requires Valid(reg, cur) && BaseValid(reg, base) && prev < i
  {
    |VaruintBits(i - prev - 1)| + 2
    + if LiveAt(cur, i).None? then 0
      else
        (if base.Some? && LiveAt(base.value, i) == LiveAt(cur, i) then 0 else |VaruintBits(LiveAt(cur, i).value)|)
        + |reg.canon| + ComponentsSize(reg, cur, base, i, 0)
  }

  /** The slots from `i` to `n`, after an entry for slot `prev`. */
  ghost function SlotsSize(reg: Registry, cur: State, base: Option<State>, i: nat, n: nat, prev: int): nat
    requires SameSchema(reg, reg) && Valid(reg, cur) && BaseValid(reg, base) && prev < i <= n
    decreases n - i
  {
    if i == n then 0
    else if Shown(reg, cur, base, i) then SlotsSize(reg, cur, base, i + 1, n, prev)
    else SlotSize(reg, cur, base, i, prev) + SlotsSize(reg, cur, base, i + 1, n, i)
  }

  ghost function Unshown(reg: Registry, cur: State, base: Option<State>, i: nat, n: nat): nat
    requires SameSchema(reg, reg) && Valid(reg, cur) && BaseValid(reg, base) && i <= n
    decreases n - i
  {
    if i == n then 0 else (if Shown(reg, cur, base, i) then 0 else 1) + Unshown(reg, cur, base, i + 1, n)
  }

  lemma DirtyIsUnshown(reg: Registry, cur: State, base: Option<State>, c: nat, i: nat, f: nat)
    requires Valid(reg, cur) && BaseValid(reg, base) && PresentAt(cur, c, i) && f < |reg.layouts[c].fields|
    requires LiveAt(cur, i).Some?
    ensures DirtyMask(reg, cur, base, IsSpawn(base, i, LiveAt(cur, i).value), c, i)[f]
            <==> !FieldShown(reg, cur, base, c, i, f)
  {
    hide LayoutValid, StateValid, FieldAt;
  }

  lemma {:induction false} DirtySized(l: ComponentLayout, vals: seq<Value>, dirty: seq<bool>, f: nat)
    requires LayoutValid(l) && ValuesFit(l, vals) && |dirty| == |vals| && f <= |vals|
    ensures EncodeDirty(l, vals, dirty, f).Ok? ==> |EncodeDirty(l, vals, dirty, f).value| == MarkedSize(l, vals, dirty, f)
    decreases |vals| - f
  {
    hide EncodeFixed;
    if f < |vals| {
      DirtySized(l, vals, dirty, f + 1);
    }
  }

  lemma FieldsSized(reg: Registry, cur: State, base: Option<State>, c: nat, i: nat)
    requires Valid(reg, cur) && BaseValid(reg, base) && PresentAt(cur, c, i) && LiveAt(cur, i).Some?
    ensures var dirty := DirtyMask(reg, cur, base, IsSpawn(base, i, LiveAt(cur, i).value), c, i);
            var r := EncodeDirty(reg.layouts[c], SentValues(reg, cur, c, i), dirty, 0);
            r.Ok? ==> |r.value| == FieldsSize(reg, cur, base, c, i)
  {
    assert c < |reg.layouts|;
    hide StateValid, FieldAt, DirtyMask, EncodeDirty, MarkedSize, SentValues, FieldShown;
    var dirty := DirtyMask(reg, cur, base, IsSpawn(base, i, LiveAt(cur, i).value), c, i);
    DirtySized(reg.layouts[c], SentValues(reg, cur, c, i), dirty, 0);
    forall f | 0 <= f < |dirty|
      ensures dirty[f] == UnshownFields(reg, cur, base, c, i)[f]
    {
      DirtyIsUnshown(reg, cur, base, c, i, f);
    }
    assert dirty == UnshownFields(reg, cur, base, c, i);
  }

  lemma {:induction false} ComponentsSized(reg: Registry, cur: State, base: Option<State>, i: nat, j: nat)
    requires Valid(reg, cur) && BaseValid(reg, base) && j <= |reg.canon| && LiveAt(cur, i).Some?
    ensures var r := ComponentsPayload(reg, cur, base, IsSpawn(base, i, LiveAt(cur, i).value), i, j);
            r.Ok? ==> |r.value.0| == ComponentsSize(reg, cur, base, i, j)
    decreases |reg.canon| - j
  {
    hide LayoutValid, StateValid, DirtyMask, EncodeDirty, FieldsSize, SentValues;
    if j < |reg.canon| {
      ComponentsSized(reg, cur, base, i, j + 1);
      if PresentAt(cur, reg.canon[j], i) {
        FieldsSized(reg, cur, base, reg.canon[j], i);
      }
    }
  }

  lemma EntrySized(reg: Registry, cur: State, base: Option<State>, i: Half, prev: int)
    requires SameSchema(reg, reg) && Valid(reg, cur) && BaseValid(reg, base) && prev < i
    requires EntryFor(reg, cur, base, i).Ok? && EntryFor(reg, cur, base, i).value.Some?
    ensures var e := EntryFor(reg, cur, base, i).value.value;
            e.index == i && |EntryBits(e, prev)| == SlotSize(reg, cur, base, i, prev)
  {
    hide LayoutValid, StateValid, ComponentsPayload, ComponentsSize, VaruintBits, PresenceChanged;
    if LiveAt(cur, i).Some? {
      ComponentsSized(reg, cur, base, i, 0);
    }
  }

  lemma {:induction false} EntriesSized(reg: Registry, cur: State, base: Option<State>, i: nat, n: Half, prev: int)
    requires SameSchema(reg, reg) && Valid(reg, cur) && BaseValid(reg, base) && prev < i <= n
    requires Entries(reg, cur, base, i, n).Ok?
    ensures var entries := Entries(reg, cur, base, i, n).value;
            && Ascending(entries, prev)
            && |entries| == Unshown(reg, cur, base, i, n)
            && |EntriesBits(entries, prev)| == SlotsSize(reg, cur, base, i, n, prev)
    decreases n - i
  {
    hide LayoutValid, StateValid, EntryFor, Shown, EntryBits, SlotSize;
    EntriesAscend(reg, cur, base, i, n, prev);
    if i < n {
      SilentExactly(reg, cur, base, i);
      if Shown(reg, cur, base, i) {
        EntriesSized(reg, cur, base, i + 1, n, prev);
      } else {
        EntriesSized(reg, cur, base, i + 1, n, i);
        EntrySized(reg, cur, base, i, prev);
        var entries := Entries(reg, cur, base, i, n).value;
        assert entries[1..] == Entries(reg, cur, base, i + 1, n).value;
      }
    }
  }

  /** The delta mentions exactly the slots the baseline does not show as they would be sent,
      and its size is theirs, field by field: a field the baseline shows costs its mask bit. */
  lemma DeltaIsMinimal(reg: Registry, cur: State, base: Option<State>)
    requires SameSchema(reg, reg) && Valid(reg, cur) && BaseValid(reg, base) && SlotMax(cur, base) < U32
    requires EncodeDelta(reg, cur, base).Ok?
    ensures var d := EncodeDelta(reg, cur, base).value;
            && d.count == Unshown(reg, cur, base, 0, SlotMax(cur, base))
            && |d.bits| == 64 + |VaruintBits(d.count)| + SlotsSize(reg, cur, base, 0, SlotMax(cur, base), -1)
  {
    hide LayoutValid, StateValid, Entries, EntriesBits, SlotsSize, Unshown, VaruintBits, AsSent;
    EntriesSized(reg, cur, base, 0, SlotMax(cur, base), -1);
  }

  /** Beyond the slots either side has, everything is shown. */
  lemma NothingBeyond(reg: Registry, cur: State, base: Option<State>, i: nat)
    requires SameSchema(reg, reg) && Valid(reg, cur) && BaseValid(reg, base) && i >= SlotMax(cur, base)
    ensures Shown(reg, cur, base, i)
  {
    if base.Some? {
      DeadSlotAsSent(reg, cur, reg, base.value, i);
    }
  }

  /** The header names the tick, the baseline's tick or the mark for none, and how many slots
      follow. */
  lemma HeaderReads(reg: Registry, cur: State, base: Option<State>, padding: Stream)
    requires SameSchema(reg, reg) && Valid(reg, cur) && BaseValid(reg, base) && SlotMax(cur, base) < U32
    requires EncodeDelta(reg, cur, base).Ok?
    ensures var d := EncodeDelta(reg, cur, base).value;
            var tick := ReadBits(d.bits + padding, 32);
            && tick.Ok? && tick.value.0 == cur.tick
            && var against := ReadBits(tick.value.1, 32);
            && against.Ok? && against.value.0 == (if base.Some? then base.value.tick else 0xFFFF_FFFF)
            && var count := ReadVaruint(against.value.1);
            count.Ok? && count.value.0 == d.count
  {
    hide LayoutValid, StateValid, Entries, EntriesBits, VaruintBits, AsSent, BitsOf, ReadBits, ReadVaruint, Pow2;
    var d := EncodeDelta(reg, cur, base).value;
    var entries := Entries(reg, cur, base, 0, SlotMax(cur, base)).value;
    EntriesAscend(reg, cur, base, 0, SlotMax(cur, base), -1);
    FewEntries(reg, cur, base, 0, SlotMax(cur, base));
    var tail := EntriesBits(entries, -1) + padding;
    var counted := VaruintBits(|entries|) + tail;
    var dated := BitsOf(BaseTick(base), 32) + counted;
    assert d.bits + padding == BitsOf(cur.tick, 32) + dated;
    Pow2Values();
    ReadWritten(cur.tick, 32, dated);
    ReadWritten(BaseTick(base), 32, counted);
    VaruintRoundTrip(|entries|, tail);
  }

  lemma {:induction false} FewEntries(reg: Registry, cur: State, base: Option<State>, i: nat, n: Half)
    requires Valid(reg, cur) && BaseValid(reg, base) && i <= n && Entries(reg, cur, base, i, n).Ok?
    ensures |Entries(reg, cur, base, i, n).value| <= n - i
    decreases n - i
  {
    hide LayoutValid, StateValid, EntryFor;
    if i < n {
      FewEntries(reg, cur, base, i + 1, n);
    }
  }
}
