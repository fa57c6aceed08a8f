/** Delta replication: a receiver holding the baseline ends with exactly what the sender
    expects it to hold, run after run. */
module Replication {
  import opened Common
  import opened Ticks
  import opened Fixed
  import opened Bits
  import opened Schema
  import opened Values
  import opened Codec
  import opened Layout
  import opened Worlds
  import opened Delta

  // ---------------------------------------------------------------------------
  // The live view, compared across registries

  /** Both peers registered the same components, in whatever order. */
  ghost predicate SameSchema(ra: Registry, rb: Registry) {
    && RegistryValid(ra) && RegistryValid(rb)
    && |ra.canon| == |rb.canon|
    && forall j :: 0 <= j < |ra.canon| ==> ra.layouts[ra.canon[j]] == rb.layouts[rb.canon[j]]
  }

  /** One component of one slot, field by field. */
  ghost predicate SameComponent(ra: Registry, a: State, rb: Registry, b: State, j: nat, i: nat)
    requires SameSchema(ra, rb) && Valid(ra, a) && Valid(rb, b) && j < |ra.canon|
  {
    var c, d := ra.canon[j], rb.canon[j];
    && PresentAt(a, c, i) == PresentAt(b, d, i)
    && (PresentAt(a, c, i) ==>
          forall f :: 0 <= f < |ra.layouts[c].fields| ==> FieldAt(ra.layouts, a, c, i, f) == FieldAt(rb.layouts, b, d, i, f))
  }

  ghost predicate SameSlot(ra: Registry, a: State, rb: Registry, b: State, i: nat)
    requires SameSchema(ra, rb) && Valid(ra, a) && Valid(rb, b)
  {
    && LiveAt(a, i) == LiveAt(b, i)
    && forall j :: 0 <= j < |ra.canon| ==> SameComponent(ra, a, rb, b, j, i)
  }

  /** Same live handles, same presence, same field values. */
  ghost predicate SameView(ra: Registry, a: State, rb: Registry, b: State)
    requires SameSchema(ra, rb) && Valid(ra, a) && Valid(rb, b)
  {
    forall i: nat :: SameSlot(ra, a, rb, b, i)
  }

  /** Nothing about this slot changed in one registry's state. */
  ghost predicate Untouched(reg: Registry, s: State, t: State, i: nat)
    requires Valid(reg, s) && Valid(reg, t)
  {
    LiveAt(s, i) == LiveAt(t, i) && forall c :: SameCell(reg.layouts, s, t, c, i)
  }

  // ---------------------------------------------------------------------------
  // One component

  /** What a receiver that holds the clean fields already ends with: the dirty ones as they
      decode. */
  function Landed(l: ComponentLayout, vals: seq<Value>, dirty: seq<bool>): (r: seq<Value>)
    requires LayoutValid(l) && ValuesFit(l, vals) && |dirty| == |vals|
    ensures ValuesFit(l, r)
  {
    seq(|vals|, f requires 0 <= f < |vals| => if dirty[f] then Received(l.fields[f].desc, vals[f]) else vals[f])
  }

  /** A stretch of values that can be encoded as its mask says. */
  ghost predicate Encodable(l: ComponentLayout, vals: seq<Value>, dirty: seq<bool>) {
    LayoutValid(l) && ValuesFit(l, vals) && |dirty| == |vals|
  }

  ghost predicate Holds(reg: Registry, s: State, c: nat, i: nat, vals: seq<Value>, f: nat)
    requires Valid(reg, s) && PresentAt(s, c, i) && ValuesFit(reg.layouts[c], vals) && f < |vals|
  {
    FieldAt(reg.layouts, s, c, i, f) == vals[f]
  }

  /** Everything but one cell is as it was. */
  ghost predicate OnlyCell(reg: Registry, s: State, t: State, c: nat, i: nat)
    requires Valid(reg, s) && Valid(reg, t)
  {
    && t.tick == s.tick && t.generations == s.generations && t.alive == s.alive
    && forall d, k :: d != c || k != i ==> SameCell(reg.layouts, s, t, d, k)
  }

  lemma OnlyCellTrans(reg: Registry, s: State, t: State, u: State, c: nat, i: nat)
    requires Valid(reg, s) && Valid(reg, t) && Valid(reg, u)
    requires OnlyCell(reg, s, t, c, i) && OnlyCell(reg, t, u, c, i)
    ensures OnlyCell(reg, s, u, c, i)
  {
    hide StateValid, SlotAt;
    forall d, k | d != c || k != i ensures SameCell(reg.layouts, s, u, d, k) {
      assert SameCell(reg.layouts, s, t, d, k) && SameCell(reg.layouts, t, u, d, k);
    }
  }

  lemma FieldStored(reg: Registry, s: State, c: nat, i: nat, vals: seq<Value>, f: nat)
    requires Valid(reg, s) && PresentAt(s, c, i) && ValuesFit(reg.layouts[c], vals) && f < |vals|
    ensures var t := WriteCell(reg.layouts, s, i, c, f, vals[f]);
            && Valid(reg, t) && PresentAt(t, c, i) && OnlyCell(reg, s, t, c, i)
            && Holds(reg, t, c, i, vals, f)
            && (forall g :: 0 <= g < |vals| && g != f && Holds(reg, s, c, i, vals, g) ==> Holds(reg, t, c, i, vals, g))
  {
    hide WriteCell, StateValid, LayoutValid, FieldAt;
    WriteKeeps(reg.layouts, s, i, c, f, vals[f]);
  }

  lemma {:induction false} DirtyDecodes(l: ComponentLayout, vals: seq<Value>, dirty: seq<bool>, f: nat, rest: Stream)
    requires Encodable(l, vals, dirty) && f < |vals| && dirty[f]
    requires EncodeDirty(l, vals, dirty, f).Ok?
    ensures EncodeDirty(l, vals, dirty, f + 1).Ok?
    ensures DecodeFixed(l.fields[f].desc, EncodeDirty(l, vals, dirty, f).value + rest)
            == Ok((Landed(l, vals, dirty)[f], EncodeDirty(l, vals, dirty, f + 1).value + rest))
  {
    hide EncodeFixed, DecodeFixed, Received;
    var first := EncodeFixed(l.fields[f].desc, vals[f]).value;
    var others := EncodeDirty(l, vals, dirty, f + 1).value;
    assert first + others + rest == first + (others + rest);
    FixedRoundTrip(l.fields[f].desc, vals[f], others + rest);
  }

  /** A clean field adds nothing to the encoding. */
  lemma DirtySkips(l: ComponentLayout, vals: seq<Value>, dirty: seq<bool>, f: nat)
    requires LayoutValid(l) && ValuesFit(l, vals) && |dirty| == |vals| && f <= |vals|
    ensures f == |vals| ==> EncodeDirty(l, vals, dirty, f) == Ok([])
    ensures f < |vals| && !dirty[f] ==> EncodeDirty(l, vals, dirty, f) == EncodeDirty(l, vals, dirty, f + 1)
  {
    hide EncodeFixed, LayoutValid;
  }

  /** What applying does at one field, given what reading it yields. */
  lemma ApplyFieldStep(reg: Registry, s: State, c: nat, i: nat, dirty: seq<bool>, f: nat, bits: Stream)
    requires Valid(reg, s) && PresentAt(s, c, i) && c < |reg.layouts| && LayoutValid(reg.layouts[c])
    requires |dirty| == |reg.layouts[c].fields| && f <= |dirty|
    ensures f == |dirty| ==> ApplyFields(reg, s, c, i, dirty, f, bits) == Ok((s, bits))
    ensures f < |dirty| && !dirty[f] ==>
              ApplyFields(reg, s, c, i, dirty, f, bits) == ApplyFields(reg, s, c, i, dirty, f + 1, bits)
    ensures f < |dirty| && dirty[f] && DecodeFixed(reg.layouts[c].fields[f].desc, bits).Ok? ==>
              var (v, rest) := DecodeFixed(reg.layouts[c].fields[f].desc, bits).value;
              && TypeOf(v) == reg.layouts[c].fields[f].desc.ty
              && var t := WriteCell(reg.layouts, s, i, c, f, v);
              && Valid(reg, t) && PresentAt(t, c, i)
              && ApplyFields(reg, s, c, i, dirty, f, bits) == ApplyFields(reg, t, c, i, dirty, f + 1, rest)
  {
    hide StateValid, WriteCell, DecodeFixed, LayoutValid;
    if f < |dirty| && dirty[f] {
      FieldDeclared(reg.layouts[c], f);
      DecodedType(reg.layouts[c].fields[f].desc, bits);
    }
    if f < |dirty| && dirty[f] && DecodeFixed(reg.layouts[c].fields[f].desc, bits).Ok? {
      WriteKeeps(reg.layouts, s, i, c, f, DecodeFixed(reg.layouts[c].fields[f].desc, bits).value.0);
    }
  }

  lemma FieldDeclared(l: ComponentLayout, f: nat)
    requires LayoutValid(l) && f < |l.fields|
    ensures ParametersValid(l.fields[f].desc) && Storable(l.fields[f].desc.ty)
  {
  }

  /** The fields hold exactly these values, nothing else moved, and this is left to read. */
  ghost predicate Filled(reg: Registry, s: State, c: nat, i: nat, vals: seq<Value>, r: Applied, rest: Stream)
    requires Valid(reg, s) && (r.Ok? ==> Valid(reg, r.value.0)) && c < |reg.layouts| && ValuesFit(reg.layouts[c], vals)
  {
    && r.Ok? && r.value.1 == rest
    && PresentAt(r.value.0, c, i)
    && (forall g :: 0 <= g < |vals| ==> Holds(reg, r.value.0, c, i, vals, g))
    && OnlyCell(reg, s, r.value.0, c, i)
  }

  lemma FilledSelf(reg: Registry, s: State, c: nat, i: nat, vals: seq<Value>, rest: Stream)
    requires Valid(reg, s) && c < |reg.layouts| && PresentAt(s, c, i) && ValuesFit(reg.layouts[c], vals)
    requires forall g :: 0 <= g < |vals| ==> Holds(reg, s, c, i, vals, g)
    ensures Filled(reg, s, c, i, vals, Ok((s, rest)), rest)
  {
    hide LayoutValid, StateValid, Holds, OnlyCell;
    OnlyCellSelf(reg, s, c, i);
  }

  lemma FilledBack(reg: Registry, s: State, t: State, c: nat, i: nat, vals: seq<Value>, r: Applied, rest: Stream)
    requires Valid(reg, s) && Valid(reg, t) && (r.Ok? ==> Valid(reg, r.value.0))
    requires c < |reg.layouts| && ValuesFit(reg.layouts[c], vals)
    requires OnlyCell(reg, s, t, c, i) && Filled(reg, t, c, i, vals, r, rest)
    ensures Filled(reg, s, c, i, vals, r, rest)
  {
    hide LayoutValid, StateValid, Holds, OnlyCell;
    OnlyCellTrans(reg, s, t, r.value.0, c, i);
  }

  /** One dirty field: it is read back and stored, and the rest are still to read. */
  lemma DirtyFieldApplies(reg: Registry, s: State, c: nat, i: nat, vals: seq<Value>, dirty: seq<bool>, f: nat, rest: Stream)
    returns (t: State, others: Stream)
    requires Valid(reg, s) && PresentAt(s, c, i) && c < |reg.layouts| && Encodable(reg.layouts[c], vals, dirty)
    requires f < |vals| && dirty[f]
    requires EncodeDirty(reg.layouts[c], vals, dirty, f).Ok?
    ensures EncodeDirty(reg.layouts[c], vals, dirty, f + 1) == Ok(others)
    ensures Valid(reg, t) && PresentAt(t, c, i) && OnlyCell(reg, s, t, c, i) && Holds(reg, t, c, i, Landed(reg.layouts[c], vals, dirty), f)
    ensures forall g :: 0 <= g < |vals| && g != f && Holds(reg, s, c, i, Landed(reg.layouts[c], vals, dirty), g) ==>
              Holds(reg, t, c, i, Landed(reg.layouts[c], vals, dirty), g)
    ensures ApplyFields(reg, s, c, i, dirty, f, EncodeDirty(reg.layouts[c], vals, dirty, f).value + rest) ==
            ApplyFields(reg, t, c, i, dirty, f + 1, others + rest)
  {
    hide LayoutValid, StateValid, WriteCell, DecodeFixed, Holds, OnlyCell, Received, EncodeDirty, ApplyFields;
    var l := reg.layouts[c];
    DirtyDecodes(l, vals, dirty, f, rest);
    others := EncodeDirty(l, vals, dirty, f + 1).value;
    ApplyFieldStep(reg, s, c, i, dirty, f, EncodeDirty(l, vals, dirty, f).value + rest);
    var landed := Landed(l, vals, dirty);
    FieldStored(reg, s, c, i, landed, f);
    t := WriteCell(reg.layouts, s, i, c, f, landed[f]);
  }

  /** Reading the dirty fields fills in exactly what they decode to. */
  lemma {:induction false} FieldsApply(reg: Registry, s: State, c: nat, i: nat, vals: seq<Value>, dirty: seq<bool>, f: nat, rest: Stream)
    requires Valid(reg, s) && PresentAt(s, c, i) && c < |reg.layouts| && Encodable(reg.layouts[c], vals, dirty)
    requires f <= |vals|
    requires EncodeDirty(reg.layouts[c], vals, dirty, f).Ok?
    requires forall g :: 0 <= g < |vals| && (g < f || !dirty[g]) ==>
               Holds(reg, s, c, i, Landed(reg.layouts[c], vals, dirty), g)
    ensures var r := ApplyFields(reg, s, c, i, dirty, f, EncodeDirty(reg.layouts[c], vals, dirty, f).value + rest);
            Filled(reg, s, c, i, Landed(reg.layouts[c], vals, dirty), r, rest)
    decreases |vals| - f
  {
    hide LayoutValid, StateValid, Holds, OnlyCell, EncodeDirty, ApplyFields, Filled, Landed;
    var bits := EncodeDirty(reg.layouts[c], vals, dirty, f).value + rest;
    if f == |vals| {
      NothingLeft(reg, s, c, i, vals, dirty, rest);
    } else if !dirty[f] {
      DirtySkips(reg.layouts[c], vals, dirty, f);
      ApplyFieldStep(reg, s, c, i, dirty, f, bits);
      FieldsApply(reg, s, c, i, vals, dirty, f + 1, rest);
    } else {
      var t, others := DirtyFieldApplies(reg, s, c, i, vals, dirty, f, rest);
      FieldsApply(reg, t, c, i, vals, dirty, f + 1, rest);
      FilledBack(reg, s, t, c, i, Landed(reg.layouts[c], vals, dirty), ApplyFields(reg, s, c, i, dirty, f, bits), rest);
    }
  }

  lemma NothingLeft(reg: Registry, s: State, c: nat, i: nat, vals: seq<Value>, dirty: seq<bool>, rest: Stream)
    requires Valid(reg, s) && PresentAt(s, c, i) && c < |reg.layouts| && Encodable(reg.layouts[c], vals, dirty)
    requires forall g :: 0 <= g < |vals| ==> Holds(reg, s, c, i, Landed(reg.layouts[c], vals, dirty), g)
    ensures EncodeDirty(reg.layouts[c], vals, dirty, |vals|) == Ok([])
    ensures Filled(reg, s, c, i, Landed(reg.layouts[c], vals, dirty), ApplyFields(reg, s, c, i, dirty, |vals|, [] + rest), rest)
  {
    hide LayoutValid, StateValid, Holds, OnlyCell, Filled;
    assert [] + rest == rest;
    DirtySkips(reg.layouts[c], vals, dirty, |vals|);
    ApplyFieldStep(reg, s, c, i, dirty, |vals|, rest);
    FilledSelf(reg, s, c, i, Landed(reg.layouts[c], vals, dirty), rest);
  }

  lemma OnlyCellSelf(reg: Registry, s: State, c: nat, i: nat)
    requires Valid(reg, s)
    ensures OnlyCell(reg, s, s, c, i)
  {
  }

  // ---------------------------------------------------------------------------
  // One entity

  /** Component `j` of slot `i` holds exactly what was sent. */
  ghost predicate SentHeld(ra: Registry, cur: State, rb: Registry, t: State, j: nat, i: nat)
    requires SameSchema(ra, rb) && Valid(ra, cur) && Valid(rb, t) && j < |ra.canon|
  {
    var c, d := ra.canon[j], rb.canon[j];
    && PresentAt(t, d, i) == PresentAt(cur, c, i)
    && (PresentAt(cur, c, i) ==>
          forall f :: 0 <= f < |rb.layouts[d].fields| ==> Holds(rb, t, d, i, SentValues(ra, cur, c, i), f))
  }

  /** A slot whose occupant is new to the receiver. */
  predicate Respawned(cur: State, base: Option<State>, i: nat) {
    LiveAt(cur, i).Some? && IsSpawn(base, i, LiveAt(cur, i).value)
  }

  /** The values of a component once the delta has been read: dirty fields as they decode, the
      others as the baseline has them. */
  function LandedValues(ra: Registry, cur: State, base: Option<State>, c: nat, i: nat): (vs: seq<Value>)
    requires Valid(ra, cur) && PresentAt(cur, c, i) && BaseValid(ra, base)
    ensures ValuesFit(ra.layouts[c], vs)
  {
    Landed(ra.layouts[c], SentValues(ra, cur, c, i), DirtyMask(ra, cur, base, Respawned(cur, base, i), c, i))
  }

  /** Component `j` of slot `i` holds exactly what the delta decodes to. */
  ghost predicate LandedHeld(ra: Registry, cur: State, base: Option<State>, rb: Registry, t: State, j: nat, i: nat)
    requires SameSchema(ra, rb) && Valid(ra, cur) && BaseValid(ra, base) && Valid(rb, t) && j < |ra.canon|
  {
    var c, d := ra.canon[j], rb.canon[j];
    && PresentAt(t, d, i) == PresentAt(cur, c, i)
    && (PresentAt(cur, c, i) ==>
          forall f :: 0 <= f < |rb.layouts[d].fields| ==> Holds(rb, t, d, i, LandedValues(ra, cur, base, c, i), f))
  }

  /** What the receiver holds for component `j` before the entry is applied. */
  ghost predicate Prior(ra: Registry, base: Option<State>, isSpawn: bool, rb: Registry, t: State, j: nat, i: nat)
    requires SameSchema(ra, rb) && BaseValid(ra, base) && Valid(rb, t) && j < |ra.canon|
  {
    !isSpawn && base.Some? ==> SameComponent(ra, base.value, rb, t, j, i)
  }

  lemma UnchangedFieldsHeld(ra: Registry, cur: State, base: Option<State>, isSpawn: bool, rb: Registry, t: State, i: nat, j: nat)
    requires SameSchema(ra, rb) && Valid(ra, cur) && BaseValid(ra, base) && Valid(rb, t) && j < |ra.canon|
    requires isSpawn == Respawned(cur, base, i)
    requires LiveAt(t, i).Some? && PresentAt(cur, ra.canon[j], i)
    requires Prior(ra, base, isSpawn, rb, t, j, i)
    ensures var d := rb.canon[j];
            var t1 := InsertCell(rb.layouts, t, i, d);
            var dirty := DirtyMask(ra, cur, base, isSpawn, ra.canon[j], i);
            && Valid(rb, t1) && PresentAt(t1, d, i) && OnlyCell(rb, t, t1, d, i)
            && (forall g :: 0 <= g < |dirty| && !dirty[g] ==>
                  Holds(rb, t1, d, i, LandedValues(ra, cur, base, ra.canon[j], i), g))
  {
    var c, d := ra.canon[j], rb.canon[j];
    hide LayoutValid, InsertCell, SlotAt, LossyRoundTrip;
    InsertKeeps(rb.layouts, t, i, d);
    var t1 := InsertCell(rb.layouts, t, i, d);
    var sent := SentValues(ra, cur, c, i);
    var dirty := DirtyMask(ra, cur, base, isSpawn, c, i);
    forall g | 0 <= g < |dirty| && !dirty[g] ensures Holds(rb, t1, d, i, LandedValues(ra, cur, base, c, i), g) {
      assert FieldAt(ra.layouts, base.value, c, i, g) == sent[g];
      assert FieldAt(rb.layouts, t, d, i, g) == sent[g];
    }
  }

  lemma ComponentApplies(ra: Registry, cur: State, base: Option<State>, isSpawn: bool, rb: Registry, t: State,
                         i: nat, j: nat, rest: Stream)
    requires SameSchema(ra, rb) && Valid(ra, cur) && BaseValid(ra, base) && Valid(rb, t) && j < |ra.canon|
    requires isSpawn == Respawned(cur, base, i)
    requires LiveAt(t, i).Some? && PresentAt(cur, ra.canon[j], i)
    requires Prior(ra, base, isSpawn, rb, t, j, i)
    requires var c := ra.canon[j];
             EncodeDirty(ra.layouts[c], SentValues(ra, cur, c, i), DirtyMask(ra, cur, base, isSpawn, c, i), 0).Ok?
    ensures var c, d := ra.canon[j], rb.canon[j];
            var dirty := DirtyMask(ra, cur, base, isSpawn, c, i);
            var t1 := InsertCell(rb.layouts, t, i, d);
            && Valid(rb, t1) && PresentAt(t1, d, i) && |dirty| == |rb.layouts[d].fields|
            && var r := ApplyFields(rb, t1, d, i, dirty, 0, EncodeDirty(ra.layouts[c], SentValues(ra, cur, c, i), dirty, 0).value + rest);
            && r.Ok? && r.value.1 == rest
            && LandedHeld(ra, cur, base, rb, r.value.0, j, i)
            && OnlyCell(rb, t, r.value.0, d, i)
  {
    hide LayoutValid, StateValid, InsertCell, ApplyFields, EncodeDirty, FieldAt, Holds, OnlyCell, Prior;
    var c, d := ra.canon[j], rb.canon[j];
    var dirty := DirtyMask(ra, cur, base, isSpawn, c, i);
    var sent := SentValues(ra, cur, c, i);
    UnchangedFieldsHeld(ra, cur, base, isSpawn, rb, t, i, j);
    var t1 := InsertCell(rb.layouts, t, i, d);
    FieldsApply(rb, t1, d, i, sent, dirty, 0, rest);
    var u := ApplyFields(rb, t1, d, i, dirty, 0, EncodeDirty(ra.layouts[c], sent, dirty, 0).value + rest).value.0;
    OnlyCellTrans(rb, t, t1, u, d, i);
  }

  lemma PriorCarries(ra: Registry, base: Option<State>, isSpawn: bool, rb: Registry, t: State, u: State, j: nat, i: nat)
    requires SameSchema(ra, rb) && BaseValid(ra, base) && Valid(rb, t) && Valid(rb, u) && j < |ra.canon|
    requires Prior(ra, base, isSpawn, rb, t, j, i) && SameCell(rb.layouts, t, u, rb.canon[j], i)
    ensures Prior(ra, base, isSpawn, rb, u, j, i)
  {
    hide LayoutValid, StateValid, SlotAt, Read;
  }

  lemma SentCarries(ra: Registry, cur: State, rb: Registry, t: State, u: State, j: nat, i: nat)
    requires SameSchema(ra, rb) && Valid(ra, cur) && Valid(rb, t) && Valid(rb, u) && j < |ra.canon|
    requires SentHeld(ra, cur, rb, t, j, i) && SameCell(rb.layouts, t, u, rb.canon[j], i)
    ensures SentHeld(ra, cur, rb, u, j, i)
  {
    hide LayoutValid, StateValid, SlotAt, Read, SentValues;
    var d := rb.canon[j];
    if PresentAt(t, d, i) {
      forall f | 0 <= f < |rb.layouts[d].fields| ensures Holds(rb, u, d, i, SentValues(ra, cur, ra.canon[j], i), f) {
        assert Holds(rb, t, d, i, SentValues(ra, cur, ra.canon[j], i), f);
      }
    }
  }

  lemma LandedCarries(ra: Registry, cur: State, base: Option<State>, rb: Registry, t: State, u: State, j: nat, i: nat)
    requires SameSchema(ra, rb) && Valid(ra, cur) && BaseValid(ra, base) && Valid(rb, t) && Valid(rb, u) && j < |ra.canon|
    requires LandedHeld(ra, cur, base, rb, t, j, i) && SameCell(rb.layouts, t, u, rb.canon[j], i)
    ensures LandedHeld(ra, cur, base, rb, u, j, i)
  {
    hide LayoutValid, StateValid, SlotAt, Read, LandedValues;
    var d := rb.canon[j];
    if PresentAt(t, d, i) {
      forall f | 0 <= f < |rb.layouts[d].fields| ensures Holds(rb, u, d, i, LandedValues(ra, cur, base, ra.canon[j], i), f) {
        assert Holds(rb, t, d, i, LandedValues(ra, cur, base, ra.canon[j], i), f);
      }
    }
  }

  /** Only components from canonical position `j` on, of slot `i`, may have changed. */
  ghost predicate OnlyFrom(reg: Registry, s: State, t: State, j: nat, i: nat)
    requires Valid(reg, s) && Valid(reg, t)
  {
    && t.tick == s.tick && t.generations == s.generations && t.alive == s.alive
    && forall d, k :: k != i || (forall m :: j <= m < |reg.canon| ==> reg.canon[m] != d) ==> SameCell(reg.layouts, s, t, d, k)
  }

  lemma OnlyFromStep(reg: Registry, s: State, t: State, u: State, j: nat, i: nat)
    requires Valid(reg, s) && Valid(reg, t) && Valid(reg, u) && j < |reg.canon|
    requires OnlyCell(reg, s, t, reg.canon[j], i) && OnlyFrom(reg, t, u, j + 1, i)
    ensures OnlyFrom(reg, s, u, j, i)
    ensures SameCell(reg.layouts, t, u, reg.canon[j], i)
  {
    hide LayoutValid, StateValid, SlotAt;
    forall d, k | k != i || (forall m :: j <= m < |reg.canon| ==> reg.canon[m] != d)
      ensures SameCell(reg.layouts, s, u, d, k)
    {
      assert SameCell(reg.layouts, s, t, d, k) && SameCell(reg.layouts, t, u, d, k);
    }
  }

  lemma OtherCell(reg: Registry, s: State, t: State, j: nat, k: nat, i: nat)
    requires Valid(reg, s) && Valid(reg, t) && j < k < |reg.canon|
    requires OnlyCell(reg, s, t, reg.canon[j], i)
    ensures SameCell(reg.layouts, s, t, reg.canon[k], i)
  {
    hide StateValid;
  }

  /** The receiver's step for component `j`, before it goes on with the next one. */
  lemma ComponentStep(ra: Registry, cur: State, base: Option<State>, isSpawn: bool, rb: Registry, t: State,
                      i: nat, j: nat, rest: Stream) returns (u: State)
    requires SameSchema(ra, rb) && Valid(ra, cur) && BaseValid(ra, base) && Valid(rb, t) && j < |ra.canon|
    requires isSpawn == Respawned(cur, base, i)
    requires LiveAt(t, i).Some?
    requires Prior(ra, base, isSpawn, rb, t, j, i)
    requires ComponentsPayload(ra, cur, base, isSpawn, i, j).Ok?
    ensures ComponentsPayload(ra, cur, base, isSpawn, i, j + 1).Ok?
    ensures Valid(rb, u) && OnlyCell(rb, t, u, rb.canon[j], i) && LandedHeld(ra, cur, base, rb, u, j, i)
    ensures LiveAt(u, i) == LiveAt(t, i)
    ensures var mask := PresenceMask(ra, cur, i);
            ApplyComponents(rb, t, i, mask, j, ComponentsPayload(ra, cur, base, isSpawn, i, j).value.0 + rest)
            == ApplyComponents(rb, u, i, mask, j + 1, ComponentsPayload(ra, cur, base, isSpawn, i, j + 1).value.0 + rest)
  {
    hide LayoutValid, StateValid, EncodeDirty, ApplyFields, DirtyMask, InsertCell, SlotAt, Prior, SentValues;
    var c, d := ra.canon[j], rb.canon[j];
    if !PresentAt(cur, c, i) {
      RemoveKeeps(rb.layouts, t, i, d);
      u := RemoveCell(rb.layouts, t, i, d);
      hide RemoveCell;
    } else {
      var dirty := DirtyMask(ra, cur, base, isSpawn, c, i);
      var fields := EncodeDirty(ra.layouts[c], SentValues(ra, cur, c, i), dirty, 0).value;
      var others := ComponentsPayload(ra, cur, base, isSpawn, i, j + 1).value.0;
      ComponentApplies(ra, cur, base, isSpawn, rb, t, i, j, others + rest);
      u := ApplyFields(rb, InsertCell(rb.layouts, t, i, d), d, i, dirty, 0, fields + (others + rest)).value.0;
      var bits := dirty + fields + others + rest;
      assert bits[..|dirty|] == dirty && bits[|dirty|..] == fields + (others + rest);
    }
  }

  /** Reading an entity's components leaves every one of them as the delta decodes. */
  lemma {:induction false} ComponentsApply(ra: Registry, cur: State, base: Option<State>, isSpawn: bool, rb: Registry, t: State,
                                           i: nat, j: nat, rest: Stream)
    requires SameSchema(ra, rb) && Valid(ra, cur) && BaseValid(ra, base) && Valid(rb, t) && j <= |ra.canon|
    requires isSpawn == Respawned(cur, base, i)
    requires LiveAt(t, i).Some?
    requires forall k :: j <= k < |ra.canon| ==> Prior(ra, base, isSpawn, rb, t, k, i)
    requires ComponentsPayload(ra, cur, base, isSpawn, i, j).Ok?
    ensures var r := ApplyComponents(rb, t, i, PresenceMask(ra, cur, i), j,
                                     ComponentsPayload(ra, cur, base, isSpawn, i, j).value.0 + rest);
            && r.Ok? && r.value.1 == rest
            && (forall k :: j <= k < |ra.canon| ==> LandedHeld(ra, cur, base, rb, r.value.0, k, i))
            && OnlyFrom(rb, t, r.value.0, j, i)
    decreases |ra.canon| - j
  {
    hide LayoutValid, StateValid, Prior, LandedHeld, OnlyCell, SameCell, PresenceMask;
    if j == |ra.canon| {
      assert ComponentsPayload(ra, cur, base, isSpawn, i, j).value.0 + rest == rest;
      OnlyFromSelf(rb, t, j, i);
    } else {
      hide ComponentsPayload, ApplyComponents, OnlyFrom;
      var u := ComponentStep(ra, cur, base, isSpawn, rb, t, i, j, rest);
      forall k | j + 1 <= k < |ra.canon| ensures Prior(ra, base, isSpawn, rb, u, k, i) {
        OtherCell(rb, t, u, j, k, i);
        PriorCarries(ra, base, isSpawn, rb, t, u, k, i);
      }
      ComponentsApply(ra, cur, base, isSpawn, rb, u, i, j + 1, rest);
      var v := ApplyComponents(rb, u, i, PresenceMask(ra, cur, i), j + 1,
                               ComponentsPayload(ra, cur, base, isSpawn, i, j + 1).value.0 + rest).value.0;
      OnlyFromStep(rb, t, u, v, j, i);
      LandedCarries(ra, cur, base, rb, u, v, j, i);
    }
  }

  lemma OnlyFromSelf(reg: Registry, s: State, j: nat, i: nat)
    requires Valid(reg, s)
    ensures OnlyFrom(reg, s, s, j, i)
  {
    hide StateValid, SlotAt;
  }

  // ---------------------------------------------------------------------------
  // One slot

  /** Slot `i` of the receiver shows exactly what the sender says was sent. */
  ghost predicate SlotAsSent(ra: Registry, cur: State, rb: Registry, t: State, i: nat)
    requires SameSchema(ra, rb) && Valid(ra, cur) && Valid(rb, t)
  {
    LiveAt(t, i) == LiveAt(cur, i) && forall j :: 0 <= j < |ra.canon| ==> SentHeld(ra, cur, rb, t, j, i)
  }

  /** Slot `i` of the receiver shows exactly what the delta decodes to. */
  ghost predicate SlotLanded(ra: Registry, cur: State, base: Option<State>, rb: Registry, t: State, i: nat)
    requires SameSchema(ra, rb) && Valid(ra, cur) && BaseValid(ra, base) && Valid(rb, t)
  {
    LiveAt(t, i) == LiveAt(cur, i) && forall j :: 0 <= j < |ra.canon| ==> LandedHeld(ra, cur, base, rb, t, j, i)
  }

  /** Slot `i` of the receiver shows the baseline, or nothing when there is none. */
  ghost predicate SlotAsBase(ra: Registry, base: Option<State>, rb: Registry, t: State, i: nat)
    requires SameSchema(ra, rb) && BaseValid(ra, base) && Valid(rb, t)
  {
    if base.Some? then SameSlot(ra, base.value, rb, t, i) else LiveAt(t, i).None?
  }

  lemma DeadSlotAsSent(ra: Registry, cur: State, rb: Registry, t: State, i: nat)
    requires SameSchema(ra, rb) && Valid(ra, cur) && Valid(rb, t)
    requires LiveAt(cur, i).None? && LiveAt(t, i).None?
    ensures SlotAsSent(ra, cur, rb, t, i)
  {
    hide LayoutValid, SentValues;
    forall j | 0 <= j < |ra.canon| ensures SentHeld(ra, cur, rb, t, j, i) {
      assert !PresentAt(cur, ra.canon[j], i) && !PresentAt(t, rb.canon[j], i);
    }
  }

  lemma DeadSlotLanded(ra: Registry, cur: State, base: Option<State>, rb: Registry, t: State, i: nat)
    requires SameSchema(ra, rb) && Valid(ra, cur) && BaseValid(ra, base) && Valid(rb, t)
    requires LiveAt(cur, i).None? && LiveAt(t, i).None?
    ensures SlotLanded(ra, cur, base, rb, t, i)
  {
    hide LayoutValid, LandedValues;
    forall j | 0 <= j < |ra.canon| ensures LandedHeld(ra, cur, base, rb, t, j, i) {
      assert !PresentAt(cur, ra.canon[j], i) && !PresentAt(t, rb.canon[j], i);
    }
  }

  /** When no field of any component is dirty, none differs from the baseline. */
  lemma {:induction false} NothingDirty(reg: Registry, cur: State, base: Option<State>, isSpawn: bool, i: nat, j: nat, k: nat)
    requires Valid(reg, cur) && BaseValid(reg, base) && j <= k < |reg.canon|
    requires ComponentsPayload(reg, cur, base, isSpawn, i, j).Ok? && !ComponentsPayload(reg, cur, base, isSpawn, i, j).value.1
    requires PresentAt(cur, reg.canon[k], i)
    ensures true !in DirtyMask(reg, cur, base, isSpawn, reg.canon[k], i)
    decreases |reg.canon| - j
  {
    hide LayoutValid, StateValid, DirtyMask, EncodeDirty, SentValues;
    if j < k {
      NothingDirty(reg, cur, base, isSpawn, i, j + 1, k);
    }
  }

  lemma SilentComponent(ra: Registry, cur: State, base: State, rb: Registry, t: State, i: nat, j: nat)
    requires SameSchema(ra, rb) && Valid(ra, cur) && Valid(ra, base) && Valid(rb, t) && j < |ra.canon|
    requires SameComponent(ra, base, rb, t, j, i)
    requires PresentAt(cur, ra.canon[j], i) == PresentAt(base, ra.canon[j], i)
    requires PresentAt(cur, ra.canon[j], i) ==> true !in DirtyMask(ra, cur, Some(base), false, ra.canon[j], i)
    ensures SentHeld(ra, cur, rb, t, j, i)
  {
    hide LayoutValid, StateValid, SentValues, FieldAt;
    if PresentAt(cur, ra.canon[j], i) {
      var c, d := ra.canon[j], rb.canon[j];
      var dirty := DirtyMask(ra, cur, Some(base), false, c, i);
      forall f | 0 <= f < |rb.layouts[d].fields| ensures Holds(rb, t, d, i, SentValues(ra, cur, c, i), f) {
        assert dirty[f] in dirty;
        assert FieldAt(ra.layouts, base, c, i, f) == FieldAt(rb.layouts, t, d, i, f);
      }
    }
  }

  /** A slot the delta does not mention already shows what would have been sent. */
  lemma SilentSlot(ra: Registry, cur: State, base: Option<State>, rb: Registry, t: State, i: Half)
    requires SameSchema(ra, rb) && Valid(ra, cur) && BaseValid(ra, base) && Valid(rb, t)
    requires SlotAsBase(ra, base, rb, t, i)
    requires EntryFor(ra, cur, base, i) == Ok(None)
    ensures SlotAsSent(ra, cur, rb, t, i)
  {
    hide LayoutValid, StateValid, SentValues, SameComponent, SentHeld, ComponentsPayload, DirtyMask, PresenceMask;
    if LiveAt(cur, i).None? {
      DeadSlotAsSent(ra, cur, rb, t, i);
    } else {
      forall j | 0 <= j < |ra.canon| ensures SentHeld(ra, cur, rb, t, j, i) {
        MasksEqual(ra, cur, base.value, i, j);
        if PresentAt(cur, ra.canon[j], i) {
          NothingDirty(ra, cur, base, false, i, 0, j);
        }
        SilentComponent(ra, cur, base.value, rb, t, i, j);
      }
    }
  }

  lemma MasksEqual(reg: Registry, a: State, b: State, i: nat, j: nat)
    requires PresenceMask(reg, a, i) == PresenceMask(reg, b, i) && j < |reg.canon|
    ensures PresentAt(a, reg.canon[j], i) == PresentAt(b, reg.canon[j], i)
  {
    assert PresenceMask(reg, a, i)[j] == PresenceMask(reg, b, i)[j];
  }

  /** Where no field is dirty, what lands is what was sent. */
  lemma CleanLands(ra: Registry, cur: State, base: Option<State>, rb: Registry, t: State, i: nat, j: nat)
    requires SameSchema(ra, rb) && Valid(ra, cur) && BaseValid(ra, base) && Valid(rb, t) && j < |ra.canon|
    requires SentHeld(ra, cur, rb, t, j, i)
    requires PresentAt(cur, ra.canon[j], i) ==>
               true !in DirtyMask(ra, cur, base, Respawned(cur, base, i), ra.canon[j], i)
    ensures LandedHeld(ra, cur, base, rb, t, j, i)
  {
    hide LayoutValid, StateValid, SentValues, FieldAt;
    var c, d := ra.canon[j], rb.canon[j];
    if PresentAt(cur, c, i) {
      var dirty := DirtyMask(ra, cur, base, Respawned(cur, base, i), c, i);
      forall f | 0 <= f < |rb.layouts[d].fields|
        ensures Holds(rb, t, d, i, LandedValues(ra, cur, base, c, i), f)
      {
        assert dirty[f] in dirty;
        assert Holds(rb, t, d, i, SentValues(ra, cur, c, i), f);
      }
    }
  }

  lemma SilentLands(ra: Registry, cur: State, base: Option<State>, rb: Registry, t: State, i: Half)
    requires SameSchema(ra, rb) && Valid(ra, cur) && BaseValid(ra, base) && Valid(rb, t)
    requires SlotAsBase(ra, base, rb, t, i)
    requires EntryFor(ra, cur, base, i) == Ok(None)
    ensures SlotLanded(ra, cur, base, rb, t, i)
  {
    hide LayoutValid, StateValid, SentValues, SentHeld, LandedHeld, ComponentsPayload, DirtyMask, PresenceMask, SlotAsBase;
    SilentSlot(ra, cur, base, rb, t, i);
    forall j | 0 <= j < |ra.canon|
      ensures LandedHeld(ra, cur, base, rb, t, j, i)
    {
      if PresentAt(cur, ra.canon[j], i) {
        PresentLives(ra, cur, ra.canon[j], i);
        NothingDirty(ra, cur, base, Respawned(cur, base, i), i, 0, j);
      }
      CleanLands(ra, cur, base, rb, t, i, j);
    }
  }

  lemma PresentLives(reg: Registry, s: State, c: nat, i: nat)
    requires Valid(reg, s) && PresentAt(s, c, i)
    ensures LiveAt(s, i).Some?
  {
  }

  /** Only slot `i` may have changed. */
  ghost predicate OnlySlot(reg: Registry, s: State, t: State, i: nat)
    requires Valid(reg, s) && Valid(reg, t)
  {
    t.tick == s.tick && forall k :: k != i ==> Untouched(reg, s, t, k)
  }

  lemma PayloadApplies(ra: Registry, cur: State, base: Option<State>, isSpawn: bool, rb: Registry, t: State, i: nat, rest: Stream)
    requires SameSchema(ra, rb) && Valid(ra, cur) && BaseValid(ra, base) && Valid(rb, t)
    requires isSpawn == Respawned(cur, base, i)
    requires LiveAt(t, i).Some? && LiveAt(t, i) == LiveAt(cur, i)
    requires forall k :: 0 <= k < |ra.canon| ==> Prior(ra, base, isSpawn, rb, t, k, i)
    requires ComponentsPayload(ra, cur, base, isSpawn, i, 0).Ok?
    ensures var r := ApplyPayload(rb, t, i, PresenceMask(ra, cur, i) + ComponentsPayload(ra, cur, base, isSpawn, i, 0).value.0 + rest);
            && r.Ok? && r.value.1 == rest
            && SlotLanded(ra, cur, base, rb, r.value.0, i) && OnlySlot(rb, t, r.value.0, i)
  {
    hide LayoutValid, StateValid, Prior, LandedHeld, ComponentsPayload, ApplyComponents, SlotAt;
    var mask := PresenceMask(ra, cur, i);
    var bits := ComponentsPayload(ra, cur, base, isSpawn, i, 0).value.0;
    assert mask + bits + rest == mask + (bits + rest);
    assert (mask + (bits + rest))[..|mask|] == mask && (mask + (bits + rest))[|mask|..] == bits + rest;
    ComponentsApply(ra, cur, base, isSpawn, rb, t, i, 0, rest);
    var u := ApplyComponents(rb, t, i, mask, 0, bits + rest).value.0;
    assert OnlyFrom(rb, t, u, 0, i);
    forall k | k != i ensures Untouched(rb, t, u, k) {
      assert forall c :: SameCell(rb.layouts, t, u, c, k);
    }
  }

  lemma UntouchedSlots(reg: Registry, s: State, t: State, u: State, i: nat)
    requires Valid(reg, s) && Valid(reg, t) && Valid(reg, u)
    requires OnlySlot(reg, s, t, i) && OnlySlot(reg, t, u, i)
    ensures OnlySlot(reg, s, u, i)
  {
    hide LayoutValid, StateValid, SlotAt;
    forall k | k != i ensures Untouched(reg, s, u, k) {
      assert Untouched(reg, s, t, k) && Untouched(reg, t, u, k);
      forall c ensures SameCell(reg.layouts, s, u, c, k) {
        assert SameCell(reg.layouts, s, t, c, k) && SameCell(reg.layouts, t, u, c, k);
      }
    }
  }

  lemma DespawnOnly(reg: Registry, s: State, i: Half)
    requires Valid(reg, s)
    ensures LiveAt(DespawnAt(reg, s, i), i).None? && OnlySlot(reg, s, DespawnAt(reg, s, i), i)
  {
    hide StateValid, SlotAt, Despawn;
    if LiveAt(s, i).Some? {
      DespawnKeeps(reg.layouts, s, Entity(i, LiveAt(s, i).value));
    }
  }

  lemma SpawnOnly(reg: Registry, s: State, i: Half, generation: Half)
    requires Valid(reg, s)
    ensures OnlySlot(reg, s, SpawnOver(reg, s, i, generation), i)
  {
    hide StateValid, SlotAt, SpawnAt, DespawnAt;
    var cleared := if LiveAt(s, i).Some? && LiveAt(s, i) != Some(generation) then DespawnAt(reg, s, i) else s;
    DespawnOnly(reg, s, i);
    SpawnAtKeeps(reg.layouts, cleared, Entity(i, generation));
    var t := SpawnAt(reg.layouts, cleared, Entity(i, generation));
    assert OnlySlot(reg, cleared, t, i);
    assert OnlySlot(reg, s, s, i);
    UntouchedSlots(reg, s, cleared, t, i);
  }

  function EntryBody(e: Entry): Stream {
    BitsOf(OpCode(e.op), 2)
    + (if e.op.Spawn? then VaruintBits(e.generation) else [])
    + (if e.op.Despawned? then [] else e.payload)
  }

  /** The receiver reads back the operation it was sent. */
  lemma BodyReads(rb: Registry, t: State, e: Entry, rest: Stream)
    requires Valid(rb, t)
    requires e.op.Update? ==> LiveAt(t, e.index).Some?
    ensures ApplyEntry(rb, t, e.index, EntryBody(e) + rest) ==
            match e.op
            case Despawned => Ok((DespawnAt(rb, t, e.index), rest))
            case Spawn => ApplyPayload(rb, SpawnOver(rb, t, e.index, e.generation), e.index, e.payload + rest)
            case Update => ApplyPayload(rb, t, e.index, e.payload + rest)
  {
    hide StateValid, BitsOf, VaruintBits, ReadBits, ReadVaruint, ApplyPayload, SpawnOver, DespawnAt;
    assert Pow2(2) == 4;
    match e.op
    case Despawned =>
      assert EntryBody(e) + rest == BitsOf(2, 2) + rest;
      ReadWritten(2, 2, rest);
    case Spawn =>
      var body := e.payload + rest;
      assert EntryBody(e) + rest == BitsOf(1, 2) + (VaruintBits(e.generation) + body);
      ReadWritten(1, 2, VaruintBits(e.generation) + body);
      VaruintRoundTrip(e.generation, body);
    case Update =>
      assert EntryBody(e) + rest == BitsOf(0, 2) + (e.payload + rest);
      ReadWritten(0, 2, e.payload + rest);
  }

  /** Applying the entry for slot `i` makes the slot what the delta decodes to and touches no other. */
  lemma EntryApplies(ra: Registry, cur: State, base: Option<State>, rb: Registry, t: State, i: Half, e: Entry, rest: Stream)
    requires SameSchema(ra, rb) && Valid(ra, cur) && BaseValid(ra, base) && Valid(rb, t)
    requires SlotAsBase(ra, base, rb, t, i)
    requires EntryFor(ra, cur, base, i) == Ok(Some(e))
    ensures e.index == i
    ensures var r := ApplyEntry(rb, t, i, EntryBody(e) + rest);
            && r.Ok? && r.value.1 == rest
            && SlotLanded(ra, cur, base, rb, r.value.0, i) && OnlySlot(rb, t, r.value.0, i)
  {
    hide LayoutValid, StateValid, LandedHeld, ComponentsPayload, ApplyEntry, ApplyPayload, SpawnOver, DespawnAt,
      EntryBody, OnlySlot, SameComponent, PresenceMask;
    match LiveAt(cur, i)
    case None =>
      BodyReads(rb, t, e, rest);
      DespawnOnly(rb, t, i);
      DeadSlotLanded(ra, cur, base, rb, DespawnAt(rb, t, i), i);
    case Some(generation) =>
      var isSpawn := IsSpawn(base, i, generation);
      BodyReads(rb, t, e, rest);
      if isSpawn {
        SpawnOnly(rb, t, i, generation);
        var u := SpawnOver(rb, t, i, generation);
        PayloadApplies(ra, cur, base, true, rb, u, i, rest);
        var v := ApplyPayload(rb, u, i, e.payload + rest).value.0;
        UntouchedSlots(rb, t, u, v, i);
      } else {
        PayloadApplies(ra, cur, base, false, rb, t, i, rest);
      }
  }

  // ---------------------------------------------------------------------------
  // The whole block

  lemma {:induction false} EntriesLength(entries: seq<Entry>, prev: int)
    requires Ascending(entries, prev)
    ensures |EntriesBits(entries, prev)| >= 8 * |entries|
    decreases |entries|
  {
    if |entries| > 0 {
      EntriesLength(entries[1..], entries[0].index);
    }
  }

  /** The receiver reads back the index it was sent. */
  lemma IndexReads(rb: Registry, t: State, entries: seq<Entry>, prev: int, rest: Stream)
    requires Valid(rb, t) && |entries| > 0 && Ascending(entries, prev) && -1 <= prev
    ensures var e := entries[0];
            var tail := EntriesBits(entries[1..], e.index) + rest;
            ApplyEntries(rb, t, |entries|, prev, EntriesBits(entries, prev) + rest) ==
            match ApplyEntry(rb, t, e.index, EntryBody(e) + tail)
            case Err(x) => Err(x)
            case Ok((u, after)) => ApplyEntries(rb, u, |entries| - 1, e.index, after)
  {
    hide StateValid, VaruintBits, ReadVaruint, ApplyEntry, BitsOf, NextIndex, EntryBits, EntryBody;
    var e := entries[0];
    var gap: nat := e.index - prev - 1;
    var tail := EntriesBits(entries[1..], e.index) + rest;
    EntrySplits(e, prev);
    assert EntriesBits(entries, prev) + rest == VaruintBits(gap) + (EntryBody(e) + tail);
    VaruintRoundTrip(gap, EntryBody(e) + tail);
    GapLeads(prev, e.index);
  }

  lemma EntrySplits(e: Entry, prev: int)
    requires prev < e.index
    ensures EntryBits(e, prev) == VaruintBits(e.index - prev - 1) + EntryBody(e)
  {
    hide VaruintBits, BitsOf;
  }

  lemma GapLeads(prev: int, index: Half)
    requires -1 <= prev < index
    ensures NextIndex(prev, index - prev - 1) == Ok(index)
  {
  }

  /** Every slot from `i` on still shows the baseline; every earlier one what the delta decodes to. */
  ghost predicate Frontier(ra: Registry, cur: State, base: Option<State>, rb: Registry, t: State, i: nat)
    requires SameSchema(ra, rb) && Valid(ra, cur) && BaseValid(ra, base) && Valid(rb, t)
  {
    forall k: nat :: if k < i then SlotLanded(ra, cur, base, rb, t, k) else SlotAsBase(ra, base, rb, t, k)
  }

  lemma SentStays(ra: Registry, cur: State, rb: Registry, t: State, u: State, i: nat)
    requires SameSchema(ra, rb) && Valid(ra, cur) && Valid(rb, t) && Valid(rb, u)
    requires SlotAsSent(ra, cur, rb, t, i) && Untouched(rb, t, u, i)
    ensures SlotAsSent(ra, cur, rb, u, i)
  {
    hide StateValid, LayoutValid, SlotAt, SentHeld;
    forall j | 0 <= j < |ra.canon| ensures SentHeld(ra, cur, rb, u, j, i) {
      SentCarries(ra, cur, rb, t, u, j, i);
    }
  }

  lemma LandedStays(ra: Registry, cur: State, base: Option<State>, rb: Registry, t: State, u: State, i: nat)
    requires SameSchema(ra, rb) && Valid(ra, cur) && BaseValid(ra, base) && Valid(rb, t) && Valid(rb, u)
    requires SlotLanded(ra, cur, base, rb, t, i) && Untouched(rb, t, u, i)
    ensures SlotLanded(ra, cur, base, rb, u, i)
  {
    hide StateValid, LayoutValid, SlotAt, LandedHeld;
    forall j | 0 <= j < |ra.canon| ensures LandedHeld(ra, cur, base, rb, u, j, i) {
      LandedCarries(ra, cur, base, rb, t, u, j, i);
    }
  }

  lemma BaseStays(ra: Registry, base: Option<State>, rb: Registry, t: State, u: State, i: nat)
    requires SameSchema(ra, rb) && BaseValid(ra, base) && Valid(rb, t) && Valid(rb, u)
    requires SlotAsBase(ra, base, rb, t, i) && Untouched(rb, t, u, i)
    ensures SlotAsBase(ra, base, rb, u, i)
  {
    hide StateValid, LayoutValid, SlotAt, FieldAt, SameComponent;
    if base.Some? {
      forall j | 0 <= j < |ra.canon| ensures SameComponent(ra, base.value, rb, u, j, i) {
        assert SameComponent(ra, base.value, rb, t, j, i);
        PriorCarries(ra, base, false, rb, t, u, j, i);
      }
    }
  }

  lemma FrontierMoves(ra: Registry, cur: State, base: Option<State>, rb: Registry, t: State, u: State, i: nat)
    requires SameSchema(ra, rb) && Valid(ra, cur) && BaseValid(ra, base) && Valid(rb, t) && Valid(rb, u)
    requires Frontier(ra, cur, base, rb, t, i)
    requires SlotLanded(ra, cur, base, rb, u, i) && OnlySlot(rb, t, u, i)
    ensures Frontier(ra, cur, base, rb, u, i + 1)
  {
    hide StateValid, LayoutValid, SlotLanded, SlotAsBase, Untouched;
    forall k: nat ensures if k < i + 1 then SlotLanded(ra, cur, base, rb, u, k) else SlotAsBase(ra, base, rb, u, k) {
      if k < i {
        LandedStays(ra, cur, base, rb, t, u, k);
      } else if k > i {
        BaseStays(ra, base, rb, t, u, k);
      }
    }
  }

  /** The entry of slot `i` is read and applied, and the others are still to read. */
  lemma EntryLeads(ra: Registry, cur: State, base: Option<State>, rb: Registry, t: State, i: Half, es: seq<Entry>,
                   prev: int, rest: Stream) returns (u: State)
    requires SameSchema(ra, rb) && Valid(ra, cur) && BaseValid(ra, base) && Valid(rb, t)
    requires -1 <= prev < i && Frontier(ra, cur, base, rb, t, i)
    requires es != [] && EntryFor(ra, cur, base, i) == Ok(Some(es[0])) && Ascending(es, prev) && Ascending(es[1..], i)
    ensures es[0].index == i
    ensures Valid(rb, u) && Frontier(ra, cur, base, rb, u, i + 1) && u.tick == t.tick
    ensures ApplyEntries(rb, t, |es|, prev, EntriesBits(es, prev) + rest) ==
            ApplyEntries(rb, u, |es| - 1, i, EntriesBits(es[1..], i) + rest)
  {
    hide StateValid, LayoutValid, Frontier, SlotLanded, SlotAsBase, EntryBits, ApplyEntry, OnlySlot, EntryBody,
      ApplyEntries, EntriesBits, Ascending, ComponentsPayload;
    var e := es[0];
    FrontierSlot(ra, cur, base, rb, t, i);
    var tail := EntriesBits(es[1..], i) + rest;
    EntryApplies(ra, cur, base, rb, t, i, e, tail);
    IndexReads(rb, t, es, prev, rest);
    u := ApplyEntry(rb, t, i, EntryBody(e) + tail).value.0;
    FrontierMoves(ra, cur, base, rb, t, u, i);
    OnlySlotTick(rb, t, u, i);
  }

  /** Slot `i` adds its entry, if any, in front of the later ones. */
  lemma EntriesFrom(ra: Registry, cur: State, base: Option<State>, i: nat, n: Half)
    requires Valid(ra, cur) && BaseValid(ra, base) && i <= n && Entries(ra, cur, base, i, n).Ok?
    ensures i == n ==> Entries(ra, cur, base, i, n) == Ok([])
    ensures i < n ==>
              && EntryFor(ra, cur, base, i).Ok? && Entries(ra, cur, base, i + 1, n).Ok?
              && var first, others := EntryFor(ra, cur, base, i).value, Entries(ra, cur, base, i + 1, n).value;
                 Entries(ra, cur, base, i, n).value == if first.Some? then [first.value] + others else others
  {
    hide StateValid, EntryFor, RegistryValid;
  }

  /** The entries were applied, leaving this to read, and the frontier is at `n`. */
  ghost predicate Reached(ra: Registry, cur: State, base: Option<State>, rb: Registry, t: State, n: nat, r: Applied,
                          rest: Stream)
    requires SameSchema(ra, rb) && Valid(ra, cur) && BaseValid(ra, base) && (r.Ok? ==> Valid(rb, r.value.0))
  {
    && r.Ok? && r.value.1 == rest
    && Frontier(ra, cur, base, rb, r.value.0, n) && r.value.0.tick == t.tick
  }

  /** Applying the entries for slots `i .. n` moves the frontier to `n`. */
  lemma {:induction false} EntriesApply(ra: Registry, cur: State, base: Option<State>, rb: Registry, t: State,
                                        i: nat, n: Half, prev: int, rest: Stream)
    requires SameSchema(ra, rb) && Valid(ra, cur) && BaseValid(ra, base) && Valid(rb, t)
    requires -1 <= prev < i <= n
    requires Frontier(ra, cur, base, rb, t, i)
    requires Entries(ra, cur, base, i, n).Ok?
    ensures Ascending(Entries(ra, cur, base, i, n).value, prev)
    ensures var es := Entries(ra, cur, base, i, n).value;
            var r := ApplyEntries(rb, t, |es|, prev, EntriesBits(es, prev) + rest);
            Reached(ra, cur, base, rb, t, n, r, rest)
    decreases n - i
  {
    hide StateValid, LayoutValid, EntryFor, Frontier, Ascending, Entries, SameSchema;
    EntriesAscend(ra, cur, base, i, n, prev);
    EntriesFrom(ra, cur, base, i, n);
    var es := Entries(ra, cur, base, i, n).value;
    if i == n {
      assert EntriesBits(es, prev) + rest == rest;
    } else {
      hide ApplyEntries, EntriesBits;
      match EntryFor(ra, cur, base, i).value
      case None =>
        SilentEntry(ra, cur, base, rb, t, i);
        EntriesApply(ra, cur, base, rb, t, i + 1, n, prev, rest);
      case Some(e) =>
        EntriesAscend(ra, cur, base, i + 1, n, i);
        assert es[0] == e && es[1..] == Entries(ra, cur, base, i + 1, n).value;
        var u := EntryLeads(ra, cur, base, rb, t, i, es, prev, rest);
        EntriesApply(ra, cur, base, rb, u, i + 1, n, i, rest);
    }
  }

  lemma SilentEntry(ra: Registry, cur: State, base: Option<State>, rb: Registry, t: State, i: Half)
    requires SameSchema(ra, rb) && Valid(ra, cur) && BaseValid(ra, base) && Valid(rb, t)
    requires Frontier(ra, cur, base, rb, t, i) && EntryFor(ra, cur, base, i) == Ok(None)
    ensures Frontier(ra, cur, base, rb, t, i + 1)
  {
    hide StateValid, LayoutValid, EntryFor, Frontier, SlotLanded, SlotAsBase, OnlySlot;
    FrontierSlot(ra, cur, base, rb, t, i);
    SilentLands(ra, cur, base, rb, t, i);
    OnlySlotSelf(rb, t, i);
    FrontierMoves(ra, cur, base, rb, t, t, i);
  }

  lemma FrontierSlot(ra: Registry, cur: State, base: Option<State>, rb: Registry, t: State, i: nat)
    requires SameSchema(ra, rb) && Valid(ra, cur) && BaseValid(ra, base) && Valid(rb, t)
    requires Frontier(ra, cur, base, rb, t, i)
    ensures SlotAsBase(ra, base, rb, t, i)
  {
    hide SlotLanded, SlotAsBase, StateValid;
  }

  lemma OnlySlotSelf(reg: Registry, s: State, i: nat)
    requires Valid(reg, s)
    ensures OnlySlot(reg, s, s, i)
  {
    hide StateValid, SlotAt;
  }

  lemma OnlySlotTick(reg: Registry, s: State, t: State, i: nat)
    requires Valid(reg, s) && Valid(reg, t) && OnlySlot(reg, s, t, i)
    ensures t.tick == s.tick
  {
    hide Untouched, StateValid;
  }

  // ---------------------------------------------------------------------------
  // The sender's account of what it sent

  lemma {:induction false} PatchFieldsHolds(reg: Registry, s: State, c: nat, i: nat, vals: seq<Value>, f: nat)
    requires Valid(reg, s) && PresentAt(s, c, i) && ValuesFit(reg.layouts[c], vals) && f <= |vals|
    requires forall g :: 0 <= g < f ==> Holds(reg, s, c, i, vals, g)
    ensures var t := PatchFields(reg, s, c, i, vals, f);
            && PresentAt(t, c, i) && OnlyCell(reg, s, t, c, i)
            && forall g :: 0 <= g < |vals| ==> Holds(reg, t, c, i, vals, g)
    decreases |vals| - f
  {
    assert c < |reg.layouts|;
    hide LayoutValid, StateValid, WriteCell, Holds, OnlyCell, FieldAt;
    if f == |vals| {
      OnlyCellSelf(reg, s, c, i);
    } else {
      FieldStored(reg, s, c, i, vals, f);
      var t := WriteCell(reg.layouts, s, i, c, f, vals[f]);
      PatchFieldsHolds(reg, t, c, i, vals, f + 1);
      OnlyCellTrans(reg, s, t, PatchFields(reg, t, c, i, vals, f + 1), c, i);
    }
  }

  lemma {:induction false} PatchComponentsSent(reg: Registry, s: State, cur: State, i: nat, j: nat)
    requires SameSchema(reg, reg) && Valid(reg, s) && Valid(reg, cur) && SameShape(s, cur) && j <= |reg.canon|
    ensures var t := PatchComponents(reg, s, cur, i, j);
            && OnlyFrom(reg, s, t, j, i)
            && forall k :: j <= k < |reg.canon| ==> SentHeld(reg, cur, reg, t, k, i)
    decreases |reg.canon| - j
  {
    hide LayoutValid, StateValid, SlotAt, PatchFields, SentValues, Holds, OnlyFrom, OnlyCell, SameCell;
    if j == |reg.canon| {
      OnlyFromSelf(reg, s, j, i);
    } else {
      var c := reg.canon[j];
      var u := s;
      if PresentAt(cur, c, i) {
        var vals := SentValues(reg, cur, c, i);
        PatchFieldsShape(reg, s, c, i, vals, 0);
        PatchFieldsHolds(reg, s, c, i, vals, 0);
        u := PatchFields(reg, s, c, i, vals, 0);
      } else {
        OnlyCellSelf(reg, s, c, i);
      }
      assert SentHeld(reg, cur, reg, u, j, i);
      PatchComponentsSent(reg, u, cur, i, j + 1);
      var t := PatchComponents(reg, u, cur, i, j + 1);
      OnlyFromStep(reg, s, u, t, j, i);
      SentCarries(reg, cur, reg, u, t, j, i);
    }
  }

  lemma {:induction false} PatchSlotsSent(reg: Registry, s: State, cur: State, i: nat, n: nat, k: nat)
    requires SameSchema(reg, reg) && Valid(reg, s) && Valid(reg, cur) && SameShape(s, cur) && i <= n
    requires k < i ==> SlotAsSent(reg, cur, reg, s, k)
    requires k < n
    ensures SlotAsSent(reg, cur, reg, PatchSlots(reg, s, cur, i, n), k)
    decreases n - i
  {
    hide LayoutValid, StateValid, PatchComponents, SentHeld, SameCell, PresentAt;
    if i < n {
      PatchComponentsSent(reg, s, cur, i, 0);
      var u := PatchComponents(reg, s, cur, i, 0);
      if k < i {
        assert Untouched(reg, s, u, k);
        SentStays(reg, cur, reg, s, u, k);
      }
      PatchSlotsSent(reg, u, cur, i + 1, n, k);
    }
  }

  /** The returned baseline is exactly what is said to have been sent, in every slot. */
  lemma AsSentIsSent(reg: Registry, cur: State, k: nat)
    requires SameSchema(reg, reg) && Valid(reg, cur)
    ensures SlotAsSent(reg, cur, reg, AsSent(reg, cur), k)
  {
    hide LayoutValid, StateValid, PatchSlots, SentHeld;
    if k < |cur.generations| {
      PatchSlotsSent(reg, cur, cur, 0, |cur.generations|, k);
    } else {
      DeadSlotAsSent(reg, cur, reg, AsSent(reg, cur), k);
    }
  }

  lemma SentTwice(ra: Registry, cur: State, s: State, rb: Registry, t: State, i: nat)
    requires SameSchema(ra, rb) && Valid(ra, cur) && Valid(ra, s) && Valid(rb, t)
    requires SameSchema(ra, ra) && SlotAsSent(ra, cur, ra, s, i) && SlotAsSent(ra, cur, rb, t, i)
    ensures SameSlot(ra, s, rb, t, i)
  {
    hide LayoutValid, StateValid, SentValues, FieldAt;
    forall j | 0 <= j < |ra.canon| ensures SameComponent(ra, s, rb, t, j, i) {
      assert SentHeld(ra, cur, ra, s, j, i) && SentHeld(ra, cur, rb, t, j, i);
      var c, d := ra.canon[j], rb.canon[j];
      if PresentAt(cur, c, i) {
        forall f | 0 <= f < |ra.layouts[c].fields| ensures FieldAt(ra.layouts, s, c, i, f) == FieldAt(rb.layouts, t, d, i, f) {
          assert Holds(ra, s, c, i, SentValues(ra, cur, c, i), f);
          assert Holds(rb, t, d, i, SentValues(ra, cur, c, i), f);
        }
      }
    }
  }

  // ---------------------------------------------------------------------------
  // Main results

  /** Every integer fits its declared width, and the omitted component of every quantized
      rotation is still the first of largest magnitude once decoded. */
  ghost predicate Faithful(reg: Registry, cur: State)
    requires Valid(reg, cur)
  {
    forall c: nat, i: nat, f: nat :: PresentAt(cur, c, i) && f < |reg.layouts[c].fields| ==>
      FitsWidth(reg.layouts[c].fields[f].desc, FieldAt(reg.layouts, cur, c, i, f))
      && RotationSettles(reg.layouts[c].fields[f].desc, FieldAt(reg.layouts, cur, c, i, f))
  }

  /** Every field the delta writes decodes to what the sender says it sent. */
  ghost predicate AllSurvive(ra: Registry, cur: State, base: Option<State>)
    requires Valid(ra, cur) && BaseValid(ra, base)
  {
    forall j: nat, i: nat, f: nat {:trigger Survives(ra, cur, base, j, i, f)} ::
      j < |ra.canon| && PresentAt(cur, ra.canon[j], i) && f < |ra.layouts[ra.canon[j]].fields| ==>
        Survives(ra, cur, base, j, i, f)
  }

  ghost predicate Survives(ra: Registry, cur: State, base: Option<State>, j: nat, i: nat, f: nat)
    requires Valid(ra, cur) && BaseValid(ra, base) && j < |ra.canon|
    requires PresentAt(cur, ra.canon[j], i) && f < |ra.layouts[ra.canon[j]].fields|
  {
    var c := ra.canon[j];
    DirtyMask(ra, cur, base, Respawned(cur, base, i), c, i)[f] ==>
      var sent := SentValues(ra, cur, c, i)[f];
      LayoutValid(ra.layouts[c]) && Received(ra.layouts[c].fields[f].desc, sent) == sent
  }

  /** Integers that fit and rotations that settle always survive. */
  lemma FaithfulSurvives(reg: Registry, cur: State, base: Option<State>)
    requires Valid(reg, cur) && BaseValid(reg, base) && Faithful(reg, cur)
    ensures AllSurvive(reg, cur, base)
  {
    hide StateValid, SlotAt, FitsWidth, LossyRoundTrip, Received, DirtyMask, RotationSettles;
    forall j: nat, i: nat, f: nat | j < |reg.canon| && PresentAt(cur, reg.canon[j], i) && f < |reg.layouts[reg.canon[j]].fields|
      ensures Survives(reg, cur, base, j, i, f)
    {
      var c := reg.canon[j];
      LayoutOf(reg, cur, c);
      SentIsReceived(reg.layouts[c].fields[f].desc, FieldAt(reg.layouts, cur, c, i, f));
    }
  }

  lemma LayoutOf(reg: Registry, s: State, c: nat)
    requires Valid(reg, s) && c < |reg.layouts|
    ensures LayoutValid(reg.layouts[c])
  {
  }

  /** A receiver whose live view is the baseline's, or empty when there is none, applies the
      sender's bits without error, whatever padding follows and in whatever order each peer
      registered its components: it ends with the sender's live handles, presence and tick,
      despawns, recycled slots and components gained or lost included, and with every field as
      the delta decodes. */
  lemma DeltaLands(ra: Registry, cur: State, base: Option<State>, rb: Registry, t: State, padding: Stream)
    requires SameSchema(ra, rb) && Valid(ra, cur) && BaseValid(ra, base) && Valid(rb, t)
    requires SlotMax(cur, base) < U32
    requires forall i: nat :: SlotAsBase(ra, base, rb, t, i)
    requires EncodeDelta(ra, cur, base).Ok?
    ensures var r := ApplyDelta(rb, t, EncodeDelta(ra, cur, base).value.bits + padding);
            && r.Ok? && Valid(rb, r.value) && r.value.tick == cur.tick == EncodeDelta(ra, cur, base).value.asSent.tick
            && forall i: nat :: SlotLanded(ra, cur, base, rb, r.value, i)
  {
    hide LayoutValid, StateValid, ApplyDelta, Frontier, AsSent, Entries, BlockBits, SlotLanded, SlotAsBase;
    var u := BlockApplies(ra, cur, base, rb, t, padding);
    forall i: nat
      ensures SlotLanded(ra, cur, base, rb, u.(tick := cur.tick), i)
    {
      FrontierAll(ra, cur, base, rb, u, i);
      TickUnseen(ra, cur, base, rb, u, cur.tick, i);
    }
  }

  lemma LandedIsSent(ra: Registry, cur: State, base: Option<State>, rb: Registry, u: State, i: nat)
    requires SameSchema(ra, rb) && Valid(ra, cur) && BaseValid(ra, base) && Valid(rb, u)
    requires SlotLanded(ra, cur, base, rb, u, i) && AllSurvive(ra, cur, base)
    ensures SlotAsSent(ra, cur, rb, u, i)
  {
    hide LayoutValid, StateValid, SentValues, FieldAt, DirtyMask, Received;
    forall j | 0 <= j < |ra.canon|
      ensures SentHeld(ra, cur, rb, u, j, i)
    {
      var c, d := ra.canon[j], rb.canon[j];
      assert LandedHeld(ra, cur, base, rb, u, j, i);
      if PresentAt(cur, c, i) {
        forall f | 0 <= f < |rb.layouts[d].fields|
          ensures Holds(rb, u, d, i, SentValues(ra, cur, c, i), f)
        {
          assert Holds(rb, u, d, i, LandedValues(ra, cur, base, c, i), f);
          assert Survives(ra, cur, base, j, i, f);
        }
      }
    }
  }

  lemma LandedShows(ra: Registry, cur: State, base: Option<State>, sent: State, rb: Registry, u: State, j: nat, i: nat, f: nat)
    requires SameSchema(ra, rb) && SameSchema(ra, ra) && Valid(ra, cur) && BaseValid(ra, base) && Valid(ra, sent) && Valid(rb, u)
    requires SlotLanded(ra, cur, base, rb, u, i) && SlotAsSent(ra, cur, ra, sent, i) && SameSlot(ra, sent, rb, u, i)
    requires j < |ra.canon| && PresentAt(cur, ra.canon[j], i) && f < |ra.layouts[ra.canon[j]].fields|
    ensures Survives(ra, cur, base, j, i, f)
  {
    hide StateValid, SentValues, FieldAt, DirtyMask, Received;
    var c, d := ra.canon[j], rb.canon[j];
    LayoutOf(ra, cur, c);
    hide LayoutValid;
    assert LandedHeld(ra, cur, base, rb, u, j, i) && SentHeld(ra, cur, ra, sent, j, i) && SameComponent(ra, sent, rb, u, j, i);
    assert Holds(rb, u, d, i, LandedValues(ra, cur, base, c, i), f);
    assert Holds(ra, sent, c, i, SentValues(ra, cur, c, i), f);
  }

  /** The receiver then shows exactly the state the sender keeps as its next baseline if and
      only if every field the delta writes survives its own encoding. */
  lemma DeltaReplicates(ra: Registry, cur: State, base: Option<State>, rb: Registry, t: State, padding: Stream)
    requires SameSchema(ra, rb) && Valid(ra, cur) && BaseValid(ra, base) && Valid(rb, t)
    requires SlotMax(cur, base) < U32
    requires forall i: nat :: SlotAsBase(ra, base, rb, t, i)
    requires EncodeDelta(ra, cur, base).Ok?
    ensures var sent := EncodeDelta(ra, cur, base).value;
            var r := ApplyDelta(rb, t, sent.bits + padding);
            && r.Ok? && r.value.tick == cur.tick == sent.asSent.tick && Valid(ra, sent.asSent) && Valid(rb, r.value)
            && (SameView(ra, sent.asSent, rb, r.value) <==> AllSurvive(ra, cur, base))
  {
    hide LayoutValid, StateValid, ApplyDelta, AsSent, EncodeDelta, SlotLanded, SlotAsSent, SlotAsBase, SameSlot, Survives;
    DeltaLands(ra, cur, base, rb, t, padding);
    EncodedValid(ra, cur, base);
    var sent := EncodeDelta(ra, cur, base).value.asSent;
    var u := ApplyDelta(rb, t, EncodeDelta(ra, cur, base).value.bits + padding).value;
    if AllSurvive(ra, cur, base) {
      forall i: nat
        ensures SameSlot(ra, sent, rb, u, i)
      {
        AsSentIsSent(ra, cur, i);
        LandedIsSent(ra, cur, base, rb, u, i);
        SentTwice(ra, cur, sent, rb, u, i);
      }
    }
    if SameView(ra, sent, rb, u) {
      forall j: nat, i: nat, f: nat | j < |ra.canon| && PresentAt(cur, ra.canon[j], i) && f < |ra.layouts[ra.canon[j]].fields|
        ensures Survives(ra, cur, base, j, i, f)
      {
        AsSentIsSent(ra, cur, i);
        LandedShows(ra, cur, base, sent, rb, u, j, i, f);
      }
    }
  }

  lemma {:induction false} EntriesCount(ra: Registry, cur: State, base: Option<State>, i: nat, n: Half)
    requires Valid(ra, cur) && BaseValid(ra, base) && i <= n && Entries(ra, cur, base, i, n).Ok?
    ensures |Entries(ra, cur, base, i, n).value| <= n - i
    decreases n - i
  {
    hide StateValid, EntryFor;
    if i < n {
      EntriesCount(ra, cur, base, i + 1, n);
    }
  }

  /** The whole block applies, leaving every slot past the frontier. */
  lemma BlockApplies(ra: Registry, cur: State, base: Option<State>, rb: Registry, t: State, padding: Stream)
    returns (u: State)
    requires SameSchema(ra, rb) && Valid(ra, cur) && BaseValid(ra, base) && Valid(rb, t)
    requires SlotMax(cur, base) < U32
    requires forall i: nat :: SlotAsBase(ra, base, rb, t, i)
    requires EncodeDelta(ra, cur, base).Ok?
    ensures Valid(rb, u) && Valid(rb, u.(tick := cur.tick))
    ensures ApplyDelta(rb, t, EncodeDelta(ra, cur, base).value.bits + padding) == Ok(u.(tick := cur.tick))
    ensures Frontier(ra, cur, base, rb, u, SlotMax(cur, base))
  {
    hide LayoutValid, StateValid, SlotLanded, SlotAsBase, ApplyEntries, AsSent, ApplyDelta, BlockBits, Entries;
    var n := SlotMax(cur, base);
    var es := Entries(ra, cur, base, 0, n).value;
    assert Frontier(ra, cur, base, rb, t, 0);
    EntriesApply(ra, cur, base, rb, t, 0, n, -1, padding);
    EntriesCount(ra, cur, base, 0, n);
    BlockReads(rb, t, cur.tick, BaseTick(base), es, padding);
    u := ApplyEntries(rb, t, |es|, -1, EntriesBits(es, -1) + padding).value.0;
    TickFree(rb, u, cur.tick);
  }

  lemma TickUnseen(ra: Registry, cur: State, base: Option<State>, rb: Registry, u: State, tick: Tick, i: nat)
    requires SameSchema(ra, rb) && Valid(ra, cur) && BaseValid(ra, base) && Valid(rb, u) && Valid(rb, u.(tick := tick))
    requires SlotLanded(ra, cur, base, rb, u, i)
    ensures SlotLanded(ra, cur, base, rb, u.(tick := tick), i)
  {
    hide LayoutValid, StateValid, LandedHeld;
    var v := u.(tick := tick);
    forall j | 0 <= j < |ra.canon|
      ensures LandedHeld(ra, cur, base, rb, v, j, i)
    {
      assert SameCell(rb.layouts, u, v, rb.canon[j], i);
      LandedCarries(ra, cur, base, rb, u, v, j, i);
    }
  }

  /** Once every slot in use has been visited, every slot is as the delta decodes. */
  lemma FrontierAll(ra: Registry, cur: State, base: Option<State>, rb: Registry, u: State, i: nat)
    requires SameSchema(ra, rb) && Valid(ra, cur) && BaseValid(ra, base) && Valid(rb, u)
    requires Frontier(ra, cur, base, rb, u, SlotMax(cur, base))
    ensures SlotLanded(ra, cur, base, rb, u, i)
  {
    hide LayoutValid, StateValid, SlotLanded, SameComponent;
    if i >= SlotMax(cur, base) {
      assert SlotAsBase(ra, base, rb, u, i);
      DeadSlotLanded(ra, cur, base, rb, u, i);
    }
  }

  lemma BlockReads(rb: Registry, t: State, tick: Tick, baseTick: Tick, es: seq<Entry>, padding: Stream)
    requires Valid(rb, t) && Ascending(es, -1) && |es| < U64
    ensures ApplyDelta(rb, t, BlockBits(tick, baseTick, es) + padding) ==
            match ApplyEntries(rb, t, |es|, -1, EntriesBits(es, -1) + padding)
            case Err(e) => Err(e)
            case Ok((u, _)) => Ok(u.(tick := tick))
  {
    hide StateValid, BitsOf, ReadBits, VaruintBits, ReadVaruint, ApplyEntries, EntriesBits;
    var r3 := EntriesBits(es, -1) + padding;
    var r2 := VaruintBits(|es|) + r3;
    var r1 := BitsOf(baseTick, 32) + r2;
    assert BlockBits(tick, baseTick, es) + padding == BitsOf(tick, 32) + r1;
    Pow2Values();
    ReadWritten(tick, 32, r1);
    ReadWritten(baseTick, 32, r2);
    VaruintRoundTrip(|es|, r3);
    EntriesLength(es, -1);
  }

  /** The baseline for the next delta is what the receiver now shows. */
  lemma SentBecomesBase(ra: Registry, sent: State, rb: Registry, t: State, i: nat)
    requires SameSchema(ra, rb) && Valid(ra, sent) && Valid(rb, t) && SameView(ra, sent, rb, t)
    ensures SlotAsBase(ra, Some(sent), rb, t, i)
  {
    hide SameSlot;
  }

  /** A server run: each world is encoded against the state returned by the one before. */
  ghost predicate Encodes(ra: Registry, worlds: seq<State>, base: Option<State>)
    requires RegistryValid(ra)
    decreases |worlds|
  {
    |worlds| > 0 ==>
      && Valid(ra, worlds[0]) && BaseValid(ra, base) && SlotMax(worlds[0], base) < U32
      && EncodeDelta(ra, worlds[0], base).Ok?
      && Encodes(ra, worlds[1..], Some(EncodeDelta(ra, worlds[0], base).value.asSent))
  }

  /** The receiver applies every block in turn, each padded to whole bytes somehow. */
  ghost function Receive(ra: Registry, worlds: seq<State>, base: Option<State>, rb: Registry, t: State, paddings: seq<Stream>)
    : Result<State, DeltaError>
    requires RegistryValid(ra) && Encodes(ra, worlds, base) && Valid(rb, t) && |paddings| == |worlds|
    decreases |worlds|
  {
    if |worlds| == 0 then Ok(t)
    else
      var sent := EncodeDelta(ra, worlds[0], base).value;
      match ApplyDelta(rb, t, sent.bits + paddings[0])
      case Err(e) => Err(e)
      case Ok(u) => Receive(ra, worlds[1..], Some(sent.asSent), rb, u, paddings[1..])
  }

  ghost function LastSent(ra: Registry, worlds: seq<State>, base: Option<State>): Option<State>
    requires RegistryValid(ra) && Encodes(ra, worlds, base)
    decreases |worlds|
  {
    if |worlds| == 0 then base else LastSent(ra, worlds[1..], Some(EncodeDelta(ra, worlds[0], base).value.asSent))
  }

  /** Every delta of the run survives its own encoding. */
  ghost predicate AllLand(ra: Registry, worlds: seq<State>, base: Option<State>)
    requires RegistryValid(ra) && Encodes(ra, worlds, base)
    decreases |worlds|
  {
    |worlds| > 0 ==>
      && AllSurvive(ra, worlds[0], base)
      && AllLand(ra, worlds[1..], Some(EncodeDelta(ra, worlds[0], base).value.asSent))
  }

  /** After every delta of the run the receiver shows exactly what the sender returned. */
  ghost predicate ShowsThroughout(ra: Registry, worlds: seq<State>, base: Option<State>, rb: Registry, t: State, paddings: seq<Stream>)
    requires SameSchema(ra, rb) && Encodes(ra, worlds, base) && Valid(rb, t) && |paddings| == |worlds|
    decreases |worlds|
  {
    |worlds| > 0 ==>
      var sent := EncodeDelta(ra, worlds[0], base).value;
      match ApplyDelta(rb, t, sent.bits + paddings[0])
      case Err(e) => false
      case Ok(u) =>
        && Valid(ra, sent.asSent) && u.tick == sent.asSent.tick && SameView(ra, sent.asSent, rb, u)
        && ShowsThroughout(ra, worlds[1..], Some(sent.asSent), rb, u, paddings[1..])
  }

  /** Over every server run that uses the previous state returned as its baseline, the receiver
      shows exactly that state after every delta if and only if every field written survives
      its own encoding. */
  lemma {:induction false} ReceiverTracksExactly(ra: Registry, worlds: seq<State>, base: Option<State>, rb: Registry, t: State,
                                                 paddings: seq<Stream>)
    requires SameSchema(ra, rb) && BaseValid(ra, base) && Valid(rb, t) && |paddings| == |worlds|
    requires forall i: nat :: SlotAsBase(ra, base, rb, t, i)
    requires Encodes(ra, worlds, base)
    ensures ShowsThroughout(ra, worlds, base, rb, t, paddings) <==> AllLand(ra, worlds, base)
    decreases |worlds|
  {
    hide LayoutsValid, StateValid, SlotAsBase, ApplyDelta, EncodeDelta, AllSurvive, SameView;
    if |worlds| > 0 {
      DeltaReplicates(ra, worlds[0], base, rb, t, paddings[0]);
      var sent := EncodeDelta(ra, worlds[0], base).value;
      var u := ApplyDelta(rb, t, sent.bits + paddings[0]).value;
      if SameView(ra, sent.asSent, rb, u) {
        forall i: nat
          ensures SlotAsBase(ra, Some(sent.asSent), rb, u, i)
        {
          SentBecomesBase(ra, sent.asSent, rb, u, i);
        }
        ReceiverTracksExactly(ra, worlds[1..], Some(sent.asSent), rb, u, paddings[1..]);
      }
    }
  }

  /** Integers that fit their width and rotations that settle, in every world, are enough. */
  lemma {:induction false} FaithfulRunLands(ra: Registry, worlds: seq<State>, base: Option<State>)
    requires RegistryValid(ra) && Encodes(ra, worlds, base)
    requires forall k :: 0 <= k < |worlds| ==> Valid(ra, worlds[k]) && Faithful(ra, worlds[k])
    ensures AllLand(ra, worlds, base)
    decreases |worlds|
  {
    hide StateValid, EncodeDelta, AllSurvive, Faithful;
    if |worlds| > 0 {
      FaithfulSurvives(ra, worlds[0], base);
      FaithfulRunLands(ra, worlds[1..], Some(EncodeDelta(ra, worlds[0], base).value.asSent));
    }
  }

  /** In such a run the receiver never errs and always shows exactly the last
      state the sender returned. */
  lemma {:induction false} ReceiverTracks(ra: Registry, worlds: seq<State>, base: Option<State>, rb: Registry, t: State, paddings: seq<Stream>)
    requires SameSchema(ra, rb) && BaseValid(ra, base) && Valid(rb, t) && |paddings| == |worlds|
    requires forall i: nat :: SlotAsBase(ra, base, rb, t, i)
    requires Encodes(ra, worlds, base) && AllLand(ra, worlds, base)
    ensures var r := Receive(ra, worlds, base, rb, t, paddings);
            var last := LastSent(ra, worlds, base);
            && r.Ok? && BaseValid(ra, last) && Valid(rb, r.value)
            && (forall i: nat :: SlotAsBase(ra, last, rb, r.value, i))
            && (|worlds| > 0 ==> last.Some? && last.value.tick == r.value.tick == worlds[|worlds| - 1].tick)
    decreases |worlds|
  {
    hide LayoutsValid, StateValid, SlotAsBase, ApplyDelta, EncodeDelta, AllSurvive, SameView;
    if |worlds| > 0 {
      DeltaReplicates(ra, worlds[0], base, rb, t, paddings[0]);
      var sent := EncodeDelta(ra, worlds[0], base).value;
      EncodedValid(ra, worlds[0], base);
      var u := ApplyDelta(rb, t, sent.bits + paddings[0]).value;
      forall i: nat ensures SlotAsBase(ra, Some(sent.asSent), rb, u, i) {
        SentBecomesBase(ra, sent.asSent, rb, u, i);
      }
      ReceiverTracks(ra, worlds[1..], Some(sent.asSent), rb, u, paddings[1..]);
    }
  }

  lemma EncodedValid(reg: Registry, cur: State, base: Option<State>)
    requires Valid(reg, cur) && BaseValid(reg, base) && SlotMax(cur, base) < U32 && EncodeDelta(reg, cur, base).Ok?
    ensures EncodeDelta(reg, cur, base).value.asSent == AsSent(reg, cur)
    ensures Valid(reg, AsSent(reg, cur))
  {
  }

  // ---------------------------------------------------------------------------
  // Convergence

  lemma CleanComponent(reg: Registry, cur: State, sent: State, i: nat, j: nat)
    requires SameSchema(reg, reg) && Valid(reg, cur) && Valid(reg, sent) && j < |reg.canon|
    requires SentHeld(reg, cur, reg, sent, j, i) && PresentAt(cur, reg.canon[j], i)
    ensures var dirty := DirtyMask(reg, cur, Some(sent), false, reg.canon[j], i);
            true !in dirty
            && EncodeDirty(reg.layouts[reg.canon[j]], SentValues(reg, cur, reg.canon[j], i), dirty, 0) == Ok([])
  {
    var c := reg.canon[j];
    assert LayoutValid(reg.layouts[c]);
    hide StateValid, LayoutValid, LayoutsValid, SentValues, EncodeFixed;
    var dirty := DirtyMask(reg, cur, Some(sent), false, c, i);
    forall f | 0 <= f < |dirty| ensures !dirty[f] {
      assert Holds(reg, sent, c, i, SentValues(reg, cur, c, i), f);
    }
    CleanEncodes(reg.layouts[c], SentValues(reg, cur, c, i), dirty, 0);
  }

  lemma {:induction false} CleanEncodes(l: ComponentLayout, vals: seq<Value>, dirty: seq<bool>, f: nat)
    requires LayoutValid(l) && ValuesFit(l, vals) && |dirty| == |vals| && f <= |vals|
    requires forall g :: 0 <= g < |dirty| ==> !dirty[g]
    ensures EncodeDirty(l, vals, dirty, f) == Ok([])
    decreases |vals| - f
  {
    hide LayoutValid, EncodeFixed;
    if f < |vals| {
      CleanEncodes(l, vals, dirty, f + 1);
    }
  }

  lemma {:induction false} CleanPayload(reg: Registry, cur: State, sent: State, i: nat, j: nat)
    requires SameSchema(reg, reg) && Valid(reg, cur) && Valid(reg, sent) && j <= |reg.canon|
    requires SlotAsSent(reg, cur, reg, sent, i)
    ensures ComponentsPayload(reg, cur, Some(sent), false, i, j).Ok?
    ensures !ComponentsPayload(reg, cur, Some(sent), false, i, j).value.1
    decreases |reg.canon| - j
  {
    hide StateValid, LayoutValid, LayoutsValid, SentValues, EncodeDirty, DirtyMask, SentHeld;
    if j < |reg.canon| {
      CleanPayload(reg, cur, sent, i, j + 1);
      if PresentAt(cur, reg.canon[j], i) {
        CleanComponent(reg, cur, sent, i, j);
      }
    }
  }

  /** A slot already as sent is not mentioned again. */
  lemma SentSlotIsSilent(reg: Registry, cur: State, sent: State, i: Half)
    requires SameSchema(reg, reg) && Valid(reg, cur) && Valid(reg, sent)
    requires SlotAsSent(reg, cur, reg, sent, i)
    ensures EntryFor(reg, cur, Some(sent), i) == Ok(None)
  {
    CleanPayload(reg, cur, sent, i, 0);
    hide StateValid, LayoutValid, LayoutsValid, ComponentsPayload, SentValues, Holds;
    forall j | 0 <= j < |reg.canon| ensures PresenceMask(reg, cur, i)[j] == PresenceMask(reg, sent, i)[j] {
      assert SentHeld(reg, cur, reg, sent, j, i);
    }
    assert PresenceMask(reg, cur, i) == PresenceMask(reg, sent, i);
  }

  lemma {:induction false} SilentEntries(reg: Registry, cur: State, sent: State, i: nat, n: Half)
    requires SameSchema(reg, reg) && Valid(reg, cur) && Valid(reg, sent) && i <= n
    requires forall k: nat :: SlotAsSent(reg, cur, reg, sent, k)
    ensures Entries(reg, cur, Some(sent), i, n) == Ok([])
    decreases n - i
  {
    hide StateValid, LayoutValid, LayoutsValid, EntryFor, SlotAsSent;
    if i < n {
      SentSlotIsSilent(reg, cur, sent, i);
      SilentEntries(reg, cur, sent, i + 1, n);
    }
  }

  /** Convergence: encoding an unchanged world against the state returned for it
      describes no entity at all, quantized rotations and over-wide integers included. */
  lemma DeltaConverges(reg: Registry, cur: State)
    requires RegistryValid(reg) && Valid(reg, cur) && |cur.generations| < U32
    ensures var again := EncodeDelta(reg, cur, Some(AsSent(reg, cur)));
            again.Ok? && again.value.count == 0 && again.value.asSent == AsSent(reg, cur)
  {
    hide StateValid, LayoutValid, LayoutsValid, SlotAsSent, AsSent, BlockBits;
    forall k: nat ensures SlotAsSent(reg, cur, reg, AsSent(reg, cur), k) {
      AsSentIsSent(reg, cur, k);
    }
    SilentEntries(reg, cur, AsSent(reg, cur), 0, SlotMax(cur, Some(AsSent(reg, cur))));
  }
}
