/** Snapshot deltas as values: what `encode_delta` writes, what the receiver is expected
    to hold afterwards, and what `apply_delta` makes of the bits. */
module Delta {
  import opened Common
  import opened Ticks
  import opened Fixed
  import opened Bits
  import opened Schema
  import opened Quaternions
  import opened Values
  import opened Layout
  import opened Worlds

  /** Registered layouts, and their indices in canonical (name-sorted) order. */
  datatype Registry = Registry(layouts: seq<ComponentLayout>, canon: seq<nat>)

  ghost predicate RegistryValid(reg: Registry) {
    && LayoutsValid(reg.layouts)
    && |reg.canon| == |reg.layouts|
    && (forall j :: 0 <= j < |reg.canon| ==> reg.canon[j] < |reg.layouts|)
    && (forall j, k :: 0 <= j < k < |reg.canon| ==> reg.canon[j] != reg.canon[k])
  }

  ghost predicate Valid(reg: Registry, s: State) {
    RegistryValid(reg) && StateValid(reg.layouts, s)
  }

  /** The baseline, when there is one, has this registry's columns. */
  ghost predicate BaseValid(reg: Registry, base: Option<State>) {
    base.Some? ==> Valid(reg, base.value)
  }

  datatype Op = Update | Spawn | Despawned

  datatype Entry = Entry(index: Half, op: Op, generation: Half, payload: Stream)

  function OpCode(op: Op): nat {
    match op case Update => 0 case Spawn => 1 case Despawned => 2
  }

  // ---------------------------------------------------------------------------
  // Encoding one component

  /** The values the receiver will hold, field by field. */
  function SentValues(reg: Registry, cur: State, c: nat, i: nat): (vs: seq<Value>)
    requires Valid(reg, cur) && PresentAt(cur, c, i)
    ensures |vs| == |reg.layouts[c].fields|
    ensures forall f :: 0 <= f < |vs| ==> TypeOf(vs[f]) == reg.layouts[c].fields[f].desc.ty
  {
    seq(|reg.layouts[c].fields|, f requires 0 <= f < |reg.layouts[c].fields| =>
      LossyRoundTrip(reg.layouts[c].fields[f].desc, FieldAt(reg.layouts, cur, c, i, f)))
  }

  function ComponentIsNew(base: Option<State>, isSpawn: bool, c: nat, i: nat): bool {
    isSpawn || base.None? || !PresentAt(base.value, c, i)
  }

  /** Which fields differ from what the receiver already holds. */
  function DirtyMask(reg: Registry, cur: State, base: Option<State>, isSpawn: bool, c: nat, i: nat): (m: seq<bool>)
    requires Valid(reg, cur) && PresentAt(cur, c, i) && BaseValid(reg, base)
    ensures |m| == |reg.layouts[c].fields|
  {
    var sent := SentValues(reg, cur, c, i);
    seq(|sent|, f requires 0 <= f < |sent| =>
      ComponentIsNew(base, isSpawn, c, i) || FieldAt(reg.layouts, base.value, c, i, f) != sent[f])
  }

  ghost predicate ValuesFit(l: ComponentLayout, vals: seq<Value>) {
    && |vals| == |l.fields|
    && forall f :: 0 <= f < |vals| ==> TypeOf(vals[f]) == l.fields[f].desc.ty
  }

  /** The encodings of the dirty fields from `f` on. */
  function EncodeDirty(l: ComponentLayout, vals: seq<Value>, dirty: seq<bool>, f: nat): Result<Stream, WireError>
    requires LayoutValid(l) && ValuesFit(l, vals) && |dirty| == |vals| && f <= |vals|
    decreases |vals| - f
  {
    if f == |vals| then Ok([])
    else if !dirty[f] then EncodeDirty(l, vals, dirty, f + 1)
    else
      match EncodeFixed(l.fields[f].desc, vals[f])
      case Err(e) => Err(e)
      case Ok(first) =>
        match EncodeDirty(l, vals, dirty, f + 1)
        case Err(e) => Err(e)
        case Ok(others) => Ok(first + others)
  }

  // ---------------------------------------------------------------------------
  // Encoding one entity

  function PresenceMask(reg: Registry, cur: State, i: nat): (m: seq<bool>)
    ensures |m| == |reg.canon|
  {
    seq(|reg.canon|, j requires 0 <= j < |reg.canon| => PresentAt(cur, reg.canon[j], i))
  }

  /** The components from canonical position `j` on: their bits, and whether any field is
      dirty. */
  function ComponentsPayload(reg: Registry, cur: State, base: Option<State>, isSpawn: bool, i: nat, j: nat)
    : Result<(Stream, bool), WireError>
    requires Valid(reg, cur) && BaseValid(reg, base) && j <= |reg.canon|
    decreases |reg.canon| - j
  {
    if j == |reg.canon| then Ok(([], false))
    else if !PresentAt(cur, reg.canon[j], i) then ComponentsPayload(reg, cur, base, isSpawn, i, j + 1)
    else
      var c := reg.canon[j];
      var dirty := DirtyMask(reg, cur, base, isSpawn, c, i);
      match EncodeDirty(reg.layouts[c], SentValues(reg, cur, c, i), dirty, 0)
      case Err(e) => Err(e)
      case Ok(fields) =>
        match ComponentsPayload(reg, cur, base, isSpawn, i, j + 1)
        case Err(e) => Err(e)
        case Ok((others, changed)) => Ok((dirty + fields + others, true in dirty || changed))
  }

  function IsSpawn(base: Option<State>, i: nat, generation: Half): bool {
    base.None? || LiveAt(base.value, i) != Some(generation)
  }

  function PresenceChanged(reg: Registry, cur: State, base: Option<State>, i: nat): bool {
    base.Some? && PresenceMask(reg, cur, i) != PresenceMask(reg, base.value, i)
  }

  /** What, if anything, the delta says about slot `i`. */
  function EntryFor(reg: Registry, cur: State, base: Option<State>, i: Half): Result<Option<Entry>, WireError>
    requires Valid(reg, cur) && BaseValid(reg, base)
  {
    match LiveAt(cur, i)
    case None =>
      if base.Some? && LiveAt(base.value, i).Some? then Ok(Some(Entry(i, Despawned, 0, []))) else Ok(None)
    case Some(generation) =>
      var isSpawn := IsSpawn(base, i, generation);
      match ComponentsPayload(reg, cur, base, isSpawn, i, 0)
      case Err(e) => Err(e)
      case Ok((bits, changed)) =>
        if isSpawn || PresenceChanged(reg, cur, base, i) || changed then
          Ok(Some(Entry(i, if isSpawn then Spawn else Update, generation, PresenceMask(reg, cur, i) + bits)))
        else Ok(None)
  }

  function Entries(reg: Registry, cur: State, base: Option<State>, i: nat, n: Half): Result<seq<Entry>, WireError>
    requires Valid(reg, cur) && BaseValid(reg, base) && i <= n
    decreases n - i
  {
    if i == n then Ok([])
    else
      match EntryFor(reg, cur, base, i)
      case Err(e) => Err(e)
      case Ok(first) =>
        match Entries(reg, cur, base, i + 1, n)
        case Err(e) => Err(e)
        case Ok(others) => Ok(match first case Some(entry) => [entry] + others case None => others)
  }

  // ---------------------------------------------------------------------------
  // The state the receiver will hold

  /** Patches every field of one component, not only the dirty ones. */
  function PatchFields(reg: Registry, s: State, c: nat, i: nat, vals: seq<Value>, f: nat): (t: State)
    requires Valid(reg, s) && PresentAt(s, c, i) && ValuesFit(reg.layouts[c], vals) && f <= |vals|
    ensures Valid(reg, t)
    decreases |vals| - f
  {
    if f == |vals| then s
    else
      WriteKeeps(reg.layouts, s, i, c, f, vals[f]);
      PatchFields(reg, WriteCell(reg.layouts, s, i, c, f, vals[f]), c, i, vals, f + 1)
  }

  /** The same entities with the same components; only field values may differ. */
  ghost predicate SameShape(s: State, t: State) {
    && s.tick == t.tick && s.generations == t.generations && s.alive == t.alive
    && forall c, i :: PresentAt(s, c, i) == PresentAt(t, c, i)
  }

  lemma PatchFieldsShape(reg: Registry, s: State, c: nat, i: nat, vals: seq<Value>, f: nat)
    requires Valid(reg, s) && PresentAt(s, c, i) && ValuesFit(reg.layouts[c], vals) && f <= |vals|
    ensures SameShape(s, PatchFields(reg, s, c, i, vals, f))
    decreases |vals| - f
  {
    hide LayoutValid, StateValid, SlotAt, WriteCell;
    if f < |vals| {
      WriteKeeps(reg.layouts, s, i, c, f, vals[f]);
      WriteShape(reg, s, c, i, f, vals[f]);
    }
  }

  lemma WriteShape(reg: Registry, s: State, c: nat, i: nat, f: nat, v: Value)
    requires Valid(reg, s) && PresentAt(s, c, i) && f < |reg.layouts[c].fields| && TypeOf(v) == reg.layouts[c].fields[f].desc.ty
    ensures SameShape(s, WriteCell(reg.layouts, s, i, c, f, v))
  {
  }

  function PatchComponents(reg: Registry, s: State, cur: State, i: nat, j: nat): (t: State)
    requires Valid(reg, s) && Valid(reg, cur) && SameShape(s, cur) && j <= |reg.canon|
    ensures Valid(reg, t) && SameShape(t, cur)
    decreases |reg.canon| - j
  {
    if j == |reg.canon| then s
    else if PresentAt(cur, reg.canon[j], i) then
      var vals := SentValues(reg, cur, reg.canon[j], i);
      PatchFieldsShape(reg, s, reg.canon[j], i, vals, 0);
      PatchComponents(reg, PatchFields(reg, s, reg.canon[j], i, vals, 0), cur, i, j + 1)
    else PatchComponents(reg, s, cur, i, j + 1)
  }

  function PatchSlots(reg: Registry, s: State, cur: State, i: nat, n: nat): (t: State)
    requires Valid(reg, s) && Valid(reg, cur) && SameShape(s, cur) && i <= n
    ensures Valid(reg, t) && SameShape(t, cur)
    decreases n - i
  {
    if i == n then s else PatchSlots(reg, PatchComponents(reg, s, cur, i, 0), cur, i + 1, n)
  }

  /** The sender's state with every field as the receiver will hold it. */
  function AsSent(reg: Registry, cur: State): (t: State)
    requires Valid(reg, cur)
    ensures Valid(reg, t) && SameShape(t, cur)
  {
    PatchSlots(reg, cur, cur, 0, |cur.generations|)
  }

  // ---------------------------------------------------------------------------
  // The block

  function EntryBits(e: Entry, prev: int): Stream
    requires prev < e.index
  {
    VaruintBits(e.index - prev - 1) + BitsOf(OpCode(e.op), 2)
    + (if e.op.Spawn? then VaruintBits(e.generation) else [])
    + (if e.op.Despawned? then [] else e.payload)
  }

  ghost predicate Ascending(entries: seq<Entry>, prev: int) {
    && (forall k :: 0 <= k < |entries| ==> prev < entries[k].index)
    && (forall k, l :: 0 <= k < l < |entries| ==> entries[k].index < entries[l].index)
  }

  function EntriesBits(entries: seq<Entry>, prev: int): Stream
    requires Ascending(entries, prev)
  {
    if |entries| == 0 then []
    else EntryBits(entries[0], prev) + EntriesBits(entries[1..], entries[0].index)
  }

  function BaseTick(base: Option<State>): Tick {
    if base.Some? then base.value.tick else U32 - 1
  }

  function BlockBits(tick: Tick, baseTick: Tick, entries: seq<Entry>): Stream
    requires Ascending(entries, -1)
  {
    BitsOf(tick, 32) + BitsOf(baseTick, 32) + VaruintBits(|entries|) + EntriesBits(entries, -1)
  }

  function SlotMax(cur: State, base: Option<State>): nat {
    if base.Some? && |base.value.generations| > |cur.generations| then |base.value.generations| else |cur.generations|
  }

  lemma {:induction false} EntriesAscend(reg: Registry, cur: State, base: Option<State>, i: nat, n: Half, prev: int)
    requires Valid(reg, cur) && BaseValid(reg, base) && prev < i <= n
    ensures Entries(reg, cur, base, i, n).Ok? ==> Ascending(Entries(reg, cur, base, i, n).value, prev)
    decreases n - i
  {
    hide StateValid, ComponentsPayload, PresenceMask;
    if i < n {
      EntriesAscend(reg, cur, base, i + 1, n, i);
    }
  }

  datatype Encoded = Encoded(bits: Stream, asSent: State, count: nat)

  /** `encode_delta`, up to the padding of the last byte. */
  function EncodeDelta(reg: Registry, cur: State, base: Option<State>): Result<Encoded, WireError>
    requires Valid(reg, cur) && BaseValid(reg, base) && SlotMax(cur, base) < U32
  {
    match Entries(reg, cur, base, 0, SlotMax(cur, base))
    case Err(e) => Err(e)
    case Ok(entries) =>
      EntriesAscend(reg, cur, base, 0, SlotMax(cur, base), -1);
      Ok(Encoded(BlockBits(cur.tick, BaseTick(base), entries), AsSent(reg, cur), |entries|))
  }

  // ---------------------------------------------------------------------------
  // Applying

  datatype DeltaError =
    | Wire(error: WireError)
    | CountExceedsPacket
    | IndexOverflow
    | IndexOutOfRange
    | ReservedOp
    | GenerationOutOfRange
    | UnknownEntity

  type Applied = Result<(State, Stream), DeltaError>

  /** Reads and stores the dirty fields from `f` on. */
  function ApplyFields(reg: Registry, s: State, c: nat, i: nat, dirty: seq<bool>, f: nat, bits: Stream): (r: Applied)
    requires Valid(reg, s) && PresentAt(s, c, i) && |dirty| == |reg.layouts[c].fields| && f <= |dirty|
    ensures r.Ok? ==> Valid(reg, r.value.0) && r.value.0.alive == s.alive && r.value.0.generations == s.generations
    decreases |dirty| - f
  {
    if f == |dirty| then Ok((s, bits))
    else if !dirty[f] then ApplyFields(reg, s, c, i, dirty, f + 1, bits)
    else
      match DecodeFixed(reg.layouts[c].fields[f].desc, bits)
      case Err(e) => Err(Wire(e))
      case Ok((v, rest)) =>
        DecodedType(reg.layouts[c].fields[f].desc, bits);
        WriteKeeps(reg.layouts, s, i, c, f, v);
        ApplyFields(reg, WriteCell(reg.layouts, s, i, c, f, v), c, i, dirty, f + 1, rest)
  }

  lemma DecodedType(d: FieldDesc, bits: Stream)
    requires ParametersValid(d) && Storable(d.ty)
    ensures DecodeFixed(d, bits).Ok? ==> TypeOf(DecodeFixed(d, bits).value.0) == d.ty
  {
    hide ReadBits, DecodeFx, DecodeRaw, DecodeWord, DecompressQuat, SignExtend;
  }

  /** Applies the components from canonical position `j` on. */
  function ApplyComponents(reg: Registry, s: State, i: nat, present: seq<bool>, j: nat, bits: Stream): (r: Applied)
    requires Valid(reg, s) && LiveAt(s, i).Some? && |present| == |reg.canon| && j <= |present|
    ensures r.Ok? ==> Valid(reg, r.value.0)
    decreases |present| - j
  {
    if j == |present| then Ok((s, bits))
    else
      var c := reg.canon[j];
      if !present[j] then
        RemoveKeeps(reg.layouts, s, i, c);
        ApplyComponents(reg, RemoveCell(reg.layouts, s, i, c), i, present, j + 1, bits)
      else
        InsertKeeps(reg.layouts, s, i, c);
        var n := |reg.layouts[c].fields|;
        if |bits| < n then Err(Wire(UnexpectedEnd))
        else
          match ApplyFields(reg, InsertCell(reg.layouts, s, i, c), c, i, bits[..n], 0, bits[n..])
          case Err(e) => Err(e)
          case Ok((t, rest)) => ApplyComponents(reg, t, i, present, j + 1, rest)
  }

  function ApplyPayload(reg: Registry, s: State, i: nat, bits: Stream): (r: Applied)
    requires Valid(reg, s) && LiveAt(s, i).Some?
    ensures r.Ok? ==> Valid(reg, r.value.0)
  {
    var n := |reg.canon|;
    if |bits| < n then Err(Wire(UnexpectedEnd)) else ApplyComponents(reg, s, i, bits[..n], 0, bits[n..])
  }

  function DespawnAt(reg: Registry, s: State, i: Half): (t: State)
    requires Valid(reg, s)
    ensures Valid(reg, t)
  {
    match LiveAt(s, i)
    case None => s
    case Some(generation) =>
      DespawnKeeps(reg.layouts, s, Entity(i, generation));
      Despawn(reg.layouts, s, Entity(i, generation))
  }

  /** A spawn replaces whatever other entity occupied the slot. */
  function SpawnOver(reg: Registry, s: State, i: Half, generation: Half): (t: State)
    requires Valid(reg, s)
    ensures Valid(reg, t) && LiveAt(t, i) == Some(generation)
  {
    var cleared := if LiveAt(s, i).Some? && LiveAt(s, i) != Some(generation) then DespawnAt(reg, s, i) else s;
    SpawnAtKeeps(reg.layouts, cleared, Entity(i, generation));
    SpawnAt(reg.layouts, cleared, Entity(i, generation))
  }

  /** One entry after its index: operation, identity and components. */
  function ApplyEntry(reg: Registry, s: State, i: Half, bits: Stream): (r: Applied)
    requires Valid(reg, s)
    ensures r.Ok? ==> Valid(reg, r.value.0)
  {
    match ReadBits(bits, 2)
    case Err(e) => Err(Wire(e))
    case Ok((op, rest)) =>
      if op == 2 then Ok((DespawnAt(reg, s, i), rest))
      else if op == 1 then
        match ReadVaruint(rest)
        case Err(e) => Err(Wire(e))
        case Ok((generation, body)) =>
          if generation >= U32 then Err(GenerationOutOfRange)
          else ApplyPayload(reg, SpawnOver(reg, s, i, generation), i, body)
      else if op == 0 then
        if LiveAt(s, i).None? then Err(UnknownEntity) else ApplyPayload(reg, s, i, rest)
      else Err(ReservedOp)
  }

  /** Index arithmetic on 64-bit signed integers, as the source does it. */
  function NextIndex(index: I64, gap: Word): Result<I64, DeltaError> {
    var next := index + ToSigned((gap + 1) % U64);
    if !(Fixed.MIN <= next <= Fixed.MAX) then Err(IndexOverflow)
    else if next >= U32 then Err(IndexOutOfRange)
    else Ok(next)
  }

  function ApplyEntries(reg: Registry, s: State, count: nat, index: I64, bits: Stream): (r: Applied)
    requires Valid(reg, s)
    ensures r.Ok? ==> Valid(reg, r.value.0)
    decreases count
  {
    if count == 0 then Ok((s, bits))
    else
      match DecodeVaruint(bits)
      case Err(e) => Err(Wire(e))
      case Ok((gap, rest)) =>
        match NextIndex(index, gap)
        case Err(e) => Err(e)
        case Ok(next) =>
          match ApplyEntry(reg, s, next % U32, rest)
          case Err(e) => Err(e)
          case Ok((t, after)) => ApplyEntries(reg, t, count - 1, next, after)
  }

  lemma TickFree(reg: Registry, s: State, tick: Tick)
    requires Valid(reg, s)
    ensures Valid(reg, s.(tick := tick))
  {
    assert forall i :: LiveAt(s.(tick := tick), i) == LiveAt(s, i);
    assert forall c, i :: PresentAt(s.(tick := tick), c, i) == PresentAt(s, c, i);
  }

  function ApplyDelta(reg: Registry, s: State, bits: Stream): (r: Result<State, DeltaError>)
    requires Valid(reg, s)
    ensures r.Ok? ==> Valid(reg, r.value)
  {
    match ReadBits(bits, 32)
    case Err(e) => Err(Wire(e))
    case Ok((tick, r1)) =>
      match ReadBits(r1, 32)
      case Err(e) => Err(Wire(e))
      case Ok((_, r2)) =>
        match ReadVaruint(r2)
        case Err(e) => Err(Wire(e))
        case Ok((count, r3)) =>
          if count > |r3| then Err(CountExceedsPacket)
          else
            match ApplyEntries(reg, s, count, -1, r3)
            case Err(e) => Err(e)
            case Ok((t, _)) => TickFree(reg, t, tick % U32); Ok(t.(tick := tick % U32))
  }
}
