/** `encode_delta` as it runs: payloads are built slot by slot while the as-sent state is
    patched, then spliced bit-exactly into one block. */
module DeltaSender {
  import opened Common
  import opened Ticks
  import opened Bits
  import opened BitBuffers
  import opened Schema
  import opened Values
  import opened Layout
  import opened Worlds
  import opened FieldIO
  import D = Delta
  import W = WorldObject

  // ----- splicing -----

  /** Moves up to 32 bits from a reader to a writer. */
  method CopyChunk(w: BitWriter, source: BitReader, take: nat)
    requires w.Valid() && source.Valid() && take <= 32 && take <= |source.Rest()|
    modifies w, source
    ensures w.Valid() && source.Valid()
    ensures w.Written() == old(w.Written()) + old(source.Rest())[..take]
    ensures source.Rest() == old(source.Rest())[take..]
  {
    hide BytesBits, BitsOf, ValueOf;
    ghost var rest := source.Rest();
    var chunk := source.ReadBits(take);
    w.WriteBits(chunk.value, take);
    BitsOfValue(rest[..take]);
  }

  /** Appends the first `bits` bits of a byte buffer, 32 at a time. */
  method Splice(w: BitWriter, bytes: seq<Byte>, bits: nat)
    requires w.Valid() && bits <= 8 * |bytes|
    modifies w
    ensures w.Valid() && w.Written() == old(w.Written()) + BytesBits(bytes)[..bits]
  {
    hide BytesBits, BitsOf;
    var source := new BitReader(bytes);
    ghost var goal := w.Written() + BytesBits(bytes)[..bits];
    var remaining: nat := bits;
    while remaining > 0
      invariant w.Valid() && source.Valid() && remaining <= |source.Rest()|
      invariant w.Written() + source.Rest()[..remaining] == goal
      decreases remaining
    {
      var take := if remaining < 32 then remaining else 32;
      ChunkMoves(w.Written(), source.Rest(), take, remaining);
      CopyChunk(w, source, take);
      remaining := remaining - take;
    }
    assert w.Written() + source.Rest()[..0] == w.Written();
  }

  lemma ChunkMoves(written: Stream, rest: Stream, take: nat, remaining: nat)
    requires take <= remaining <= |rest|
    ensures written + rest[..take] + rest[take..][..remaining - take] == written + rest[..remaining]
  {
    assert rest[..take] + rest[take..][..remaining - take] == rest[..remaining];
  }

  // ----- one component -----

  /** Which fields changed, and what the receiver will hold for each. */
  method Differences(reg: D.Registry, cur: State, base: Option<State>, isSpawn: bool, c: nat, i: nat)
    returns (sent: seq<Value>, dirty: seq<bool>)
    requires D.Valid(reg, cur) && PresentAt(cur, c, i) && D.BaseValid(reg, base)
    ensures sent == D.SentValues(reg, cur, c, i)
    ensures dirty == D.DirtyMask(reg, cur, base, isSpawn, c, i)
  {
    hide StateValid, LossyRoundTrip, FieldAt, D.RegistryValid;
    var componentIsNew := D.ComponentIsNew(base, isSpawn, c, i);
    sent, dirty := [], [];
    ghost var goal, mask := D.SentValues(reg, cur, c, i), D.DirtyMask(reg, cur, base, isSpawn, c, i);
    var f := 0;
    ColumnCount(reg, cur, c);
    while f < |reg.layouts[c].fields|
      invariant 0 <= f <= |reg.layouts[c].fields| && |sent| == |dirty| == f
      invariant forall k :: 0 <= k < f ==> sent[k] == goal[k] && dirty[k] == mask[k]
    {
      DescriptionValid(reg, cur, c, f);
      var value := LossyRoundTrip(reg.layouts[c].fields[f].desc, FieldAt(reg.layouts, cur, c, i, f));
      var changed := true;
      if !componentIsNew {
        changed := FieldAt(reg.layouts, base.value, c, i, f) != value;
      }
      dirty := dirty + [changed];
      sent := sent + [value];
      f := f + 1;
    }
  }

  lemma ColumnCount(reg: D.Registry, s: State, c: nat)
    requires D.Valid(reg, s) && c < |s.columns|
    ensures c < |reg.layouts|
  {
  }

  lemma DescriptionValid(reg: D.Registry, s: State, c: nat, f: nat)
    requires D.Valid(reg, s) && c < |reg.layouts| && f < |reg.layouts[c].fields|
    ensures LayoutValid(reg.layouts[c]) && ParametersValid(reg.layouts[c].fields[f].desc)
  {
    assert LayoutValid(reg.layouts[c]);
  }

  method WriteMask(w: BitWriter, mask: seq<bool>)
    requires w.Valid()
    modifies w
    ensures w.Valid() && w.Written() == old(w.Written()) + mask
  {
    hide BytesBits, BitsOf;
    ghost var before := w.Written();
    var k := 0;
    assert before + mask[..0] == before;
    while k < |mask|
      invariant 0 <= k <= |mask| && w.Valid() && w.Written() == before + mask[..k]
    {
      w.WriteBool(mask[k]);
      assert mask[..k + 1] == mask[..k] + [mask[k]];
      k := k + 1;
    }
    assert mask[..|mask|] == mask;
  }

  /** Patches every field of the as-sent state and writes the dirty ones. */
  method WriteFields(reg: D.Registry, asSent: State, c: nat, i: nat, sent: seq<Value>, dirty: seq<bool>, w: BitWriter)
    returns (r: Result<(), WireError>, patched: State)
    requires D.Valid(reg, asSent) && PresentAt(asSent, c, i) && c < |reg.layouts|
    requires LayoutValid(reg.layouts[c]) && D.ValuesFit(reg.layouts[c], sent) && |dirty| == |sent| && w.Valid()
    modifies w
    ensures w.Valid()
    ensures match D.EncodeDirty(reg.layouts[c], sent, dirty, 0)
            case Err(e) => r == Err(e)
            case Ok(s) => r == Ok(()) && w.Written() == old(w.Written()) + s
                          && patched == D.PatchFields(reg, asSent, c, i, sent, 0)
  {
    hide BytesBits, BitsOf, StateValid, EncodeFixed, WriteCell, D.RegistryValid, ParametersValid, LayoutValid;
    ghost var before := w.Written();
    ghost var written: Stream := [];
    patched := asSent;
    assert before + [] == before;
    ghost var goal := D.EncodeDirty(reg.layouts[c], sent, dirty, 0);
    PrefixedNothing(goal);
    var f := 0;
    while f < |sent|
      invariant 0 <= f <= |sent| && w.Valid()
      invariant D.Valid(reg, patched) && PresentAt(patched, c, i)
      invariant D.PatchFields(reg, patched, c, i, sent, f) == D.PatchFields(reg, asSent, c, i, sent, 0)
      invariant w.Written() == before + written
      invariant goal == Prefixed(written, D.EncodeDirty(reg.layouts[c], sent, dirty, f))
    {
      WriteKeeps(reg.layouts, patched, i, c, f, sent[f]);
      patched := WriteCell(reg.layouts, patched, i, c, f, sent[f]);
      DescriptionValid(reg, patched, c, f);
      if dirty[f] {
        var desc := reg.layouts[c].fields[f].desc;
        var one := WriteFixed(w, desc, sent[f]);
        if one.Err? {
          return Err(one.error), patched;
        }
        ghost var bits := EncodeFixed(desc, sent[f]).value;
        PrefixedAgain(written, bits, D.EncodeDirty(reg.layouts[c], sent, dirty, f + 1));
        assert before + written + bits == before + (written + bits);
        written := written + bits;
      }
      f := f + 1;
    }
    assert written + [] == written;
    r := Ok(());
  }

  /** A result with a prefix already written. */
  ghost function Prefixed(prefix: Stream, r: Result<Stream, WireError>): Result<Stream, WireError> {
    match r case Err(e) => Err(e) case Ok(s) => Ok(prefix + s)
  }

  lemma PrefixedNothing(r: Result<Stream, WireError>)
    ensures Prefixed([], r) == r
  {
    if r.Ok? {
      assert [] + r.value == r.value;
    }
  }

  lemma PrefixedAgain(a: Stream, b: Stream, r: Result<Stream, WireError>)
    ensures Prefixed(a, Prefixed(b, r)) == Prefixed(a + b, r)
  {
    if r.Ok? {
      assert a + (b + r.value) == a + b + r.value;
    }
  }

  /** One present component: its dirty mask, then its dirty fields. */
  method EncodeComponent(reg: D.Registry, cur: State, base: Option<State>, isSpawn: bool, c: nat, i: nat, asSent: State,
                         w: BitWriter)
    returns (r: Result<bool, WireError>, patched: State)
    requires D.Valid(reg, cur) && D.BaseValid(reg, base) && PresentAt(cur, c, i)
    requires D.Valid(reg, asSent) && D.SameShape(asSent, cur) && w.Valid()
    modifies w
    ensures w.Valid()
    ensures c < |reg.layouts| && LayoutValid(reg.layouts[c])
    ensures var sent, dirty := D.SentValues(reg, cur, c, i), D.DirtyMask(reg, cur, base, isSpawn, c, i);
            match D.EncodeDirty(reg.layouts[c], sent, dirty, 0)
            case Err(e) => r == Err(e)
            case Ok(s) =>
              && r == Ok(true in dirty) && w.Written() == old(w.Written()) + (dirty + s)
              && PresentAt(asSent, c, i) && patched == D.PatchFields(reg, asSent, c, i, sent, 0)
  {
    hide BytesBits, BitsOf, D.EncodeDirty, D.SentValues, D.DirtyMask, StateValid, D.RegistryValid, D.PatchFields;
    ComponentKnown(reg, cur, c, i);
    ghost var before := w.Written();
    var sent, dirty := Differences(reg, cur, base, isSpawn, c, i);
    WriteMask(w, dirty);
    ShapePresent(asSent, cur, c, i);
    var written;
    written, patched := WriteFields(reg, asSent, c, i, sent, dirty, w);
    if written.Err? {
      return Err(written.error), patched;
    }
    ghost var s := D.EncodeDirty(reg.layouts[c], sent, dirty, 0).value;
    assert before + dirty + s == before + (dirty + s);
    r := Ok(true in dirty);
  }

  lemma ComponentKnown(reg: D.Registry, s: State, c: nat, i: nat)
    requires D.Valid(reg, s) && PresentAt(s, c, i)
    ensures c < |reg.layouts| && LayoutValid(reg.layouts[c])
  {
  }

  lemma ShapePresent(s: State, t: State, c: nat, i: nat)
    requires D.SameShape(s, t)
    ensures PresentAt(s, c, i) == PresentAt(t, c, i)
  {
  }

  // ----- one entity -----

  datatype Progress = Progress(bits: Stream, changed: bool)

  /** Components from `j` on, after those already written. */
  ghost function After(done: Progress, r: Result<(Stream, bool), WireError>): Result<(Stream, bool), WireError> {
    match r case Err(e) => Err(e) case Ok((s, changed)) => Ok((done.bits + s, done.changed || changed))
  }

  lemma AfterNothing(r: Result<(Stream, bool), WireError>)
    ensures After(Progress([], false), r) == r
  {
    if r.Ok? {
      assert [] + r.value.0 == r.value.0;
    }
  }

  lemma AfterAgain(a: Progress, bits: Stream, changed: bool, r: Result<(Stream, bool), WireError>)
    ensures After(a, match r case Err(e) => Err(e) case Ok((s, c)) => Ok((bits + s, changed || c))) ==
            After(Progress(a.bits + bits, a.changed || changed), r)
  {
    if r.Ok? {
      assert a.bits + (bits + r.value.0) == a.bits + bits + r.value.0;
    }
  }

  /** The components of one live entity, in canonical order. */
  method EncodeComponents(reg: D.Registry, cur: State, base: Option<State>, isSpawn: bool, i: nat, asSent: State,
                          w: BitWriter)
    returns (r: Result<bool, WireError>, patched: State)
    requires D.Valid(reg, cur) && D.BaseValid(reg, base) && D.Valid(reg, asSent) && D.SameShape(asSent, cur) && w.Valid()
    modifies w
    ensures w.Valid()
    ensures match D.ComponentsPayload(reg, cur, base, isSpawn, i, 0)
            case Err(e) => r == Err(e)
            case Ok((s, changed)) =>
              r == Ok(changed) && w.Written() == old(w.Written()) + s && patched == D.PatchComponents(reg, asSent, cur, i, 0)
  {
    hide BytesBits, BitsOf, D.EncodeDirty, D.SentValues, D.DirtyMask, StateValid, D.PatchFields, D.SameShape, LayoutValid;
    ghost var before := w.Written();
    ghost var done := Progress([], false);
    assert before + [] == before;
    ghost var goal := D.ComponentsPayload(reg, cur, base, isSpawn, i, 0);
    AfterNothing(goal);
    patched := asSent;
    var changed := false;
    var j := 0;
    while j < |reg.canon|
      invariant 0 <= j <= |reg.canon| && w.Valid()
      invariant D.Valid(reg, patched) && D.SameShape(patched, cur)
      invariant D.PatchComponents(reg, patched, cur, i, j) == D.PatchComponents(reg, asSent, cur, i, 0)
      invariant w.Written() == before + done.bits && changed == done.changed
      invariant goal == After(done, D.ComponentsPayload(reg, cur, base, isSpawn, i, j))
    {
      var c := reg.canon[j];
      if PresentAt(cur, c, i) {
        PatchedShape(reg, patched, cur, c, i);
        var one;
        ghost var was := patched;
        one, patched := EncodeComponent(reg, cur, base, isSpawn, c, i, patched, w);
        if one.Err? {
          return Err(one.error), patched;
        }
        ghost var dirty := D.DirtyMask(reg, cur, base, isSpawn, c, i);
        ghost var fields := D.EncodeDirty(reg.layouts[c], D.SentValues(reg, cur, c, i), dirty, 0).value;
        ghost var rest := D.ComponentsPayload(reg, cur, base, isSpawn, i, j + 1);
        PayloadStep(reg, cur, base, isSpawn, i, j);
        AfterAgain(done, dirty + fields, true in dirty, rest);
        assert before + done.bits + (dirty + fields) == before + (done.bits + (dirty + fields));
        done := Progress(done.bits + (dirty + fields), done.changed || true in dirty);
        changed := changed || one.value;
      }
      j := j + 1;
    }
    assert done.bits + [] == done.bits;
    r := Ok(changed);
  }

  /** What patching one component leaves is still the same shape. */
  lemma PatchedShape(reg: D.Registry, s: State, cur: State, c: nat, i: nat)
    requires D.Valid(reg, s) && D.Valid(reg, cur) && D.SameShape(s, cur) && PresentAt(cur, c, i)
    ensures PresentAt(s, c, i)
    ensures D.SameShape(D.PatchFields(reg, s, c, i, D.SentValues(reg, cur, c, i), 0), cur)
    ensures D.Valid(reg, D.PatchFields(reg, s, c, i, D.SentValues(reg, cur, c, i), 0))
  {
    hide StateValid, D.SentValues, D.PatchFields;
    D.PatchFieldsShape(reg, s, c, i, D.SentValues(reg, cur, c, i), 0);
  }

  lemma PayloadStep(reg: D.Registry, cur: State, base: Option<State>, isSpawn: bool, i: nat, j: nat)
    requires D.Valid(reg, cur) && D.BaseValid(reg, base) && j < |reg.canon| && PresentAt(cur, reg.canon[j], i)
    requires reg.canon[j] < |reg.layouts| && LayoutValid(reg.layouts[reg.canon[j]])
    requires var c := reg.canon[j];
             D.EncodeDirty(reg.layouts[c], D.SentValues(reg, cur, c, i), D.DirtyMask(reg, cur, base, isSpawn, c, i), 0).Ok?
    ensures var c := reg.canon[j];
            var dirty := D.DirtyMask(reg, cur, base, isSpawn, c, i);
            var fields := D.EncodeDirty(reg.layouts[c], D.SentValues(reg, cur, c, i), dirty, 0).value;
            D.ComponentsPayload(reg, cur, base, isSpawn, i, j) ==
              match D.ComponentsPayload(reg, cur, base, isSpawn, i, j + 1)
              case Err(e) => Err(e)
              case Ok((s, changed)) => Ok((dirty + fields + s, true in dirty || changed))
  {
    hide StateValid, D.EncodeDirty, D.SentValues, D.DirtyMask;
  }

  // ----- one slot -----

  /** An entry waiting to be written: its payload as finished bytes and a bit length. */
  datatype Packed = Packed(index: Half, op: D.Op, generation: Half, bytes: seq<Byte>, bits: nat)

  predicate PackedOk(p: Packed) {
    p.bits <= 8 * |p.bytes|
  }

  ghost function Meaning(p: Packed): D.Entry
    requires PackedOk(p)
  {
    D.Entry(p.index, p.op, p.generation, BytesBits(p.bytes)[..p.bits])
  }

  ghost predicate Matches(r: Result<Option<Packed>, WireError>, spec: Result<Option<D.Entry>, WireError>) {
    match (r, spec)
    case (Err(a), Err(b)) => a == b
    case (Ok(None), Ok(None)) => true
    case (Ok(Some(p)), Ok(Some(e))) => PackedOk(p) && Meaning(p) == e
    case _ => false
  }

  /** The presence mask of a slot, component by component. */
  method Presence(reg: D.Registry, s: State, i: nat) returns (mask: seq<bool>)
    ensures mask == D.PresenceMask(reg, s, i)
  {
    mask := [];
    var j := 0;
    while j < |reg.canon|
      invariant 0 <= j <= |reg.canon| && |mask| == j
      invariant forall k :: 0 <= k < j ==> mask[k] == PresentAt(s, reg.canon[k], i)
    {
      mask := mask + [PresentAt(s, reg.canon[j], i)];
      j := j + 1;
    }
  }

  lemma {:induction false} DeadUnpatched(reg: D.Registry, s: State, cur: State, i: nat, j: nat)
    requires D.Valid(reg, s) && D.Valid(reg, cur) && D.SameShape(s, cur) && j <= |reg.canon|
    requires LiveAt(cur, i).None?
    ensures D.PatchComponents(reg, s, cur, i, j) == s
    decreases |reg.canon| - j
  {
    hide StateValid, LayoutsValid;
    if j < |reg.canon| {
      NothingPresent(reg, cur, reg.canon[j], i);
      DeadUnpatched(reg, s, cur, i, j + 1);
    }
  }

  lemma NothingPresent(reg: D.Registry, s: State, c: nat, i: nat)
    requires D.Valid(reg, s) && LiveAt(s, i).None?
    ensures !PresentAt(s, c, i)
  {
  }

  /** What the delta says about one slot, with the as-sent state patched on the way. */
  method EncodeSlot(reg: D.Registry, cur: State, base: Option<State>, i: Half, asSent: State)
    returns (r: Result<Option<Packed>, WireError>, patched: State)
    requires D.Valid(reg, cur) && D.BaseValid(reg, base) && D.Valid(reg, asSent) && D.SameShape(asSent, cur)
    ensures Matches(r, D.EntryFor(reg, cur, base, i))
    ensures r.Ok? ==> patched == D.PatchComponents(reg, asSent, cur, i, 0)
  {
    hide BytesBits, BitsOf, D.ComponentsPayload, D.PatchComponents, D.PresenceMask, StateValid, D.SameShape, D.RegistryValid;
    patched := asSent;
    match LiveAt(cur, i) {
      case None =>
        DeadUnpatched(reg, asSent, cur, i, 0);
        if base.Some? && LiveAt(base.value, i).Some? {
          assert BytesBits([])[..0] == [];
          return Ok(Some(Packed(i, D.Despawned, 0, [], 0))), patched;
        }
        return Ok(None), patched;
      case Some(generation) =>
        var isSpawn := base.None? || LiveAt(base.value, i) != Some(generation);
        var payload := new BitWriter();
        var mask := Presence(reg, cur, i);
        WriteMask(payload, mask);
        assert [] + mask == mask;
        var anyChange := isSpawn;
        if !isSpawn {
          var was := Presence(reg, base.value, i);
          if was != mask {
            anyChange := true;
          }
        }
        var changed;
        changed, patched := EncodeComponents(reg, cur, base, isSpawn, i, asSent, payload);
        if changed.Err? {
          return Err(changed.error), patched;
        }
        if anyChange || changed.value {
          var bytes := payload.ToBytes();
          var bits := payload.BitLen();
          assert payload.Written() == BytesBits(bytes)[..bits];
          return Ok(Some(Packed(i, if isSpawn then D.Spawn else D.Update, generation, bytes, bits))), patched;
        }
        return Ok(None), patched;
    }
  }

  // ----- all slots -----

  ghost predicate AllOk(ps: seq<Packed>) {
    forall k :: 0 <= k < |ps| ==> PackedOk(ps[k])
  }

  ghost function Meanings(ps: seq<Packed>): (es: seq<D.Entry>)
    requires AllOk(ps)
    ensures |es| == |ps|
  {
    seq(|ps|, k requires 0 <= k < |ps| => Meaning(ps[k]))
  }

  ghost function Onto(done: seq<D.Entry>, r: Result<seq<D.Entry>, WireError>): Result<seq<D.Entry>, WireError> {
    match r case Err(e) => Err(e) case Ok(es) => Ok(done + es)
  }

  /** What is left of patching once the slots before `i` are done. */
  ghost function Finished(reg: D.Registry, s: State, cur: State, i: nat): State
    requires D.Valid(reg, s) && D.Valid(reg, cur) && D.SameShape(s, cur)
  {
    if i <= |cur.generations| then D.PatchSlots(reg, s, cur, i, |cur.generations|) else s
  }

  lemma FinishedStep(reg: D.Registry, s: State, cur: State, i: nat)
    requires D.Valid(reg, s) && D.Valid(reg, cur) && D.SameShape(s, cur)
    ensures var t := D.PatchComponents(reg, s, cur, i, 0);
            Finished(reg, t, cur, i + 1) == Finished(reg, s, cur, i)
  {
    hide D.PatchComponents, StateValid, D.RegistryValid, D.SameShape;
    if i >= |cur.generations| {
      DeadUnpatched(reg, s, cur, i, 0);
    }
  }

  lemma OntoStep(done: seq<D.Entry>, first: Option<D.Entry>, r: Result<seq<D.Entry>, WireError>)
    ensures Onto(done, match r
                       case Err(e) => Err(e)
                       case Ok(others) => Ok(match first case Some(entry) => [entry] + others case None => others)) ==
            Onto(done + (if first.Some? then [first.value] else []), r)
  {
    if r.Ok? {
      if first.Some? {
        assert done + ([first.value] + r.value) == done + [first.value] + r.value;
      } else {
        assert done + [] == done;
      }
    }
  }

  lemma EntriesStep(reg: D.Registry, cur: State, base: Option<State>, i: nat, n: Half)
    requires D.Valid(reg, cur) && D.BaseValid(reg, base) && i < n && D.EntryFor(reg, cur, base, i).Ok?
    ensures D.Entries(reg, cur, base, i, n) ==
            match D.Entries(reg, cur, base, i + 1, n)
            case Err(e) => Err(e)
            case Ok(others) => Ok(match D.EntryFor(reg, cur, base, i).value
                                  case Some(entry) => [entry] + others
                                  case None => others)
  {
    hide D.EntryFor, D.Valid, D.BaseValid;
  }

  /** Every slot's entry, and the state the receiver will hold. */
  method EncodeSlots(reg: D.Registry, cur: State, base: Option<State>)
    returns (r: Result<seq<Packed>, WireError>, asSent: State)
    requires D.Valid(reg, cur) && D.BaseValid(reg, base) && D.SlotMax(cur, base) < U32
    ensures match D.Entries(reg, cur, base, 0, D.SlotMax(cur, base))
            case Err(e) => r == Err(e)
            case Ok(es) => r.Ok? && AllOk(r.value) && Meanings(r.value) == es && asSent == D.AsSent(reg, cur)
  {
    hide D.EntryFor, D.PatchComponents, StateValid, D.RegistryValid, D.SameShape, Meaning, PackedOk, D.PatchSlots;
    asSent := cur;
    assert D.SameShape(cur, cur) by { ShapeSelf(cur); }
    var slotMax: Half := D.SlotMax(cur, base);
    var packed: seq<Packed> := [];
    ghost var goal := D.Entries(reg, cur, base, 0, slotMax);
    OntoNothing(goal);
    var i := 0;
    while i < slotMax
      invariant 0 <= i <= slotMax && AllOk(packed)
      invariant D.Valid(reg, asSent) && D.SameShape(asSent, cur)
      invariant Finished(reg, asSent, cur, i) == D.AsSent(reg, cur)
      invariant goal == Onto(Meanings(packed), D.Entries(reg, cur, base, i, slotMax))
    {
      FinishedStep(reg, asSent, cur, i);
      var one;
      one, asSent := EncodeSlot(reg, cur, base, i, asSent);
      if one.Err? {
        return Err(one.error), asSent;
      }
      ghost var spec := D.EntryFor(reg, cur, base, i).value;
      EntriesStep(reg, cur, base, i, slotMax);
      OntoStep(Meanings(packed), spec, D.Entries(reg, cur, base, i + 1, slotMax));
      if one.value.Some? {
        assert Meanings(packed + [one.value.value]) == Meanings(packed) + [spec.value];
        packed := packed + [one.value.value];
      } else {
        assert Meanings(packed) + [] == Meanings(packed);
      }
      i := i + 1;
    }
    assert Meanings(packed) + [] == Meanings(packed);
    PatchedAll(reg, asSent, cur, i);
    r := Ok(packed);
  }

  lemma ShapeSelf(s: State)
    ensures D.SameShape(s, s)
  {
  }

  lemma OntoNothing(r: Result<seq<D.Entry>, WireError>)
    ensures Onto([], r) == r
  {
    if r.Ok? {
      assert [] + r.value == r.value;
    }
  }

  lemma PatchedAll(reg: D.Registry, s: State, cur: State, i: nat)
    requires D.Valid(reg, s) && D.Valid(reg, cur) && D.SameShape(s, cur) && i >= |cur.generations|
    ensures Finished(reg, s, cur, i) == s
  {
  }

  // ----- the block -----

  datatype Sent = Sent(bytes: seq<Byte>, asSent: State, count: nat)

  /** Writes one entry after its index gap. */
  method WriteEntry(w: BitWriter, p: Packed, prev: Option<Half>)
    requires w.Valid() && PackedOk(p) && (prev.Some? ==> prev.value < p.index)
    modifies w
    ensures w.Valid()
    ensures w.Written() == old(w.Written()) + D.EntryBits(Meaning(p), if prev.Some? then prev.value else -1)
  {
    hide BytesBits, BitsOf, VaruintBits;
    ghost var before := w.Written();
    var gap := match prev case None => p.index case Some(q) => p.index - q - 1;
    w.WriteVaruint(gap);
    w.WriteBits(D.OpCode(p.op), 2);
    ghost var head := VaruintBits(gap) + BitsOf(D.OpCode(p.op), 2);
    assert w.Written() == before + head;
    ghost var generation: Stream := if p.op.Spawn? then VaruintBits(p.generation) else [];
    if p.op.Spawn? {
      w.WriteVaruint(p.generation);
    }
    assert w.Written() == before + (head + generation);
    ghost var payload: Stream := if p.op.Despawned? then [] else BytesBits(p.bytes)[..p.bits];
    if !p.op.Despawned? {
      Splice(w, p.bytes, p.bits);
    }
    assert w.Written() == before + (head + generation + payload);
  }

  lemma EntriesBitsFrom(es: seq<D.Entry>, k: nat)
    requires D.Ascending(es, -1) && k < |es|
    ensures D.Ascending(es[k..], if k == 0 then -1 else es[k - 1].index)
    ensures D.Ascending(es[k + 1..], es[k].index)
    ensures D.EntriesBits(es[k..], if k == 0 then -1 else es[k - 1].index) ==
            D.EntryBits(es[k], if k == 0 then -1 else es[k - 1].index) + D.EntriesBits(es[k + 1..], es[k].index)
  {
    hide D.EntryBits;
    assert es[k..][1..] == es[k + 1..];
  }

  /** Writes the entries in order. */
  method WriteEntries(w: BitWriter, packed: seq<Packed>)
    requires w.Valid() && AllOk(packed) && D.Ascending(Meanings(packed), -1)
    modifies w
    ensures w.Valid() && w.Written() == old(w.Written()) + D.EntriesBits(Meanings(packed), -1)
  {
    hide BytesBits, BitsOf, VaruintBits, D.EntryBits, PackedOk;
    ghost var es := Meanings(packed);
    ghost var goal := w.Written() + D.EntriesBits(es, -1);
    assert es[0..] == es;
    var prev: Option<Half> := None;
    var k := 0;
    while k < |packed|
      invariant 0 <= k <= |packed| && w.Valid()
      invariant prev == if k == 0 then None else Some(packed[k - 1].index)
      invariant D.Ascending(es[k..], if k == 0 then -1 else es[k - 1].index)
      invariant w.Written() + D.EntriesBits(es[k..], if k == 0 then -1 else es[k - 1].index) == goal
    {
      EntriesBitsFrom(es, k);
      ghost var before, bits, rest := w.Written(), D.EntryBits(es[k], if k == 0 then -1 else es[k - 1].index),
        D.EntriesBits(es[k + 1..], es[k].index);
      WriteEntry(w, packed[k], prev);
      assert before + bits + rest == before + (bits + rest);
      prev := Some(packed[k].index);
      k := k + 1;
    }
    assert w.Written() + [] == w.Written();
  }

  /** Encodes the world as a delta against the baseline, or in full. */
  method EncodeDelta(world: W.World, base: Option<State>) returns (r: Result<Sent, WireError>)
    requires world.Consistent() && D.BaseValid(world.reg, base) && D.SlotMax(world.View(), base) < U32
    ensures match D.EncodeDelta(world.reg, world.View(), base)
            case Err(e) => r == Err(e)
            case Ok(enc) =>
              && r.Ok? && enc.bits <= BytesBits(r.value.bytes)
              && r.value.asSent == enc.asSent && r.value.count == enc.count
  {
    hide BytesBits, BitsOf, VaruintBits, StateValid, D.RegistryValid, D.Entries, D.EntriesBits, D.AsSent, Meaning, PackedOk;
    var reg, cur := world.reg, world.View();
    var packed, asSent := EncodeSlots(reg, cur, base);
    if packed.Err? {
      return Err(packed.error);
    }
    ghost var es := Meanings(packed.value);
    D.EntriesAscend(reg, cur, base, 0, D.SlotMax(cur, base), -1);
    FewEntries(es);
    var w := new BitWriter();
    w.WriteBits(cur.tick, 32);
    var baseTick := match base case None => U32 - 1 case Some(b) => b.tick;
    w.WriteBits(baseTick, 32);
    w.WriteVaruint(|packed.value|);
    assert w.Written() == BitsOf(cur.tick, 32) + BitsOf(baseTick, 32) + VaruintBits(|es|);
    WriteEntries(w, packed.value);
    var bytes := w.Finish();
    r := Ok(Sent(bytes, asSent, |packed.value|));
  }

  /** Distinct 32-bit indices: fewer entries than 2^32. */
  lemma FewEntries(es: seq<D.Entry>)
    requires D.Ascending(es, -1)
    ensures |es| <= U32
  {
    if es != [] {
      IndexAtLeast(es, |es| - 1);
    }
  }

  lemma {:induction false} IndexAtLeast(es: seq<D.Entry>, k: nat)
    requires D.Ascending(es, -1) && k < |es|
    ensures es[k].index >= k
  {
    if k > 0 {
      IndexAtLeast(es, k - 1);
    }
  }
}
