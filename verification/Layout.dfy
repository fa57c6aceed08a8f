/** Component slots: fixed-size, little-endian, fields at computed offsets. */
module Layout {
  import opened Common
  import opened Fixed
  import opened Bits
  import opened Schema
  import opened Quaternions
  import opened Values
  import CT = CanonicalText
  import CS = CanonicalSchemas

  type Bytes = seq<Byte>

  /** `n` little-endian bytes of `v`. */
  function LeBytes(v: nat, n: nat): (b: Bytes)
    ensures |b| == n
  {
    if n == 0 then [] else [v % 256] + LeBytes(v / 256, n - 1)
  }

  function FromLe(b: Bytes): nat {
    if |b| == 0 then 0 else b[0] + 256 * FromLe(b[1..])
  }

  function Pow256(n: nat): (p: nat)
    ensures p > 0
  {
    if n == 0 then 1 else 256 * Pow256(n - 1)
  }

  lemma Pow256Values()
    ensures Pow256(4) == U32 && Pow256(8) == U64
  {
    assert Pow256(5) == 256 * U32;
  }

  lemma {:induction false} FromLeBound(b: Bytes)
    ensures FromLe(b) < Pow256(|b|)
  {
    if |b| > 0 {
      FromLeBound(b[1..]);
    }
  }

  lemma {:induction false} LeRoundTrip(v: nat, n: nat)
    requires v < Pow256(n)
    ensures FromLe(LeBytes(v, n)) == v
  {
    if n > 0 {
      LeRoundTrip(v / 256, n - 1);
      assert LeBytes(v, n)[1..] == LeBytes(v / 256, n - 1);
    }
  }

  function Word64(b: Bytes): Word
    requires |b| == 8
  {
    FromLeBound(b);
    Pow256Values();
    FromLe(b)
  }

  function ReadFx(b: Bytes): Fx
    requires |b| == 8
  {
    ToSigned(Word64(b))
  }

  function WriteFx(x: Fx): (b: Bytes)
    ensures |b| == 8
  {
    LeBytes(ToUnsigned(x), 8)
  }

  lemma FxBytes(x: Fx)
    ensures ReadFx(WriteFx(x)) == x
  {
    Pow256Values();
    LeRoundTrip(ToUnsigned(x), 8);
  }

  function SlotSize(ty: FieldType): (n: nat)
    requires Storable(ty)
    ensures n >= 1
  {
    match ty
    case TBool => 1
    case TEnum => 4
    case TUint => 8
    case TInt => 8
    case TFx => 8
    case TVec2 => 16
    case TVec3 => 24
    case TQuat => 32
  }

  function ReadValue(ty: FieldType, b: Bytes): (v: Value)
    requires Storable(ty) && |b| == SlotSize(ty)
    ensures TypeOf(v) == ty
  {
    match ty
    case TBool => VBool(b[0] != 0)
    case TEnum => FromLeBound(b); Pow256Values(); VEnum(FromLe(b))
    case TUint => VUint(Word64(b))
    case TInt => VInt(ToSigned(Word64(b)))
    case TFx => VFx(ReadFx(b))
    case TVec2 => VVec2(ReadFx(b[0..8]), ReadFx(b[8..16]))
    case TVec3 => VVec3(ReadFx(b[0..8]), ReadFx(b[8..16]), ReadFx(b[16..24]))
    case TQuat => VQuat(Quat(ReadFx(b[0..8]), ReadFx(b[8..16]), ReadFx(b[16..24]), ReadFx(b[24..32])))
  }

  function WriteValue(v: Value): (b: Bytes)
    requires Storable(TypeOf(v))
    ensures |b| == SlotSize(TypeOf(v))
  {
    match v
    case VBool(x) => [if x then 1 else 0]
    case VEnum(e) => LeBytes(e, 4)
    case VUint(u) => LeBytes(u, 8)
    case VInt(i) => LeBytes(ToUnsigned(i), 8)
    case VFx(x) => WriteFx(x)
    case VVec2(x, y) => WriteFx(x) + WriteFx(y)
    case VVec3(x, y, z) => WriteFx(x) + WriteFx(y) + WriteFx(z)
    case VQuat(q) => WriteFx(q.x) + WriteFx(q.y) + WriteFx(q.z) + WriteFx(q.w)
  }

  lemma ValueBytes(v: Value)
    requires Storable(TypeOf(v))
    ensures ReadValue(TypeOf(v), WriteValue(v)) == v
  {
    hide LeBytes, FromLe, ReadFx, WriteFx, Pow256;
    Pow256Values();
    var b := WriteValue(v);
    match v
    case VBool(_) =>
    case VEnum(e) => LeRoundTrip(e, 4);
    case VUint(u) => LeRoundTrip(u, 8);
    case VInt(i) => LeRoundTrip(ToUnsigned(i), 8);
    case VFx(x) => FxBytes(x);
    case VVec2(x, y) =>
      assert b[0..8] == WriteFx(x) && b[8..16] == WriteFx(y);
      FxBytes(x); FxBytes(y);
    case VVec3(x, y, z) =>
      assert b[0..8] == WriteFx(x) && b[8..16] == WriteFx(y) && b[16..24] == WriteFx(z);
      FxBytes(x); FxBytes(y); FxBytes(z);
    case VQuat(q) =>
      assert b[0..8] == WriteFx(q.x) && b[8..16] == WriteFx(q.y) && b[16..24] == WriteFx(q.z) && b[24..32] == WriteFx(q.w);
      FxBytes(q.x); FxBytes(q.y); FxBytes(q.z); FxBytes(q.w);
  }

  // ---------------------------------------------------------------------------
  // Fields inside a slot

  datatype FieldLayout = FieldLayout(desc: FieldDesc, offset: nat, size: nat)

  datatype ComponentLayout = ComponentLayout(name: string, fields: seq<FieldLayout>, stride: nat)

  /** The fields tile the slot, each with the width of its type. */
  ghost predicate LayoutValid(l: ComponentLayout) {
    && (forall f :: 0 <= f < |l.fields| ==>
          && Storable(l.fields[f].desc.ty) && ParametersValid(l.fields[f].desc)
          && l.fields[f].size == SlotSize(l.fields[f].desc.ty)
          && l.fields[f].offset + l.fields[f].size <= l.stride)
    && (forall f, g :: 0 <= f < g < |l.fields| ==> l.fields[f].offset + l.fields[f].size <= l.fields[g].offset)
  }

  function Read(l: ComponentLayout, slot: Bytes, f: nat): (v: Value)
    requires LayoutValid(l) && |slot| == l.stride && f < |l.fields|
    ensures TypeOf(v) == l.fields[f].desc.ty
  {
    var x := l.fields[f];
    ReadValue(x.desc.ty, slot[x.offset..x.offset + x.size])
  }

  function Write(l: ComponentLayout, slot: Bytes, f: nat, v: Value): (r: Bytes)
    requires LayoutValid(l) && |slot| == l.stride && f < |l.fields| && TypeOf(v) == l.fields[f].desc.ty
    ensures |r| == l.stride
  {
    var x := l.fields[f];
    slot[..x.offset] + WriteValue(v) + slot[x.offset + x.size..]
  }

  /** A written field reads back, and no other field moves. */
  lemma WriteRead(l: ComponentLayout, slot: Bytes, f: nat, v: Value, g: nat)
    requires LayoutValid(l) && |slot| == l.stride && f < |l.fields| && g < |l.fields|
    requires TypeOf(v) == l.fields[f].desc.ty
    ensures Read(l, Write(l, slot, f, v), g) == if g == f then v else Read(l, slot, g)
  {
    hide WriteValue, ReadValue;
    var x, y := l.fields[f], l.fields[g];
    var after := Write(l, slot, f, v);
    if g == f {
      assert after[x.offset..x.offset + x.size] == WriteValue(v);
      ValueBytes(v);
    } else {
      SpliceElsewhere(slot, x.offset, WriteValue(v), y.offset, y.size);
    }
  }

  /** Overwriting a stretch of bytes leaves any disjoint stretch as it was. */
  lemma SpliceElsewhere(s: Bytes, a: nat, b: Bytes, o: nat, n: nat)
    requires a + |b| <= |s| && o + n <= |s|
    requires o + n <= a || a + |b| <= o
    ensures (s[..a] + b + s[a + |b|..])[o..o + n] == s[o..o + n]
  {
    var t := s[..a] + b + s[a + |b|..];
    assert forall k :: 0 <= k < |s| && (k < a || a + |b| <= k) ==> t[k] == s[k];
  }

  /** The fields fill the slot one after another, with no gap. */
  predicate Tiles(fields: seq<FieldLayout>, end: nat) {
    if fields == [] then end == 0
    else
      var last := fields[|fields| - 1];
      last.offset + last.size == end && Tiles(fields[..|fields| - 1], last.offset)
  }

  lemma TilesMore(fields: seq<FieldLayout>, end: nat, next: FieldLayout)
    requires Tiles(fields, end) && next.offset == end
    ensures Tiles(fields + [next], end + next.size)
  {
    assert (fields + [next])[..|fields|] == fields;
  }

  /** The fields sorted by name, which is also wire order. */
  function CanonicalFields(fields: seq<FieldDesc>): (r: seq<FieldDesc>)
    ensures |r| == |fields|
  {
    var sorted := CT.SortNamed(CT.FieldsByName(fields));
    seq(|sorted|, f requires 0 <= f < |sorted| => sorted[f].body)
  }

  lemma CanonicalMembers(fields: seq<FieldDesc>)
    ensures forall d :: d in CanonicalFields(fields) <==> d in fields
  {
    hide CT.SortNamed;
    var named := CT.FieldsByName(fields);
    var sorted := CT.SortNamed(named);
    forall d | d in fields
      ensures d in CanonicalFields(fields)
    {
      var i :| 0 <= i < |fields| && fields[i] == d;
      assert named[i] in named;
      CS.SortMember(named, named[i]);
      var f :| 0 <= f < |sorted| && sorted[f] == named[i];
      assert CanonicalFields(fields)[f] == d;
    }
    forall d | d in CanonicalFields(fields)
      ensures d in fields
    {
      var f :| 0 <= f < |sorted| && CanonicalFields(fields)[f] == d;
      assert sorted[f] in sorted;
      CS.SortMember(named, sorted[f]);
      var i :| 0 <= i < |named| && named[i] == sorted[f];
      assert fields[i] == d;
    }
  }

  /** The layout of a component that declares these fields: sorted by name, each as wide as its
      type, one after another. */
  ghost predicate LaysOut(l: ComponentLayout, fields: seq<FieldDesc>) {
    var canon := CanonicalFields(fields);
    && |l.fields| == |canon|
    && (forall f :: 0 <= f < |canon| ==>
          l.fields[f].desc == canon[f] && Storable(canon[f].ty) && l.fields[f].size == SlotSize(canon[f].ty))
    && Tiles(l.fields, l.stride)
  }

  /** `ComponentLayout::new`: a loop over the sorted fields that accumulates offsets, refusing
      variable-length types. */
  method NewLayout(name: string, fields: seq<FieldDesc>) returns (r: Option<ComponentLayout>)
    requires forall d :: d in fields ==> ParametersValid(d)
    ensures r.Some? <==> forall d :: d in fields ==> Storable(d.ty)
    ensures r.Some? ==> LayoutValid(r.value) && LaysOut(r.value, fields) && r.value.name == name
  {
    hide CT.SortNamed, CT.FieldsByName;
    var canon := CanonicalFields(fields);
    CanonicalMembers(fields);
    hide CanonicalFields;
    var out: seq<FieldLayout> := [];
    var offset := 0;
    assert Tiles(out, offset);
    hide Tiles;
    var i := 0;
    while i < |canon|
      invariant 0 <= i <= |canon| && |out| == i
      invariant forall f :: 0 <= f < i ==> Storable(canon[f].ty)
      invariant Tiles(out, offset)
      invariant forall f :: 0 <= f < i ==>
                  out[f].desc == canon[f] && out[f].size == SlotSize(canon[f].ty) && out[f].offset + out[f].size <= offset
      invariant forall f, g :: 0 <= f < g < i ==> out[f].offset + out[f].size <= out[g].offset
    {
      assert canon[i] in canon;
      if !Storable(canon[i].ty) {
        return None;
      }
      var size := SlotSize(canon[i].ty);
      TilesMore(out, offset, FieldLayout(canon[i], offset, size));
      out := out + [FieldLayout(canon[i], offset, size)];
      offset := offset + size;
      i := i + 1;
    }
    forall f | 0 <= f < |canon|
      ensures ParametersValid(canon[f])
    {
      assert canon[f] in canon;
    }
    r := Some(ComponentLayout(name, out, offset));
  }
}
