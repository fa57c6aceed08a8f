/** The codec round trip: what a receiver reads back from what was written, at any bit
    offset and whatever follows. */
module Codec {
  import opened Common
  import opened Fixed
  import opened Bits
  import opened Schema
  import opened Quantization
  import opened Quaternions
  import opened Values

  /** What decoding a value's encoding yields. It is the declared loss, except that a
      fixed-width integer also loses the bits above its width. */
  function Received(d: FieldDesc, v: Value): (r: Value)
    requires ParametersValid(d)
    ensures TypeOf(r) == TypeOf(v)
  {
    match v
    case VUint(u) => if d.bits.Some? then (ModShrinks(u, Pow2(d.bits.value)); VUint(u % Pow2(d.bits.value))) else v
    case VInt(i) => if d.bits.Some? then VInt(SignExtend(ToUnsigned(i), d.bits.value)) else v
    case _ => LossyRoundTrip(d, v)
  }

  /** The integer is representable in the declared width. */
  predicate FitsWidth(d: FieldDesc, v: Value) {
    d.bits.Some? ==>
      match v
      case VUint(u) => u < Pow2(d.bits.value)
      case VInt(i) => d.bits.value >= 1 && 0 <= i + Pow2(d.bits.value - 1) && i < Pow2(d.bits.value - 1)
      case _ => true
  }

  /** A quantized rotation whose omitted component is still the first of largest magnitude
      once decoded. */
  predicate RotationSettles(d: FieldDesc, v: Value)
    requires ParametersValid(d)
  {
    v.VQuat? && d.quantizeBits.Some? ==>
      var k := d.quantizeBits.value;
      var e := CompressQuat(v.q, k);
      LargestOf(Components(DecompressQuat(e, k)), 4) == e.largest
  }

  lemma FxRoundTrip(d: FieldDesc, x: Fx, rest: Stream)
    requires RangeDeclared(d)
    ensures DecodeFx(d, EncodeFx(d, x) + rest) == Ok((LossyFx(d, x), rest))
  {
    if d.quantize.Some? {
      var min, max, step := d.min.value, d.max.value, d.quantize.value;
      var q := Quantize(x, min, max, step);
      QuantizedFits(x, min, max, step);
      ReadWritten(q, QuantizedBits(min, max, step), rest);
      SmallMod(q, Pow2(QuantizedBits(min, max, step)));
    } else {
      RawRoundTrip(x, rest);
    }
  }

  lemma SmallMod(v: nat, m: nat)
    requires v < m
    ensures v % m == v
  {
  }

  lemma FittingReadBack(v: nat, n: nat, rest: Stream)
    requires v < Pow2(n)
    ensures ReadBits(BitsOf(v, n) + rest, n) == Ok((v, rest))
  {
    hide Pow2, BitsOf, ReadBits;
    ReadWritten(v, n, rest);
    SmallMod(v, Pow2(n));
  }

  lemma RawRoundTrip(x: Fx, rest: Stream)
    ensures DecodeRaw(BitsOf(ToUnsigned(x), 64) + rest) == Ok((x, rest))
  {
    Pow2Values();
    FittingReadBack(ToUnsigned(x), 64, rest);
    hide BitsOf, ReadBits, Pow2;
  }

  /** The lossy value is a fixed point of the loss. */
  lemma LossyFxIdempotent(d: FieldDesc, x: Fx)
    requires RangeDeclared(d)
    ensures LossyFx(d, LossyFx(d, x)) == LossyFx(d, x)
  {
    if d.quantize.Some? {
      QuantizeIdempotent(Quantize(x, d.min.value, d.max.value, d.quantize.value), d.min.value, d.max.value, d.quantize.value);
    }
  }

  lemma VecRoundTrip(d: FieldDesc, v: Value, rest: Stream)
    requires ParametersValid(d) && TypeOf(v) == d.ty && (v.VVec2? || v.VVec3?)
    ensures DecodeVec(d, EncodeFixed(d, v).value + rest) == Ok((LossyRoundTrip(d, v), rest))
  {
    hide EncodeFx, DecodeFx, LossyFx;
    match v
    case VVec2(x, y) =>
      assert EncodeFx(d, x) + EncodeFx(d, y) + rest == EncodeFx(d, x) + (EncodeFx(d, y) + rest);
      FxRoundTrip(d, x, EncodeFx(d, y) + rest);
      FxRoundTrip(d, y, rest);
    case VVec3(x, y, z) =>
      var tail := EncodeFx(d, z) + rest;
      assert EncodeFx(d, x) + EncodeFx(d, y) + EncodeFx(d, z) + rest == EncodeFx(d, x) + (EncodeFx(d, y) + tail);
      FxRoundTrip(d, x, EncodeFx(d, y) + tail);
      FxRoundTrip(d, y, tail);
      FxRoundTrip(d, z, rest);
  }

  /** Four reads in a row are what decoding a compressed rotation takes. */
  lemma DecodesCompressed(d: FieldDesc, e: SmallestThree, s0: Stream, s1: Stream, s2: Stream, s3: Stream, s4: Stream)
    requires ParametersValid(d) && d.quantizeBits.Some?
    requires var k := d.quantizeBits.value;
             && ReadBits(s0, 2) == Ok((e.largest, s1)) && ReadBits(s1, k) == Ok((e.a, s2))
             && ReadBits(s2, k) == Ok((e.b, s3)) && ReadBits(s3, k) == Ok((e.c, s4))
    ensures DecodeQuat(d, s0) == Ok((VQuat(DecompressQuat(e, d.quantizeBits.value)), s4))
  {
    hide ReadBits, DecompressQuat;
  }

  lemma EncodesCompressed(d: FieldDesc, q: Quat, rest: Stream)
    requires ParametersValid(d) && d.quantizeBits.Some?
    ensures var k := d.quantizeBits.value;
            var s := CompressQuat(q, k);
            EncodeQuat(d, q) + rest ==
            BitsOf(s.largest, 2) + (BitsOf(s.a, k) + (BitsOf(s.b, k) + (BitsOf(s.c, k) + rest)))
  {
    hide BitsOf, CompressQuat;
    var k := d.quantizeBits.value;
    var s := CompressQuat(q, k);
    Regroup(BitsOf(s.largest, 2), BitsOf(s.a, k), BitsOf(s.b, k), BitsOf(s.c, k), rest);
  }

  lemma CompressedReadBack(d: FieldDesc, e: SmallestThree, rest: Stream)
    requires ParametersValid(d) && d.quantizeBits.Some?
    requires var k := d.quantizeBits.value;
             e.largest < Pow2(2) && e.a < Pow2(k) && e.b < Pow2(k) && e.c < Pow2(k)
    ensures var k := d.quantizeBits.value;
            DecodeQuat(d, BitsOf(e.largest, 2) + (BitsOf(e.a, k) + (BitsOf(e.b, k) + (BitsOf(e.c, k) + rest)))) ==
            Ok((VQuat(DecompressQuat(e, k)), rest))
  {
    hide BitsOf, ReadBits, DecompressQuat, Pow2, DecodeQuat;
    var k := d.quantizeBits.value;
    var s3 := BitsOf(e.c, k) + rest;
    var s2 := BitsOf(e.b, k) + s3;
    var s1 := BitsOf(e.a, k) + s2;
    FittingReadBack(e.largest, 2, s1);
    FittingReadBack(e.a, k, s2);
    FittingReadBack(e.b, k, s3);
    FittingReadBack(e.c, k, rest);
    DecodesCompressed(d, e, BitsOf(e.largest, 2) + s1, s1, s2, s3, rest);
  }

  lemma CompressedRoundTrip(d: FieldDesc, q: Quat, rest: Stream)
    requires ParametersValid(d) && d.quantizeBits.Some?
    ensures DecodeQuat(d, EncodeQuat(d, q) + rest) == Ok((LossyRoundTrip(d, VQuat(q)), rest))
  {
    hide BitsOf, CompressQuat, DecompressQuat, DecodeQuat, EncodeQuat, Pow2;
    EncodesCompressed(d, q, rest);
    CompressedFits(q, d.quantizeBits.value);
    CompressedReadBack(d, CompressQuat(q, d.quantizeBits.value), rest);
  }

  lemma Regroup(a: Stream, b: Stream, c: Stream, d: Stream, rest: Stream)
    ensures a + b + c + d + rest == a + (b + (c + (d + rest)))
  {
  }

  lemma QuatRoundTrip(d: FieldDesc, q: Quat, rest: Stream)
    requires ParametersValid(d)
    ensures DecodeQuat(d, EncodeQuat(d, q) + rest) == Ok((LossyRoundTrip(d, VQuat(q)), rest))
  {
    if d.quantizeBits.Some? {
      CompressedRoundTrip(d, q, rest);
    } else {
      hide BitsOf, DecodeRaw, ToUnsigned, CompressQuat, DecompressQuat;
      var s3 := BitsOf(ToUnsigned(q.w), 64) + rest;
      var s2 := BitsOf(ToUnsigned(q.z), 64) + s3;
      var s1 := BitsOf(ToUnsigned(q.y), 64) + s2;
      Regroup(BitsOf(ToUnsigned(q.x), 64), BitsOf(ToUnsigned(q.y), 64), BitsOf(ToUnsigned(q.z), 64),
              BitsOf(ToUnsigned(q.w), 64), rest);
      RawRoundTrip(q.x, s1);
      RawRoundTrip(q.y, s2);
      RawRoundTrip(q.z, s3);
      RawRoundTrip(q.w, rest);
    }
  }

  lemma CompressedFits(q: Quat, k: nat)
    ensures var s := CompressQuat(q, k);
            s.largest < Pow2(2) && s.a < Pow2(k) && s.b < Pow2(k) && s.c < Pow2(k)
  {
    assert Pow2(2) == 4;
  }

  lemma WordRoundTrip(u: Word, bits: Option<nat>, rest: Stream)
    requires bits.Some? ==> bits.value <= 64
    ensures DecodeWord((if bits.Some? then BitsOf(u, bits.value) else VaruintBits(u)) + rest, bits)
            == Ok((if bits.Some? then u % Pow2(bits.value) else u, rest))
  {
    match bits
    case Some(n) => ReadWritten(u, n, rest);
    case None => VaruintRoundTrip(u, rest);
  }

  lemma EnumRoundTrip(e: Half, variants: nat, rest: Stream)
    requires e < variants < U32
    ensures DecodeEnum(BitsOf(e, EnumBits(variants)) + rest, variants) == Ok((VEnum(e), rest))
  {
    ReadWritten(e, EnumBits(variants), rest);
    if variants <= 1 {
      assert e == 0 && Pow2(0) == 1;
    } else {
      SmallMod(e, Pow2(BitWidth(variants - 1)));
    }
  }

  lemma SignExtendLow(u: Word, bits: nat)
    requires 1 <= bits <= 64
    ensures u % Pow2(bits) < U64
    ensures SignExtend(u % Pow2(bits), bits) == SignExtend(u, bits)
  {
    Pow2Values();
    Pow2Mono(bits, 64);
    if bits < 64 {
      SignRange(u, bits);
      SmallMod(u % Pow2(bits), Pow2(bits));
    } else {
      SmallMod(u, Pow2(64));
    }
  }

  /** Decoding a fixed-size value yields exactly what the receiver is said to hold, and leaves
      exactly what followed. */
  lemma FixedRoundTrip(d: FieldDesc, v: Value, rest: Stream)
    requires ParametersValid(d) && Storable(d.ty)
    requires EncodeFixed(d, v).Ok?
    ensures DecodeFixed(d, EncodeFixed(d, v).value + rest) == Ok((Received(d, v), rest))
  {
    hide EncodeFx, DecodeFx, EncodeQuat, DecodeQuat, DecodeVec, LossyFx, VaruintBits, BitsOf, DecodeWord, DecodeEnum, SignExtend;
    match v
    case VBool(b) =>
      ReadWritten(if b then 1 else 0, 1, rest);
      assert Pow2(1) == 2;
    case VUint(u) => WordRoundTrip(u, d.bits, rest);
    case VInt(i) =>
      if d.bits.Some? {
        WordRoundTrip(ToUnsigned(i), d.bits, rest);
        SignExtendLow(ToUnsigned(i), d.bits.value);
      } else {
        WordRoundTrip(ZigzagEncode(i), d.bits, rest);
      }
    case VFx(x) => FxRoundTrip(d, x, rest);
    case VVec2(_, _) => VecRoundTrip(d, v, rest);
    case VVec3(_, _, _) => VecRoundTrip(d, v, rest);
    case VQuat(q) => QuatRoundTrip(d, q, rest);
    case VEnum(e) => EnumRoundTrip(e, d.variants.value, rest);
  }

  lemma UnsignedFits(u: nat, m: nat)
    requires m > 0
    ensures u % m == u <==> u < m
  {
  }

  lemma SignedFits(i: I64, bits: nat)
    requires 1 <= bits <= 64
    ensures SignExtend(ToUnsigned(i), bits) == i <==> 0 <= i + Pow2(bits - 1) && i < Pow2(bits - 1)
  {
    Pow2Values();
    assert Pow2(64) == 2 * Pow2(63);
    if bits < 64 {
      var p := Pow2(bits - 1);
      var u := ToUnsigned(i);
      SignRange(u, bits);
      assert u % (2 * p) == i % (2 * p) by {
        if i < 0 {
          Pow2Add(bits, 64 - bits);
          ShiftMod(i, 2 * p, Pow2(64 - bits));
        }
      }
      if -p <= i < 0 {
        DivModUnique(i, 2 * p, -1, i + 2 * p);
      } else if 0 <= i < p {
        DivModUnique(i, 2 * p, 0, i);
      }
    }
  }

  lemma ShiftMod(i: int, m: nat, k: nat)
    requires m > 0
    ensures (i + m * k) % m == i % m
  {
    assert i == m * (i / m) + i % m;
    assert i + m * k == m * (i / m + k) + i % m;
    DivModUnique(i + m * k, m, i / m + k, i % m);
  }

  /** The receiver holds the declared loss of a value exactly when the value fits the
      field's declared width. */
  lemma ReceivedIsLossyIffFits(d: FieldDesc, v: Value)
    requires ParametersValid(d)
    ensures Received(d, v) == LossyRoundTrip(d, v) <==> FitsWidth(d, v)
  {
    if d.bits.Some? {
      match v
      case VUint(u) => UnsignedFits(u, Pow2(d.bits.value));
      case VInt(i) => SignedFits(i, d.bits.value);
      case _ =>
    }
  }

  /** Encoding what the receiver holds changes nothing more: for integers exactly when they
      fit their width, for rotations when the omitted component stays the largest. */
  lemma SentIsReceived(d: FieldDesc, v: Value)
    requires ParametersValid(d) && RotationSettles(d, v)
    ensures Received(d, LossyRoundTrip(d, v)) == LossyRoundTrip(d, v) <==> FitsWidth(d, v)
  {
    ReceivedIsLossyIffFits(d, LossyRoundTrip(d, v));
    hide LossyFx, SignExtend, CompressQuat, DecompressQuat, Pow2;
    match v
    case VFx(x) => LossyFxIdempotent(d, x);
    case VVec2(x, y) => LossyFxIdempotent(d, x); LossyFxIdempotent(d, y);
    case VVec3(x, y, z) => LossyFxIdempotent(d, x); LossyFxIdempotent(d, y); LossyFxIdempotent(d, z);
    case VQuat(q) =>
      if d.quantizeBits.Some? {
        var k := d.quantizeBits.value;
        CompressedFits(q, k);
        RecompressionFixed(CompressQuat(q, k), k);
      }
    case _ =>
  }

  // ---------------------------------------------------------------------------
  // Any field, at any bit offset

  lemma BytesRoundTrip(p: nat, d: FieldDesc, b: Blob, rest: Stream)
    requires EncodeBytes(p, d, b).Ok?
    ensures DecodeBytes(p, d, EncodeBytes(p, d, b).value + rest) == Ok((b, rest))
  {
    hide VaruintBits, BytesBits, Padding, ReadBytes, ReadVaruint;
    var prefix := VaruintBits(|b|);
    var s1 := Padding(p + |prefix|) + BytesBits(b) + rest;
    assert EncodeBytes(p, d, b).value + rest == prefix + s1;
    VaruintRoundTrip(|b|, s1);
    BytesReadBack(p + |prefix|, b, rest);
  }

  /** Decoding what was encoded, at whatever bit both start, yields exactly what the receiver is
      said to hold, and leaves exactly what followed. */
  lemma FieldRoundTrip(p: nat, d: FieldDesc, v: Value, rest: Stream)
    requires ParametersValid(d) && EncodeField(p, d, v).Ok?
    ensures DecodeField(p, d, EncodeField(p, d, v).value + rest) == Ok((Received(d, v), rest))
  {
    hide EncodeFixed, DecodeFixed, EncodeBytes, DecodeBytes;
    match v
    case VStr(b) => BytesRoundTrip(p, d, b, rest);
    case VBytes(b) => BytesRoundTrip(p, d, b, rest);
    case _ => FixedRoundTrip(d, v, rest);
  }

  // ---------------------------------------------------------------------------
  // Lists of fields

  /** The fields one after another, the first `p` bits into the buffer. */
  function EncodeAll(p: nat, ds: seq<FieldDesc>, vs: seq<Value>): Result<Stream, WireError>
    requires |ds| == |vs| && forall i :: 0 <= i < |ds| ==> ParametersValid(ds[i])
    decreases |ds|
  {
    if |ds| == 0 then Ok([])
    else
      match EncodeField(p, ds[0], vs[0])
      case Err(e) => Err(e)
      case Ok(first) =>
        match EncodeAll(p + |first|, ds[1..], vs[1..])
        case Err(e) => Err(e)
        case Ok(others) => Ok(first + others)
  }

  /** Each field is read where the one before it left off. */
  function DecodeAll(p: int, ds: seq<FieldDesc>, s: Stream): (r: Parsed<seq<Value>>)
    requires forall i :: 0 <= i < |ds| ==> ParametersValid(ds[i])
    decreases |ds|
  {
    if |ds| == 0 then Ok(([], s))
    else
      match DecodeField(p, ds[0], s)
      case Err(e) => Err(e)
      case Ok((v, s1)) =>
        match DecodeAll(p + |s| - |s1|, ds[1..], s1)
        case Err(e) => Err(e)
        case Ok((vs, s2)) => Ok(([v] + vs, s2))
  }

  /** Any list of fields that fit their widths, written one after another from any bit on, is
      read back as the declared loss of each, consuming exactly the bits written. */
  lemma {:induction false} ListRoundTrip(p: nat, ds: seq<FieldDesc>, vs: seq<Value>, rest: Stream)
    requires |ds| == |vs|
    requires forall i :: 0 <= i < |ds| ==> ParametersValid(ds[i]) && FitsWidth(ds[i], vs[i])
    requires EncodeAll(p, ds, vs).Ok?
    ensures DecodeAll(p, ds, EncodeAll(p, ds, vs).value + rest)
            == Ok((seq(|vs|, i requires 0 <= i < |vs| => LossyRoundTrip(ds[i], vs[i])), rest))
    decreases |ds|
  {
    hide EncodeField, DecodeField, LossyRoundTrip, Received, FitsWidth;
    var held := seq(|vs|, i requires 0 <= i < |vs| => LossyRoundTrip(ds[i], vs[i]));
    if |ds| == 0 {
      assert EncodeAll(p, ds, vs).value + rest == rest;
    } else {
      var first := EncodeField(p, ds[0], vs[0]).value;
      var next := p + |first|;
      var others := EncodeAll(next, ds[1..], vs[1..]).value;
      assert first + others + rest == first + (others + rest);
      FieldRoundTrip(p, ds[0], vs[0], others + rest);
      ReceivedIsLossyIffFits(ds[0], vs[0]);
      ListRoundTrip(next, ds[1..], vs[1..], rest);
      assert held == [held[0]] + held[1..];
      assert held[1..] == seq(|vs[1..]|, i requires 0 <= i < |vs[1..]| => LossyRoundTrip(ds[1..][i], vs[1..][i]));
    }
  }
}
