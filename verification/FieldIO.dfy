/** `encode_field` and `decode_field` driving a writer and a reader. */
module FieldIO {
  import opened Common
  import opened Fixed
  import opened Bits
  import opened BitBuffers
  import opened Schema
  import opened Quantization
  import opened Quaternions
  import opened Values

  method WriteFx(w: BitWriter, d: FieldDesc, x: Fx)
    requires w.Valid() && RangeDeclared(d)
    modifies w
    ensures w.Valid() && w.Written() == old(w.Written()) + EncodeFx(d, x)
  {
    if d.quantize.Some? {
      w.WriteBits(Quantize(x, d.min.value, d.max.value, d.quantize.value),
                  QuantizedBits(d.min.value, d.max.value, d.quantize.value));
    } else {
      w.WriteBits(ToUnsigned(x), 64);
    }
  }

  method WriteQuat(w: BitWriter, d: FieldDesc, q: Quat)
    requires w.Valid() && ParametersValid(d)
    modifies w
    ensures w.Valid() && w.Written() == old(w.Written()) + EncodeQuat(d, q)
  {
    hide BitsOf, BytesBits, CompressQuat;
    ghost var start := w.Written();
    if d.quantizeBits.Some? {
      var k := d.quantizeBits.value;
      var s := CompressQuatLoop(q, k);
      w.WriteBits(s.largest, 2);
      w.WriteBits(s.a, k);
      w.WriteBits(s.b, k);
      w.WriteBits(s.c, k);
      Chain4(start, BitsOf(s.largest, 2), BitsOf(s.a, k), BitsOf(s.b, k), BitsOf(s.c, k));
    } else {
      w.WriteBits(ToUnsigned(q.x), 64);
      w.WriteBits(ToUnsigned(q.y), 64);
      w.WriteBits(ToUnsigned(q.z), 64);
      w.WriteBits(ToUnsigned(q.w), 64);
      Chain4(start, BitsOf(ToUnsigned(q.x), 64), BitsOf(ToUnsigned(q.y), 64), BitsOf(ToUnsigned(q.z), 64), BitsOf(ToUnsigned(q.w), 64));
    }
  }

  lemma Chain4(s: Stream, a: Stream, b: Stream, c: Stream, d: Stream)
    ensures s + a + b + c + d == s + (a + b + c + d)
  {
  }

  lemma Chain3(s: Stream, a: Stream, b: Stream, c: Stream)
    ensures s + a + b == s + (a + b)
    ensures s + a + b + c == s + (a + b + c)
  {
  }

  /** Writes a length prefix and the bytes, which start on a byte boundary. */
  method WriteLengthAndBytes(w: BitWriter, d: FieldDesc, b: Blob) returns (r: Result<(), WireError>)
    requires w.Valid()
    modifies w
    ensures w.Valid()
    ensures match EncodeBytes(|old(w.Written())|, d, b)
            case Ok(s) => r == Ok(()) && w.Written() == old(w.Written()) + s
            case Err(e) => r == Err(e) && w.Written() == old(w.Written())
  {
    hide BitsOf, BytesBits, VaruintBits, Padding;
    if d.maxLen.Some? && |b| > d.maxLen.value {
      return Err(ValueOutOfRange);
    }
    ghost var start := w.Written();
    w.WriteVaruint(|b|);
    ghost var p := |w.Written()|;
    w.WriteBytes(b);
    Chain3(start, VaruintBits(|b|), Padding(p), BytesBits(b));
    r := Ok(());
  }

  /** Writes one value where the writer stands, or says why it cannot be written. */
  method WriteField(w: BitWriter, d: FieldDesc, v: Value) returns (r: Result<(), WireError>)
    requires w.Valid() && ParametersValid(d)
    modifies w
    ensures w.Valid()
    ensures match EncodeField(|old(w.Written())|, d, v)
            case Ok(s) => r == Ok(()) && w.Written() == old(w.Written()) + s
            case Err(e) => r == Err(e)
  {
    hide BytesBits, EncodeFixed, EncodeBytes;
    if TypeOf(v) != d.ty {
      return Err(TypeMismatch);
    }
    match v {
      case VStr(b) => r := WriteLengthAndBytes(w, d, b);
      case VBytes(b) => r := WriteLengthAndBytes(w, d, b);
      case _ => r := WriteFixed(w, d, v);
    }
  }

  method WriteFixed(w: BitWriter, d: FieldDesc, v: Value) returns (r: Result<(), WireError>)
    requires w.Valid() && ParametersValid(d) && Storable(d.ty)
    modifies w
    ensures w.Valid()
    ensures match EncodeFixed(d, v)
            case Ok(s) => r == Ok(()) && w.Written() == old(w.Written()) + s
            case Err(e) => r == Err(e)
  {
    hide BitsOf, BytesBits, EncodeFx, EncodeQuat, VaruintBits;
    if TypeOf(v) != d.ty {
      return Err(TypeMismatch);
    }
    ghost var start := w.Written();
    match v {
      case VBool(b) =>
        w.WriteBits(if b then 1 else 0, 1);
      case VUint(u) =>
        if d.bits.Some? { w.WriteBits(u, d.bits.value); } else { w.WriteVaruint(u); }
      case VInt(i) =>
        if d.bits.Some? { w.WriteBits(ToUnsigned(i), d.bits.value); } else { w.WriteVaruint(ZigzagEncode(i)); }
      case VFx(x) =>
        WriteFx(w, d, x);
      case VVec2(x, y) =>
        WriteFx(w, d, x);
        WriteFx(w, d, y);
        Chain3(start, EncodeFx(d, x), EncodeFx(d, y), []);
      case VVec3(x, y, z) =>
        WriteFx(w, d, x);
        WriteFx(w, d, y);
        WriteFx(w, d, z);
        Chain3(start, EncodeFx(d, x), EncodeFx(d, y), EncodeFx(d, z));
      case VQuat(q) =>
        WriteQuat(w, d, q);
      case VEnum(e) =>
        if d.variants.None? {
          return Err(InvalidSchema);
        }
        if e >= d.variants.value {
          return Err(ValueOutOfRange);
        }
        EnumBitsSmall(d.variants.value);
        w.WriteBits(e, EnumBits(d.variants.value));
    }
    r := Ok(());
  }

  lemma EnumBitsSmall(variants: nat)
    requires variants < U32
    ensures EnumBits(variants) <= 32
  {
    if variants > 1 {
      Pow2Values();
      BitWidthBound(variants - 1, 32);
    }
  }

  method ReadRaw(r: BitReader) returns (x: Result<Fx, WireError>)
    requires r.Valid()
    modifies r
    ensures r.Valid()
    ensures match DecodeRaw(old(r.Rest()))
            case Ok((v, rest)) => x == Ok(v) && r.Rest() == rest
            case Err(e) => x == Err(e)
  {
    ghost var start := r.Rest();
    var u := r.ReadBits(64);
    match u {
      case Err(e) => x := Err(e);
      case Ok(v) =>
        Pow2Values();
        ValueBound(start[..64]);
        x := Ok(ToSigned(v));
    }
  }

  method ReadFxField(r: BitReader, d: FieldDesc) returns (x: Result<Fx, WireError>)
    requires r.Valid() && RangeDeclared(d)
    modifies r
    ensures r.Valid()
    ensures match DecodeFx(d, old(r.Rest()))
            case Ok((v, rest)) => x == Ok(v) && r.Rest() == rest
            case Err(e) => x == Err(e)
  {
    if d.quantize.Some? {
      var q := r.ReadBits(QuantizedBits(d.min.value, d.max.value, d.quantize.value));
      match q {
        case Err(e) => x := Err(e);
        case Ok(i) => x := Ok(Dequantize(i, d.min.value, d.quantize.value));
      }
    } else {
      x := ReadRaw(r);
    }
  }

  method ReadWord(r: BitReader, bits: Option<nat>) returns (x: Result<Word, WireError>)
    requires r.Valid() && (bits.Some? ==> bits.value <= 64)
    modifies r
    ensures r.Valid()
    ensures match DecodeWord(old(r.Rest()), bits)
            case Ok((v, rest)) => x == Ok(v) && r.Rest() == rest
            case Err(e) => x == Err(e)
  {
    ghost var start := r.Rest();
    match bits {
      case Some(n) =>
        var u := r.ReadBits(n);
        match u {
          case Err(e) => x := Err(e);
          case Ok(v) =>
            Pow2Values();
            Pow2Mono(n, 64);
            ValueBound(start[..n]);
            x := Ok(v);
        }
      case None =>
        var u := r.ReadVaruint();
        match u {
          case Err(e) => x := Err(e);
          case Ok(v) =>
            VaruintFits(start, 0, 0);
            x := Ok(v);
        }
    }
  }

  method ReadQuat(r: BitReader, d: FieldDesc) returns (x: Result<Value, WireError>)
    requires r.Valid() && ParametersValid(d)
    modifies r
    ensures r.Valid()
    ensures match DecodeQuat(d, old(r.Rest()))
            case Ok((v, rest)) => x == Ok(v) && r.Rest() == rest
            case Err(e) => x == Err(e)
  {
    hide ReadBits, DecodeRaw, DecompressQuat, BytesBits;
    if d.quantizeBits.Some? {
      var k := d.quantizeBits.value;
      var largest := r.ReadBits(2);
      if largest.Err? { return Err(largest.error); }
      var a := r.ReadBits(k);
      if a.Err? { return Err(a.error); }
      var b := r.ReadBits(k);
      if b.Err? { return Err(b.error); }
      var c := r.ReadBits(k);
      if c.Err? { return Err(c.error); }
      x := Ok(VQuat(DecompressQuat(SmallestThree(largest.value, a.value, b.value, c.value), k)));
    } else {
      var a := ReadRaw(r);
      if a.Err? { return Err(a.error); }
      var b := ReadRaw(r);
      if b.Err? { return Err(b.error); }
      var c := ReadRaw(r);
      if c.Err? { return Err(c.error); }
      var e := ReadRaw(r);
      if e.Err? { return Err(e.error); }
      x := Ok(VQuat(Quat(a.value, b.value, c.value, e.value)));
    }
  }

  method ReadVec(r: BitReader, d: FieldDesc) returns (x: Result<Value, WireError>)
    requires r.Valid() && ParametersValid(d) && (d.ty.TVec2? || d.ty.TVec3?)
    modifies r
    ensures r.Valid()
    ensures match DecodeVec(d, old(r.Rest()))
            case Ok((v, rest)) => x == Ok(v) && r.Rest() == rest
            case Err(e) => x == Err(e)
  {
    hide DecodeFx, BytesBits;
    var a := ReadFxField(r, d);
    if a.Err? { return Err(a.error); }
    var b := ReadFxField(r, d);
    if b.Err? { return Err(b.error); }
    if d.ty.TVec2? {
      return Ok(VVec2(a.value, b.value));
    }
    var c := ReadFxField(r, d);
    if c.Err? { return Err(c.error); }
    x := Ok(VVec3(a.value, b.value, c.value));
  }

  /** Reads a length prefix, checks it before anything else, and reads that many bytes from
      the next byte boundary. */
  method ReadLengthAndBytes(r: BitReader, d: FieldDesc) returns (x: Result<Blob, WireError>)
    requires r.Valid()
    modifies r
    ensures r.Valid()
    ensures match DecodeBytes(old(r.pos), d, old(r.Rest()))
            case Ok((v, rest)) => x == Ok(v) && r.Rest() == rest
            case Err(e) => x == Err(e)
  {
    hide BytesBits, Bits.ReadBytes, DecodeWord;
    ghost var start, p := r.Rest(), r.pos;
    var len := ReadWord(r, None);
    WordIsVaruint(start);
    if len.Err? { return Err(len.error); }
    if d.maxLen.Some? && len.value > d.maxLen.value {
      return Err(ValueOutOfRange);
    }
    if len.value > r.BitsRemaining() / 8 {
      return Err(UnexpectedEnd);
    }
    assert r.pos == p + |start| - |r.Rest()|;
    var bytes := r.ReadBytes(len.value);
    if bytes.Err? { return Err(bytes.error); }
    x := Ok(bytes.value);
  }

  lemma WordIsVaruint(s: Stream)
    ensures DecodeWord(s, None) == DecodeVaruint(s)
  {
  }

  /** Reads one value as its declaration says, from where the reader stands. */
  method ReadField(r: BitReader, d: FieldDesc) returns (x: Result<Value, WireError>)
    requires r.Valid() && ParametersValid(d)
    modifies r
    ensures r.Valid()
    ensures match DecodeField(old(r.pos), d, old(r.Rest()))
            case Ok((v, rest)) => x == Ok(v) && r.Rest() == rest
            case Err(e) => x == Err(e)
  {
    hide BytesBits, DecodeFixed, DecodeBytes, Utf8;
    match d.ty {
      case TStr =>
        var b := ReadLengthAndBytes(r, d);
        if b.Err? { return Err(b.error); }
        if !Utf8(b.value) {
          return Err(ValueOutOfRange);
        }
        x := Ok(VStr(b.value));
      case TBytes =>
        var b := ReadLengthAndBytes(r, d);
        if b.Err? { return Err(b.error); }
        x := Ok(VBytes(b.value));
      case _ =>
        x := ReadFixed(r, d);
    }
  }

  method ReadFixed(r: BitReader, d: FieldDesc) returns (x: Result<Value, WireError>)
    requires r.Valid() && ParametersValid(d) && Storable(d.ty)
    modifies r
    ensures r.Valid()
    ensures match DecodeFixed(d, old(r.Rest()))
            case Ok((v, rest)) => x == Ok(v) && r.Rest() == rest
            case Err(e) => x == Err(e)
  {
    hide BytesBits, DecodeFx, DecodeVec, DecodeQuat, DecodeWord, ReadBits, SignExtend, ZigzagDecode;
    match d.ty {
      case TBool =>
        var u := r.ReadBits(1);
        if u.Err? { return Err(u.error); }
        x := Ok(VBool(u.value != 0));
      case TUint =>
        var u := ReadWord(r, d.bits);
        if u.Err? { return Err(u.error); }
        x := Ok(VUint(u.value));
      case TInt =>
        var u := ReadWord(r, d.bits);
        if u.Err? { return Err(u.error); }
        x := Ok(VInt(if d.bits.Some? then SignExtend(u.value, d.bits.value) else ZigzagDecode(u.value)));
      case TFx =>
        var f := ReadFxField(r, d);
        if f.Err? { return Err(f.error); }
        x := Ok(VFx(f.value));
      case TVec2 =>
        x := ReadVec(r, d);
      case TVec3 =>
        x := ReadVec(r, d);
      case TQuat =>
        x := ReadQuat(r, d);
      case TEnum =>
        var variants := d.variants.value;
        EnumBitsSmall(variants);
        var u := r.ReadBits(EnumBits(variants));
        if u.Err? { return Err(u.error); }
        if u.value >= variants {
          return Err(ValueOutOfRange);
        }
        x := Ok(VEnum(u.value));
    }
  }
}
