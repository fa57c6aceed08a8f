/** Encoding and decoding of single field values, and the loss each field declares. */
module Values {
  import opened Common
  import opened Fixed
  import opened Bits
  import opened Schema
  import opened Quantization
  import opened Quaternions

  type Word = u: nat | u < U64
  type Half = u: nat | u < U32

  /** Well-formed UTF-8: Table 3-7 of the Unicode Standard, chapter 3. */
  predicate Utf8(b: seq<Byte>) {
    if |b| == 0 then true
    else if b[0] < 0x80 then Utf8(b[1..])
    else if 0xC2 <= b[0] <= 0xDF then |b| >= 2 && Continues(b[1]) && Utf8(b[2..])
    else if 0xE0 <= b[0] <= 0xEF then
      && |b| >= 3 && Continues(b[1]) && Continues(b[2])
      && (b[0] == 0xE0 ==> b[1] >= 0xA0) && (b[0] == 0xED ==> b[1] < 0xA0)
      && Utf8(b[3..])
    else
      && 0xF0 <= b[0] <= 0xF4
      && |b| >= 4 && Continues(b[1]) && Continues(b[2]) && Continues(b[3])
      && (b[0] == 0xF0 ==> b[1] >= 0x90) && (b[0] == 0xF4 ==> b[1] < 0x90)
      && Utf8(b[4..])
  }

  predicate Continues(b: Byte) {
    0x80 <= b <= 0xBF
  }

  type Blob = b: seq<Byte> | |b| < U64
  type Text = b: seq<Byte> | |b| < U64 && Utf8(b)

  datatype Value =
    | VBool(b: bool)
    | VUint(u: Word)
    | VInt(i: I64)
    | VFx(f: Fx)
    | VVec2(x2: Fx, y2: Fx)
    | VVec3(x3: Fx, y3: Fx, z3: Fx)
    | VQuat(q: Quat)
    | VEnum(e: Half)
    | VStr(s: Text)
    | VBytes(bytes: Blob)

  function TypeOf(v: Value): FieldType {
    match v
    case VBool(_) => TBool
    case VUint(_) => TUint
    case VInt(_) => TInt
    case VFx(_) => TFx
    case VVec2(_, _) => TVec2
    case VVec3(_, _, _) => TVec3
    case VQuat(_) => TQuat
    case VEnum(_) => TEnum
    case VStr(_) => TStr
    case VBytes(_) => TBytes
  }

  /** Fixed-size types, the only ones the arena stores. */
  predicate Storable(ty: FieldType) {
    ty != TStr && ty != TBytes
  }

  function EnumBits(variants: nat): nat {
    if variants <= 1 then 0 else BitWidth(variants - 1)
  }

  // ---------------------------------------------------------------------------
  // What the receiver will hold

  function LossyFx(d: FieldDesc, x: Fx): Fx
    requires RangeDeclared(d)
  {
    if d.quantize.Some? then
      Dequantize(Quantize(x, d.min.value, d.max.value, d.quantize.value), d.min.value, d.quantize.value)
    else x
  }

  function LossyRoundTrip(d: FieldDesc, v: Value): (r: Value)
    requires ParametersValid(d)
    ensures TypeOf(r) == TypeOf(v)
  {
    hide LossyFx, LossyQuat;
    match v
    case VFx(x) => VFx(LossyFx(d, x))
    case VVec2(x, y) => VVec2(LossyFx(d, x), LossyFx(d, y))
    case VVec3(x, y, z) => VVec3(LossyFx(d, x), LossyFx(d, y), LossyFx(d, z))
    case VQuat(q) => VQuat(LossyQuat(d, q))
    case _ => v
  }

  function LossyQuat(d: FieldDesc, q: Quat): Quat
    requires ParametersValid(d)
  {
    if d.quantizeBits.Some? then DecompressQuat(CompressQuat(q, d.quantizeBits.value), d.quantizeBits.value) else q
  }

  // ---------------------------------------------------------------------------
  // The codec

  function ToUnsigned(v: I64): (u: Word)
  {
    if v >= 0 then v else v + U64
  }

  function ToSigned(u: Word): (v: I64)
    ensures ToUnsigned(v) == u
  {
    if u < U64 / 2 then u else u - U64
  }

  /** Sign-extends a two's-complement value of `bits` bits. */
  function SignExtend(u: Word, bits: nat): I64
    requires 1 <= bits
  {
    if bits >= 64 then ToSigned(u)
    else
      SignRange(u, bits);
      if u % Pow2(bits) < Pow2(bits - 1) then u % Pow2(bits) else u % Pow2(bits) - Pow2(bits)
  }

  lemma SignRange(u: nat, bits: nat)
    requires 1 <= bits < 64
    ensures Pow2(bits) == 2 * Pow2(bits - 1) && Pow2(bits - 1) <= U64 / 4
    ensures 0 <= u % Pow2(bits) < Pow2(bits)
  {
    Pow2Values();
    Pow2Mono(bits, 63);
  }

  function EncodeFx(d: FieldDesc, x: Fx): Stream
    requires RangeDeclared(d)
  {
    if d.quantize.Some? then
      BitsOf(Quantize(x, d.min.value, d.max.value, d.quantize.value),
             QuantizedBits(d.min.value, d.max.value, d.quantize.value))
    else BitsOf(ToUnsigned(x), 64)
  }

  function DecodeFx(d: FieldDesc, s: Stream): (r: Parsed<Fx>)
    requires RangeDeclared(d)
  {
    if d.quantize.Some? then
      match ReadBits(s, QuantizedBits(d.min.value, d.max.value, d.quantize.value))
      case Err(e) => Err(e)
      case Ok((q, rest)) => Ok((Dequantize(q, d.min.value, d.quantize.value), rest))
    else DecodeRaw(s)
  }

  function DecodeRaw(s: Stream): Parsed<Fx> {
    match ReadBits(s, 64)
    case Err(e) => Err(e)
    case Ok((u, rest)) => Pow2Values(); ValueBound(s[..64]); Ok((ToSigned(u), rest))
  }

  function EncodeQuat(d: FieldDesc, q: Quat): Stream
    requires ParametersValid(d)
  {
    if d.quantizeBits.Some? then
      var k := d.quantizeBits.value;
      var s := CompressQuat(q, k);
      BitsOf(s.largest, 2) + BitsOf(s.a, k) + BitsOf(s.b, k) + BitsOf(s.c, k)
    else
      BitsOf(ToUnsigned(q.x), 64) + BitsOf(ToUnsigned(q.y), 64) + BitsOf(ToUnsigned(q.z), 64) + BitsOf(ToUnsigned(q.w), 64)
  }

  /** A fixed-size value: its bits do not depend on where they start. */
  function EncodeFixed(d: FieldDesc, v: Value): Result<Stream, WireError>
    requires ParametersValid(d) && Storable(d.ty)
  {
    if TypeOf(v) != d.ty then Err(TypeMismatch)
    else
      match v
      case VBool(b) => Ok(BitsOf(if b then 1 else 0, 1))
      case VUint(u) => Ok(if d.bits.Some? then BitsOf(u, d.bits.value) else VaruintBits(u))
      case VInt(i) => Ok(if d.bits.Some? then BitsOf(ToUnsigned(i), d.bits.value) else VaruintBits(ZigzagEncode(i)))
      case VFx(x) => Ok(EncodeFx(d, x))
      case VVec2(x, y) => Ok(EncodeFx(d, x) + EncodeFx(d, y))
      case VVec3(x, y, z) => Ok(EncodeFx(d, x) + EncodeFx(d, y) + EncodeFx(d, z))
      case VQuat(q) => Ok(EncodeQuat(d, q))
      case VEnum(e) =>
        if d.variants.None? then Err(InvalidSchema)
        else if e >= d.variants.value then Err(ValueOutOfRange)
        else Ok(BitsOf(e, EnumBits(d.variants.value)))
  }

  function DecodeQuat(d: FieldDesc, s: Stream): Parsed<Value>
    requires ParametersValid(d)
  {
    if d.quantizeBits.Some? then
      var k := d.quantizeBits.value;
      match ReadBits(s, 2)
      case Err(e) => Err(e)
      case Ok((largest, s1)) =>
        match ReadBits(s1, k)
        case Err(e) => Err(e)
        case Ok((a, s2)) =>
          match ReadBits(s2, k)
          case Err(e) => Err(e)
          case Ok((b, s3)) =>
            match ReadBits(s3, k)
            case Err(e) => Err(e)
            case Ok((c, s4)) => Ok((VQuat(DecompressQuat(SmallestThree(largest, a, b, c), k)), s4))
    else
      match DecodeRaw(s)
      case Err(e) => Err(e)
      case Ok((x, s1)) =>
        match DecodeRaw(s1)
        case Err(e) => Err(e)
        case Ok((y, s2)) =>
          match DecodeRaw(s2)
          case Err(e) => Err(e)
          case Ok((z, s3)) =>
            match DecodeRaw(s3)
            case Err(e) => Err(e)
            case Ok((w, s4)) => Ok((VQuat(Quat(x, y, z, w)), s4))
  }

  function DecodeVec(d: FieldDesc, s: Stream): Parsed<Value>
    requires ParametersValid(d) && (d.ty.TVec2? || d.ty.TVec3?)
  {
    match DecodeFx(d, s)
    case Err(e) => Err(e)
    case Ok((x, s1)) =>
      match DecodeFx(d, s1)
      case Err(e) => Err(e)
      case Ok((y, s2)) =>
        if d.ty.TVec2? then Ok((VVec2(x, y), s2))
        else
          match DecodeFx(d, s2)
          case Err(e) => Err(e)
          case Ok((z, s3)) => Ok((VVec3(x, y, z), s3))
  }

  /** Read `bits` bits, or a variable-length integer when no width is declared. */
  function DecodeWord(s: Stream, bits: Option<nat>): (r: Parsed<Word>)
    requires bits.Some? ==> bits.value <= 64
  {
    match bits
    case Some(n) => (match ReadBits(s, n)
                     case Err(e) => Err(e)
                     case Ok((u, rest)) => Pow2Values(); Pow2Mono(n, 64); ValueBound(s[..n]); Ok((u, rest)))
    case None => DecodeVaruint(s)
  }

  function DecodeVaruint(s: Stream): Parsed<Word> {
    match ReadVaruint(s)
    case Err(e) => Err(e)
    case Ok((u, rest)) => VaruintFits(s, 0, 0); Ok((u, rest))
  }

  lemma {:induction false} VaruintFits(s: Stream, out: nat, shift: nat)
    ensures ReadVaruintFrom(s, out, shift).Ok? ==> ReadVaruintFrom(s, out, shift).value.0 < U64
    decreases |s|
  {
    if |s| >= 8 && shift < 64 && s[0] {
      VaruintFits(s[8..], Accumulate(out, ValueOf(s[1..8]), shift), shift + 7);
    }
  }

  function DecodeFixed(d: FieldDesc, s: Stream): (r: Parsed<Value>)
    requires ParametersValid(d) && Storable(d.ty)
  {
    match d.ty
    case TBool => (match ReadBits(s, 1)
                   case Err(e) => Err(e)
                   case Ok((u, rest)) => Ok((VBool(u != 0), rest)))
    case TUint => (match DecodeWord(s, d.bits)
                   case Err(e) => Err(e)
                   case Ok((u, rest)) => Ok((VUint(u), rest)))
    case TInt => (match DecodeWord(s, d.bits)
                  case Err(e) => Err(e)
                  case Ok((u, rest)) =>
                    Ok((VInt(if d.bits.Some? then SignExtend(u, d.bits.value) else ZigzagDecode(u)), rest)))
    case TFx => (match DecodeFx(d, s)
                 case Err(e) => Err(e)
                 case Ok((x, rest)) => Ok((VFx(x), rest)))
    case TVec2 => DecodeVec(d, s)
    case TVec3 => DecodeVec(d, s)
    case TQuat => DecodeQuat(d, s)
    case TEnum => DecodeEnum(s, d.variants.value)
  }

  function DecodeEnum(s: Stream, variants: nat): Parsed<Value>
    requires 1 <= variants < U32
  {
    match ReadBits(s, EnumBits(variants))
    case Err(e) => Err(e)
    case Ok((u, rest)) => if u >= variants then Err(ValueOutOfRange) else Ok((VEnum(u), rest))
  }

  // ---------------------------------------------------------------------------
  // Strings and byte strings, which start on a byte boundary

  /** A length prefix, zero bits up to the next byte boundary, and the bytes. */
  function EncodeBytes(p: nat, d: FieldDesc, b: Blob): Result<Stream, WireError> {
    if d.maxLen.Some? && |b| > d.maxLen.value then Err(ValueOutOfRange)
    else
      var prefix := VaruintBits(|b|);
      Ok(prefix + Padding(p + |prefix|) + BytesBits(b))
  }

  /** The length is checked against the limit and what is left before anything is taken. */
  function DecodeBytes(p: int, d: FieldDesc, s: Stream): (r: Parsed<Blob>)
  {
    match DecodeVaruint(s)
    case Err(e) => Err(e)
    case Ok((n, s1)) =>
      if d.maxLen.Some? && n > d.maxLen.value then Err(ValueOutOfRange)
      else if n > |s1| / 8 then Err(UnexpectedEnd)
      else ReadBytes(p + |s| - |s1|, s1, n)
  }

  /** A value written `p` bits into a buffer. */
  function EncodeField(p: nat, d: FieldDesc, v: Value): Result<Stream, WireError>
    requires ParametersValid(d)
  {
    if TypeOf(v) != d.ty then Err(TypeMismatch)
    else
      match v
      case VStr(b) => EncodeBytes(p, d, b)
      case VBytes(b) => EncodeBytes(p, d, b)
      case _ => EncodeFixed(d, v)
  }

  /** A value read `p` bits into a buffer. */
  function DecodeField(p: int, d: FieldDesc, s: Stream): (r: Parsed<Value>)
    requires ParametersValid(d)
  {
    match d.ty
    case TStr =>
      (match DecodeBytes(p, d, s)
       case Err(e) => Err(e)
       case Ok((b, rest)) => if Utf8(b) then Ok((VStr(b), rest)) else Err(ValueOutOfRange))
    case TBytes =>
      (match DecodeBytes(p, d, s)
       case Err(e) => Err(e)
       case Ok((b, rest)) => Ok((VBytes(b), rest)))
    case _ => DecodeFixed(d, s)
  }
}
