/** How many bits each field takes, from the wire format's own table. */
module Widths {
  import opened Common
  import opened Fixed
  import opened Bits
  import opened Schema
  import opened Quantization
  import opened Values

  /** `b` is the base-two logarithm of `n`, rounded up. */
  predicate CeilLog2(b: nat, n: nat) {
    n <= Pow2(b) && (b > 0 ==> Pow2(b - 1) < n)
  }

  lemma {:induction false} BitWidthIsLog(n: nat)
    ensures CeilLog2(BitWidth(n), n + 1)
  {
    if n > 0 {
      BitWidthIsLog(n / 2);
    }
  }

  /** A quantized component takes as many bits as its steps need and no more: none at all when
      one step covers the range. An enum takes as many as its variants need. */
  lemma DeclaredBits(min: Fx, max: Fx, step: Fx, variants: nat)
    requires step > 0 && min < max && variants > 0
    ensures CeilLog2(QuantizedBits(min, max, step), (max - min) / step + 1)
    ensures CeilLog2(EnumBits(variants), variants)
  {
    BitWidthIsLog(MaxIndex(min, max, step));
    BitWidthIsLog(variants - 1);
  }

  /** A variable-length integer takes one byte for every seven bits, and at least one. */
  lemma {:induction false} VaruintGroups(v: nat) returns (g: nat)
    ensures g >= 1 && |VaruintBits(v)| == 8 * g
    ensures v < Pow2(7 * g) && (g > 1 ==> Pow2(7 * (g - 1)) <= v)
  {
    hide BitsOf, Pow2;
    if v < 128 {
      g := 1;
      Pow2Values();
    } else {
      var n := VaruintGroups(v / 128);
      g := n + 1;
      hide VaruintBits;
      OneGroupMore(v, n);
    }
  }

  lemma OneGroupMore(v: nat, n: nat)
    requires v >= 128 && n >= 1 && v / 128 < Pow2(7 * n) && (n > 1 ==> Pow2(7 * (n - 1)) <= v / 128)
    ensures v < Pow2(7 * (n + 1)) && Pow2(7 * n) <= v
  {
    hide Pow2;
    Pow2Values();
    Pow2Add(7 * n, 7);
    if n > 1 {
      Pow2Add(7 * (n - 1), 7);
    }
  }

  /** Zig-zag numbers the integers by magnitude, the negative of each pair first. */
  lemma ZigzagOrder(v: I64, w: I64)
    ensures ZigzagEncode(v) < ZigzagEncode(w) <==> Size(v) < Size(w) || (Size(v) == Size(w) && v < w)
    ensures ZigzagEncode(0) == 0
  {
  }

  function FxWidth(d: FieldDesc): nat
    requires RangeDeclared(d)
  {
    if d.quantize.Some? then QuantizedBits(d.min.value, d.max.value, d.quantize.value) else 64
  }

  /** The size of every fixed-size field, by its declaration. */
  lemma FieldWidth(d: FieldDesc, v: Value)
    requires ParametersValid(d) && Storable(d.ty) && EncodeFixed(d, v).Ok?
    ensures var n := |EncodeFixed(d, v).value|;
            match v
            case VBool(_) => n == 1
            case VUint(u) => n == if d.bits.Some? then d.bits.value else |VaruintBits(u)|
            case VInt(i) => n == if d.bits.Some? then d.bits.value else |VaruintBits(ZigzagEncode(i))|
            case VFx(_) => n == FxWidth(d)
            case VVec2(_, _) => n == 2 * FxWidth(d)
            case VVec3(_, _, _) => n == 3 * FxWidth(d)
            case VQuat(_) => n == if d.quantizeBits.Some? then 2 + 3 * d.quantizeBits.value else 256
            case VEnum(_) => d.variants.Some? && n == EnumBits(d.variants.value)
  {
    hide BitsOf, VaruintBits, QuantizedBits, Quantize, EnumBits;
  }

  /** A string or byte string is a byte-aligned run after its length. */
  lemma BytesWidth(p: nat, d: FieldDesc, b: Blob)
    requires EncodeBytes(p, d, b).Ok?
    ensures var n := |EncodeBytes(p, d, b).value|;
            && (p + n) % 8 == 0
            && |VaruintBits(|b|)| + 8 * |b| <= n < |VaruintBits(|b|)| + 8 * |b| + 8
  {
    hide VaruintBits, BytesBits, PadBits, Padding;
    PadsUp(p + |VaruintBits(|b|)|, |b|);
  }

  lemma PadsUp(p: nat, bytes: nat)
    ensures PadBits(p) < 8 && (p + PadBits(p) + 8 * bytes) % 8 == 0
  {
  }
}
