/** Bit streams: least significant bit first, written and read at any bit offset.

    A stream is a `seq<bool>`; `BitWriter` and `BitReader` are the buffers the source
    keeps, each tied to the stream it stands for. */
module Bits {
  import opened Common
  import opened Fixed

  type Byte = b: nat | b < 256
  type Stream = seq<bool>

  datatype WireError = UnexpectedEnd | MalformedVarint | ValueOutOfRange | InvalidSchema | TypeMismatch

  // ---------------------------------------------------------------------------
  // Numbers as bits

  /** The low `n` bits of `v`, least significant first. */
  function BitsOf(v: nat, n: nat): (s: Stream)
    ensures |s| == n
  {
    if n == 0 then [] else [v % 2 == 1] + BitsOf(v / 2, n - 1)
  }

  function ValueOf(s: Stream): nat {
    if |s| == 0 then 0 else (if s[0] then 1 else 0) + 2 * ValueOf(s[1..])
  }

  lemma {:induction false} ValueBound(s: Stream)
    ensures ValueOf(s) < Pow2(|s|)
  {
    if |s| > 0 {
      ValueBound(s[1..]);
    }
  }

  lemma {:induction false} ValueOfBits(v: nat, n: nat)
    ensures ValueOf(BitsOf(v, n)) == v % Pow2(n)
  {
    if n > 0 {
      ValueOfBits(v / 2, n - 1);
      assert BitsOf(v, n)[1..] == BitsOf(v / 2, n - 1);
      ModDouble(v, Pow2(n - 1));
    }
  }

  lemma ModDouble(v: nat, p: nat)
    requires p > 0
    ensures v % (2 * p) == v % 2 + 2 * (v / 2 % p)
  {
    var q, r := v / 2 / p, v / 2 % p;
    assert v == (2 * p) * q + (v % 2 + 2 * r) by {
      assert v / 2 == p * q + r;
      assert v == 2 * (v / 2) + v % 2;
      assert 2 * (p * q) == (2 * p) * q;
    }
    DivModUnique(v, 2 * p, q, v % 2 + 2 * r);
  }

  lemma DivModUnique(v: int, m: int, q: int, r: int)
    requires m > 0 && v == m * q + r && 0 <= r < m
    ensures v / m == q && v % m == r
  {
    assert v == m * (v / m) + v % m;
    assert m * (v / m - q) == r - v % m;
    var d := v / m - q;
    if d >= 1 {
      MulAtLeast(m, d);
    } else if d <= -1 {
      MulAtLeast(m, -d);
    }
  }

  lemma {:induction false} BitsOfValue(s: Stream)
    ensures BitsOf(ValueOf(s), |s|) == s
  {
    if |s| > 0 {
      BitsOfValue(s[1..]);
    }
  }

  /** `v >> a`. */
  function Shr(v: nat, a: nat): nat {
    if a == 0 then v else Shr(v / 2, a - 1)
  }

  /** Writing `a` low bits and then the rest is writing them all. */
  lemma {:induction false} BitsSplit(v: nat, a: nat, b: nat)
    ensures BitsOf(v, a + b) == BitsOf(v, a) + BitsOf(Shr(v, a), b)
  {
    if a > 0 {
      BitsSplit(v / 2, a - 1, b);
    }
  }

  lemma {:induction false} ShrDiv(v: nat, a: nat)
    ensures Shr(v, a) == v / Pow2(a)
  {
    if a > 0 {
      ShrDiv(v / 2, a - 1);
      DivDouble(v, Pow2(a - 1));
    }
  }

  lemma DivDouble(v: nat, p: nat)
    requires p > 0
    ensures v / 2 / p == v / (2 * p)
  {
    ModDouble(v, p);
    var q, r := v / 2 / p, v / 2 % p;
    assert v == (2 * p) * q + (v % 2 + 2 * r) by {
      assert v / 2 == p * q + r;
      assert 2 * (p * q) == (2 * p) * q;
    }
    DivModUnique(v, 2 * p, q, v % 2 + 2 * r);
  }

  lemma {:induction false} Pow2Add(a: nat, b: nat)
    ensures Pow2(a + b) == Pow2(a) * Pow2(b)
  {
    if a > 0 {
      Pow2Add(a - 1, b);
    }
  }

  lemma {:induction false} Pow2Mono(a: nat, b: nat)
    requires a <= b
    ensures Pow2(a) <= Pow2(b)
    decreases b - a
  {
    if a < b {
      Pow2Mono(a, b - 1);
    }
  }

  /** Bits above the width are ignored. */
  lemma {:induction false} BitsIgnoreHigh(v: nat, n: nat)
    ensures BitsOf(v % Pow2(n), n) == BitsOf(v, n)
  {
    ValueOfBits(v, n);
    BitsOfValue(BitsOf(v, n));
  }

  lemma Pow2Values()
    ensures Pow2(3) == 8 && Pow2(7) == 128 && Pow2(8) == 256
    ensures Pow2(32) == U32 && Pow2(64) == U64
  {
    assert Pow2(4) == 16 && Pow2(8) == 256;
    Pow2Add(8, 8);
    Pow2Add(16, 16);
    Pow2Add(32, 32);
  }

  // ---------------------------------------------------------------------------
  // Reading from the front of a stream

  type Parsed<+T> = Result<(T, Stream), WireError>

  function ReadBits(s: Stream, n: nat): (r: Parsed<nat>)
    ensures r.Ok? <==> n <= |s|
    ensures r.Ok? ==> |r.value.1| == |s| - n
  {
    if |s| < n then Err(UnexpectedEnd) else Ok((ValueOf(s[..n]), s[n..]))
  }

  /** Reading back what was written, whatever follows it. */
  lemma ReadWritten(v: nat, n: nat, rest: Stream)
    ensures ReadBits(BitsOf(v, n) + rest, n) == Ok((v % Pow2(n), rest))
  {
    var s := BitsOf(v, n) + rest;
    assert s[..n] == BitsOf(v, n) && s[n..] == rest;
    ValueOfBits(v, n);
  }

  // ---------------------------------------------------------------------------
  // Variable-length integers

  /** Groups of one continuation bit and seven payload bits, low group first. */
  function VaruintBits(v: nat): (s: Stream)
    ensures |s| >= 8
  {
    [v / 128 != 0] + BitsOf(v % 128, 7) + (if v / 128 != 0 then VaruintBits(v / 128) else [])
  }

  /** `out |= payload << shift` on 64 bits, the group's bits being clear in `out`. */
  function Accumulate(out: nat, payload: nat, shift: nat): (r: nat)
    ensures out + payload * Pow2(shift) < U64 ==> r == out + payload * Pow2(shift)
  {
    (out + payload * Pow2(shift)) % U64
  }

  function ReadVaruintFrom(s: Stream, out: nat, shift: nat): (r: Parsed<nat>)
    decreases |s|
  {
    if |s| < 8 then Err(UnexpectedEnd)
    else if shift >= 64 then Err(MalformedVarint)
    else
      var out' := Accumulate(out, ValueOf(s[1..8]), shift);
      if s[0] then ReadVaruintFrom(s[8..], out', shift + 7) else Ok((out', s[8..]))
  }

  function ReadVaruint(s: Stream): Parsed<nat> {
    ReadVaruintFrom(s, 0, 0)
  }

  lemma GroupSplit(low: nat, high: nat, p: nat)
    requires low < 128
    ensures (low + 128 * high) * p == low * p + high * (128 * p)
    ensures 0 <= high * (128 * p) && 0 <= low * p <= 127 * p
  {
    assert (low + 128 * high) * p == low * p + (128 * high) * p;
    assert (128 * high) * p == high * (128 * p);
  }

  /** The reader's view of one group. */
  lemma VaruintGroup(v: nat, out: nat, shift: nat, rest: Stream)
    requires shift < 64
    requires out + (v % 128) * Pow2(shift) < U64
    ensures ReadVaruintFrom(VaruintBits(v) + rest, out, shift) ==
            if v / 128 != 0 then ReadVaruintFrom(VaruintBits(v / 128) + rest, out + (v % 128) * Pow2(shift), shift + 7)
            else Ok((out + (v % 128) * Pow2(shift), rest))
  {
    hide ValueOf, BitsOf, Pow2, Accumulate;
    var s := VaruintBits(v) + rest;
    var tail := if v / 128 != 0 then VaruintBits(v / 128) else [];
    assert VaruintBits(v) == [v / 128 != 0] + BitsOf(v % 128, 7) + tail;
    assert s[1..8] == BitsOf(v % 128, 7) && s[8..] == tail + rest && s[0] == (v / 128 != 0);
    ValueOfBits(v % 128, 7);
    Pow2Values();
    var next := Accumulate(out, v % 128, shift);
    hide VaruintBits;
    assert ReadVaruintFrom(s, out, shift) ==
           if s[0] then ReadVaruintFrom(s[8..], next, shift + 7) else Ok((next, s[8..]));
  }

  lemma {:induction false} VaruintStep(v: nat, out: nat, shift: nat, rest: Stream)
    requires out < Pow2(shift)
    requires out + v * Pow2(shift) < U64
    requires shift < 64 || v > 0
    ensures ReadVaruintFrom(VaruintBits(v) + rest, out, shift) == Ok((out + v * Pow2(shift), rest))
    decreases v
  {
    hide VaruintBits, ReadVaruintFrom, Pow2;
    var p, low, high := Pow2(shift), v % 128, v / 128;
    GroupSplit(low, high, p);
    if shift >= 64 {
      Pow2Values();
      Pow2Mono(64, shift);
      MulAtLeast(p, v);
      assert false;
    } else {
      VaruintGroup(v, out, shift, rest);
      if high != 0 {
        assert Pow2(shift + 7) == 128 * p by { Pow2Add(shift, 7); Pow2Values(); }
        VaruintStep(high, out + low * p, shift + 7, rest);
      }
    }
  }

  lemma VaruintRoundTrip(v: nat, rest: Stream)
    requires v < U64
    ensures ReadVaruint(VaruintBits(v) + rest) == Ok((v, rest))
  {
    VaruintStep(v, 0, 0, rest);
  }

  /** Signed values, small magnitudes first: `(v << 1) ^ (v >> 63)`. */
  function ZigzagEncode(v: I64): (u: nat)
    ensures u < U64
  {
    if v >= 0 then 2 * v else -2 * v - 1
  }

  /** `(v >> 1) ^ -(v & 1)`. */
  function ZigzagDecode(u: nat): (v: I64)
    requires u < U64
    ensures ZigzagEncode(v) == u
  {
    if u % 2 == 0 then u / 2 else -(u / 2) - 1
  }

  // ---------------------------------------------------------------------------
  // Bytes

  function BytesBits(bytes: seq<Byte>): (s: Stream)
    ensures |s| == 8 * |bytes|
  {
    if |bytes| == 0 then [] else BytesBits(bytes[..|bytes| - 1]) + BitsOf(bytes[|bytes| - 1], 8)
  }

  lemma {:induction false} ByteAt(bytes: seq<Byte>, i: nat)
    requires i < |bytes|
    ensures BytesBits(bytes)[8 * i..8 * i + 8] == BitsOf(bytes[i], 8)
  {
    if i < |bytes| - 1 {
      ByteAt(bytes[..|bytes| - 1], i);
      assert BytesBits(bytes)[8 * i..8 * i + 8] == BytesBits(bytes[..|bytes| - 1])[8 * i..8 * i + 8];
    }
  }

  lemma {:induction false} BytesJoin(a: seq<Byte>, b: seq<Byte>)
    ensures BytesBits(a + b) == BytesBits(a) + BytesBits(b)
  {
    hide BitsOf;
    if |b| == 0 {
      assert a + b == a;
    } else {
      var init, last := b[..|b| - 1], b[|b| - 1];
      BytesJoin(a, init);
      assert (a + b)[..|a + b| - 1] == a + init;
    }
  }

  lemma BytesSlice(bytes: seq<Byte>, i: nat, j: nat)
    requires i <= j <= |bytes|
    ensures BytesBits(bytes)[8 * i..8 * j] == BytesBits(bytes[i..j])
  {
    hide BytesBits;
    ThreeParts(bytes, i, j);
    BytesMiddle(bytes[..i], bytes[i..j], bytes[j..]);
  }

  lemma ThreeParts<T>(s: seq<T>, i: nat, j: nat)
    requires i <= j <= |s|
    ensures s[..i] + s[i..j] + s[j..] == s
  {
  }

  lemma BytesMiddle(a: seq<Byte>, b: seq<Byte>, c: seq<Byte>)
    ensures BytesBits(a + b + c)[8 * |a|..8 * (|a| + |b|)] == BytesBits(b)
  {
    hide BytesBits;
    BytesJoin(a + b, c);
    BytesJoin(a, b);
    MiddleOf(BytesBits(a), BytesBits(b), BytesBits(c));
  }

  lemma MiddleOf(a: Stream, b: Stream, c: Stream)
    ensures (a + b + c)[|a|..|a| + |b|] == b
  {
  }

  /** The bytes a whole number of bytes stands for. */
  function BytesOf(s: Stream): (b: seq<Byte>)
    requires |s| % 8 == 0
    ensures |b| == |s| / 8
  {
    if |s| == 0 then []
    else
      var last := s[|s| - 8..];
      ValueBound(last);
      assert Pow2(8) == 256;
      BytesOf(s[..|s| - 8]) + [ValueOf(last)]
  }

  lemma {:induction false} BytesBack(b: seq<Byte>)
    ensures BytesOf(BytesBits(b)) == b
  {
    hide BitsOf, ValueOf;
    if |b| > 0 {
      var init, last := b[..|b| - 1], b[|b| - 1];
      BytesBack(init);
      var s := BytesBits(b);
      assert s == BytesBits(init) + BitsOf(last, 8);
      assert s[..|s| - 8] == BytesBits(init) && s[|s| - 8..] == BitsOf(last, 8);
      ValueOfBits(last, 8);
      assert Pow2(8) == 256;
    }
  }

  /** How far a position is from the next byte boundary. */
  function PadBits(p: int): (n: nat)
    ensures n < 8 && (p + n) % 8 == 0
  {
    (8 - p % 8) % 8
  }

  /** The zero bits that lead to the next byte boundary. */
  function Padding(p: int): (s: Stream)
    ensures |s| == PadBits(p)
  {
    BitsOf(0, PadBits(p))
  }

  /** Skips to the next byte boundary and takes `n` bytes. */
  function ReadBytes(p: int, s: Stream, n: nat): (r: Parsed<seq<Byte>>)
    ensures r.Ok? ==> |r.value.0| == n
  {
    var pad := PadBits(p);
    if pad + 8 * n > |s| then Err(UnexpectedEnd)
    else Ok((BytesOf(s[pad..pad + 8 * n]), s[pad + 8 * n..]))
  }

  lemma BytesReadBack(p: int, b: seq<Byte>, rest: Stream)
    ensures ReadBytes(p, Padding(p) + BytesBits(b) + rest, |b|) == Ok((b, rest))
  {
    hide BytesOf, BytesBits, BitsOf;
    var s, pad := Padding(p) + BytesBits(b) + rest, PadBits(p);
    assert s[pad..pad + 8 * |b|] == BytesBits(b) && s[pad + 8 * |b|..] == rest;
    BytesBack(b);
  }
}
