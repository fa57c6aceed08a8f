/** The writer's byte buffer with its pending bits, and the reader's cursor. */
module BitBuffers {
  import opened Common
  import opened Fixed
  import opened Bits

  lemma {:induction false} ValueAppend(a: Stream, b: Stream)
    ensures ValueOf(a + b) == ValueOf(a) + Pow2(|a|) * ValueOf(b)
  {
    if |a| == 0 {
      assert a + b == b;
    } else {
      ValueAppend(a[1..], b);
      assert (a + b)[1..] == a[1..] + b;
      assert 2 * (Pow2(|a| - 1) * ValueOf(b)) == Pow2(|a|) * ValueOf(b);
    }
  }

  /** `acc | (masked << k)`: the two never overlap, so OR is addition. */
  function Join(acc: nat, k: nat, masked: nat): nat {
    acc + masked * Pow2(k)
  }

  lemma MulStep(m: nat, q: nat, p: nat)
    requires m < q
    ensures m * p + p <= q * p
  {
    MulDistributes(m, 1, p);
    MulDistributes(m + 1, q - m - 1, p);
  }

  lemma MulDistributes(a: nat, b: nat, p: nat)
    ensures (a + b) * p == a * p + b * p && 0 <= a * p && 0 <= b * p
  {
  }

  lemma AppendPending(acc: nat, k: nat, m: nat, n: nat)
    requires acc < Pow2(k) && m < Pow2(n)
    ensures BitsOf(Join(acc, k, m), k + n) == BitsOf(acc, k) + BitsOf(m, n)
    ensures Join(acc, k, m) < Pow2(k + n)
  {
    hide BitsOf, Pow2, Shr;
    var x := Join(acc, k, m);
    DivModUnique(x, Pow2(k), m, acc);
    BitsSplit(x, k, n);
    ShrDiv(x, k);
    BitsIgnoreHigh(x, k);
    Pow2Add(k, n);
    MulStep(m, Pow2(n), Pow2(k));
  }

  /** A value of more than 32 bits, as the two halves it is split into. */
  lemma SplitWide(value: nat, bits: nat)
    requires bits > 32
    ensures BitsOf(value, bits) == BitsOf(value % U32, 32) + BitsOf(value / U32, bits - 32)
  {
    hide BitsOf, Pow2, Shr;
    Pow2Values();
    BitsSplit(value, 32, bits - 32);
    ShrDiv(value, 32);
    BitsIgnoreHigh(value, 32);
  }

  class BitWriter {
    var bytes: seq<Byte>
    var acc: nat
    var accBits: nat

    ghost predicate Valid()
      reads this
    {
      accBits < 8 && acc < Pow2(accBits)
    }

    /** Everything written so far. */
    ghost function Written(): (s: Stream)
      reads this
    {
      BytesBits(bytes) + BitsOf(acc, accBits)
    }

    constructor ()
      ensures Valid() && Written() == []
    {
      bytes, acc, accBits := [], 0, 0;
    }

    function BitLen(): (n: nat)
      reads this
      ensures n == |Written()|
    {
      |bytes| * 8 + accBits
    }

    method WriteBits(value: nat, bits: nat)
      requires Valid() && bits <= 64
      modifies this
      ensures Valid() && Written() == old(Written()) + BitsOf(value, bits)
      decreases bits
    {
      hide BitsOf, BytesBits, Pow2, Join;
      if bits == 0 {
        assert BitsOf(value, 0) == [];
        return;
      }
      if bits > 32 {
        WriteBits(value % U32, 32);
        WriteBits(value / U32, bits - 32);
        SplitWide(value, bits);
        return;
      }
      var masked := value % Pow2(bits);
      BitsIgnoreHigh(value, bits);
      AppendPending(acc, accBits, masked, bits);
      PushPending(Join(acc, accBits, masked), accBits + bits);
    }

    /** Makes these the pending bits and moves whole bytes into the buffer. */
    method PushPending(pending: nat, pendingBits: nat)
      requires pending < Pow2(pendingBits)
      modifies this
      ensures Valid()
      ensures Written() == BytesBits(old(bytes)) + BitsOf(pending, pendingBits)
    {
      acc, accBits := pending, pendingBits;
      ghost var goal := Written();
      while accBits >= 8
        invariant acc < Pow2(accBits)
        invariant Written() == goal
        decreases accBits
      {
        FlushByte(bytes, acc, accBits);
        bytes := bytes + [acc % 256];
        acc := acc / 256;
        accBits := accBits - 8;
      }
    }

    method WriteBool(v: bool)
      requires Valid()
      modifies this
      ensures Valid() && Written() == old(Written()) + [v]
    {
      WriteBits(if v then 1 else 0, 1);
      assert BitsOf(if v then 1 else 0, 1) == [v] + BitsOf(0, 0);
    }

    method WriteVaruint(value: nat)
      requires Valid() && value < U64
      modifies this
      ensures Valid() && Written() == old(Written()) + VaruintBits(value)
    {
      hide BitsOf, BytesBits, Pow2, VaruintBits;
      var v: nat := value;
      ghost var goal := Written() + VaruintBits(value);
      while true
        invariant Valid() && v < U64
        invariant Written() + VaruintBits(v) == goal
        decreases v
      {
        ghost var before := Written();
        VaruintUnfolds(v, before);
        var payload := v % 128;
        v := v / 128;
        var more := v != 0;
        WriteBool(more);
        WriteBits(payload, 7);
        if !more {
          return;
        }
      }
    }

    /** Pads with zero bits to the next byte boundary. */
    method Align()
      requires Valid()
      modifies this
      ensures Valid() && accBits == 0
      ensures Written() == old(Written()) + Padding(|old(Written())|)
    {
      hide BitsOf, BytesBits;
      PadOf(|bytes|, accBits);
      assert |Written()| == 8 * |bytes| + accBits;
      hide PadBits, Pow2;
      if accBits > 0 {
        WriteBits(0, 8 - accBits);
        assert |Written()| == 8 * |bytes| + accBits;
      }
    }

    /** Writes raw bytes, aligning first. */
    method WriteBytes(data: seq<Byte>)
      requires Valid()
      modifies this
      ensures Valid()
      ensures Written() == old(Written()) + Padding(|old(Written())|) + BytesBits(data)
    {
      hide BitsOf, BytesBits;
      Align();
      BytesJoin(bytes, data);
      bytes := bytes + data;
    }

    /** The buffer, zero-padded to whole bytes. */
    method Finish() returns (out: seq<Byte>)
      requires Valid()
      modifies this
      ensures BytesBits(out) == old(Written()) + Padding(|old(Written())|)
    {
      Align();
      out := bytes;
      assert BitsOf(acc, 0) == [];
      assert Written() == BytesBits(out);
    }

    /** The bytes written so far, padding a partial byte, without disturbing the writer. */
    method ToBytes() returns (out: seq<Byte>)
      requires Valid()
      ensures BytesBits(out) == Written() + Padding(|Written()|)
    {
      hide BitsOf, BytesBits;
      PadOf(|bytes|, accBits);
      assert |Written()| == 8 * |bytes| + accBits;
      hide PadBits, Pow2;
      out := bytes;
      if accBits > 0 {
        out := out + [acc % 256];
        PartialByte(bytes, acc, accBits);
      }
    }
  }

  /** The pending bits, padded to a byte, are themselves and then zeros. */
  lemma PartialByte(bytes: seq<Byte>, acc: nat, n: nat)
    requires n < 8 && acc < Pow2(n)
    ensures BytesBits(bytes + [acc % 256]) == BytesBits(bytes) + BitsOf(acc, n) + BitsOf(0, 8 - n)
  {
    hide BitsOf, Pow2, Shr;
    Pow2Values();
    Pow2Mono(n, 8);
    DivModUnique(acc, 256, 0, acc);
    DivModUnique(acc, Pow2(n), 0, acc);
    ShrDiv(acc, n);
    BitsSplit(acc, n, 8 - n);
    assert (bytes + [acc])[..|bytes|] == bytes;
  }

  lemma VaruintUnfolds(v: nat, before: Stream)
    ensures before + VaruintBits(v) ==
            if v / 128 != 0 then before + [true] + BitsOf(v % 128, 7) + VaruintBits(v / 128)
            else before + [false] + BitsOf(v % 128, 7)
  {
  }

  lemma FlushByte(bytes: seq<Byte>, acc: nat, n: nat)
    requires n >= 8 && acc < Pow2(n)
    ensures acc / 256 < Pow2(n - 8)
    ensures BytesBits(bytes + [acc % 256]) + BitsOf(acc / 256, n - 8) == BytesBits(bytes) + BitsOf(acc, n)
  {
    Pow2Values();
    Pow2Add(8, n - 8);
    BitsSplit(acc, 8, n - 8);
    ShrDiv(acc, 8);
    BitsIgnoreHigh(acc, 8);
    assert (bytes + [acc % 256])[..|bytes|] == bytes;
  }

  class BitReader {
    const bytes: seq<Byte>
    var pos: nat

    ghost predicate Valid()
      reads this
    {
      pos <= 8 * |bytes|
    }

    /** What is still to be read. */
    ghost function Rest(): (s: Stream)
      requires Valid()
      reads this
    {
      BytesBits(bytes)[pos..]
    }

    constructor (bytes: seq<Byte>)
      ensures Valid() && this.bytes == bytes && Rest() == BytesBits(bytes)
    {
      this.bytes := bytes;
      pos := 0;
    }

    function BitsRemaining(): (n: nat)
      requires Valid()
      reads this
      ensures n == |Rest()|
    {
      |bytes| * 8 - pos
    }

    /** After an error the position is unspecified: every caller gives up. */
    method ReadBits(bits: nat) returns (r: Result<nat, WireError>)
      requires Valid() && bits <= 64
      modifies this
      ensures Valid()
      ensures match Bits.ReadBits(old(Rest()), bits)
              case Ok((v, rest)) => r == Ok(v) && Rest() == rest
              case Err(e) => r == Err(e)
      decreases bits
    {
      if bits == 0 {
        return Ok(0);
      }
      if bits > 32 {
        ghost var start := Rest();
        hide ValueOf, BytesBits;
        var lo := ReadBits(32);
        if lo.Err? {
          return lo;
        }
        var hi := ReadBits(bits - 32);
        if hi.Err? {
          return hi;
        }
        WideValue(start, bits);
        return Ok(lo.value + hi.value * U32);
      }
      if BitsRemaining() < bits {
        return Err(UnexpectedEnd);
      }
      var v := TakeBits(bits);
      r := Ok(v);
    }

    /** Takes what the current byte can give of the `left` bits still wanted. */
    method TakeChunk(left: nat) returns (want: nat, chunk: nat)
      requires Valid() && 0 < left && pos + left <= 8 * |bytes|
      modifies this
      ensures 0 < want <= left && pos == old(pos) + want
      ensures chunk == ValueOf(BytesBits(bytes)[old(pos)..pos])
    {
      hide ValueOf, BytesBits, Pow2, Shr;
      var byte := bytes[pos / 8];
      var bitInByte := pos % 8;
      var available := 8 - bitInByte;
      want := if left < available then left else available;
      chunk := Shr(byte, bitInByte) % Pow2(want);
      ChunkOfByte(bytes, pos, want);
      pos := pos + want;
    }

    /** Gathers the bits byte by byte. */
    method TakeBits(bits: nat) returns (out: nat)
      requires Valid() && bits <= BitsRemaining()
      modifies this
      ensures Valid()
      ensures out == ValueOf(old(Rest())[..bits]) && Rest() == old(Rest())[bits..]
    {
      ghost var stream, from := BytesBits(bytes), pos;
      out := 0;
      var taken := 0;
      hide ValueOf, BytesBits, Pow2, Shr, Join;
      assert ValueOf(stream[from..from]) == 0 by {
        assert stream[from..from] == [];
        ValueNil();
      }
      while taken < bits
        invariant Valid() && 0 <= taken <= bits
        invariant pos == from + taken
        invariant out == ValueOf(stream[from..from + taken])
        decreases bits - taken
      {
        var want, chunk := TakeChunk(bits - taken);
        ChunkJoins(stream, from, from + taken, want, out, chunk);
        out := Join(out, taken, chunk);
        taken := taken + want;
      }
      assert old(Rest())[..bits] == stream[from..from + bits];
    }

    method ReadBool() returns (r: Result<bool, WireError>)
      requires Valid()
      modifies this
      ensures Valid()
      ensures |old(Rest())| == 0 ==> r == Err(UnexpectedEnd)
      ensures |old(Rest())| > 0 ==> r == Ok(old(Rest())[0]) && Rest() == old(Rest())[1..]
    {
      var bit := ReadBits(1);
      match bit {
        case Err(e) => r := Err(e);
        case Ok(v) =>
          ghost var first := old(Rest())[..1];
          assert first == [old(Rest())[0]] && first[1..] == [];
          assert ValueOf(first) == (if first[0] then 1 else 0) + 2 * ValueOf(first[1..]);
          r := Ok(v != 0);
      }
    }

    method ReadVaruint() returns (r: Result<nat, WireError>)
      requires Valid()
      modifies this
      ensures Valid()
      ensures match Bits.ReadVaruint(old(Rest()))
              case Ok((v, rest)) => r == Ok(v) && Rest() == rest
              case Err(e) => r == Err(e)
    {
      var out, shift := 0, 0;
      ghost var goal := Bits.ReadVaruint(Rest());
      while true
        invariant Valid()
        invariant ReadVaruintFrom(Rest(), out, shift) == goal
        decreases |Rest()|
      {
        ghost var rest := Rest();
        var more := ReadBool();
        if more.Err? {
          return Err(UnexpectedEnd);
        }
        var payload := ReadBits(7);
        if payload.Err? {
          return Err(UnexpectedEnd);
        }
        assert rest[1..8] == rest[1..][..7] && rest[8..] == rest[1..][7..];
        if shift >= 64 {
          return Err(MalformedVarint);
        }
        out := Accumulate(out, payload.value, shift);
        shift := shift + 7;
        if !more.value {
          return Ok(out);
        }
      }
    }

    /** Skips forward to the next byte boundary. */
    method Align()
      requires Valid()
      modifies this
      ensures Valid() && pos == old(pos) + PadBits(old(pos))
    {
      var rem := pos % 8;
      if rem != 0 {
        pos := pos + (8 - rem);
      }
    }

    /** Reads raw bytes, aligning first. */
    method ReadBytes(len: nat) returns (r: Result<seq<Byte>, WireError>)
      requires Valid()
      modifies this
      ensures Valid()
      ensures match Bits.ReadBytes(old(pos), old(Rest()), len)
              case Ok((b, rest)) => r == Ok(b) && Rest() == rest
              case Err(e) => r == Err(e)
    {
      hide BytesBits, BytesOf;
      ghost var before := pos;
      Align();
      var start := pos / 8;
      var end := start + len;
      if end > |bytes| {
        AlignedShort(BytesBits(bytes), before, start, len);
        return Err(UnexpectedEnd);
      }
      AlignedBytes(bytes, before, start, len);
      pos := end * 8;
      r := Ok(bytes[start..end]);
    }
  }

  lemma AlignedShort(s: Stream, pos: nat, i: nat, n: nat)
    requires pos <= |s| && pos + PadBits(pos) == 8 * i && 8 * (i + n) > |s|
    ensures Bits.ReadBytes(pos, s[pos..], n) == Err(UnexpectedEnd)
  {
    hide BytesOf, PadBits;
  }

  /** What reading from a byte boundary takes is the buffer's own bytes. */
  lemma AlignedBytes(bytes: seq<Byte>, pos: nat, i: nat, n: nat)
    requires pos + PadBits(pos) == 8 * i && i + n <= |bytes|
    ensures Bits.ReadBytes(pos, BytesBits(bytes)[pos..], n) == Ok((bytes[i..i + n], BytesBits(bytes)[8 * (i + n)..]))
  {
    hide BytesBits, BytesOf, PadBits, Bits.ReadBytes;
    SliceBack(bytes, i, i + n);
    TakenAt(BytesBits(bytes), pos, i, n, bytes[i..i + n]);
  }

  lemma SliceBack(bytes: seq<Byte>, i: nat, j: nat)
    requires i <= j <= |bytes|
    ensures BytesOf(BytesBits(bytes)[8 * i..8 * j]) == bytes[i..j]
  {
    hide BytesBits, BytesOf;
    BytesSlice(bytes, i, j);
    BytesBack(bytes[i..j]);
  }

  lemma PadOf(n: nat, k: nat)
    requires k < 8
    ensures PadBits(8 * n + k) == if k == 0 then 0 else 8 - k
  {
  }

  lemma TakenAt(s: Stream, pos: nat, i: nat, n: nat, taken: seq<Byte>)
    requires pos + PadBits(pos) == 8 * i && 8 * (i + n) <= |s|
    requires BytesOf(s[8 * i..8 * (i + n)]) == taken
    ensures Bits.ReadBytes(pos, s[pos..], n) == Ok((taken, s[8 * (i + n)..]))
  {
    hide BytesOf, PadBits;
    var pad := PadBits(pos);
    TailSlice(s, pos, pad, pad + 8 * n);
  }

  lemma TailSlice(s: Stream, pos: nat, a: nat, b: nat)
    requires a <= b && pos + b <= |s|
    ensures s[pos..][a..b] == s[pos + a..pos + b] && s[pos..][b..] == s[pos + b..]
  {
  }

  lemma ChunkJoins(stream: Stream, from: nat, pos: nat, want: nat, out: nat, chunk: nat)
    requires from <= pos && pos + want <= |stream|
    requires out == ValueOf(stream[from..pos]) && chunk == ValueOf(stream[pos..pos + want])
    ensures Join(out, pos - from, chunk) == ValueOf(stream[from..pos + want])
  {
    hide ValueOf;
    assert stream[from..pos + want] == stream[from..pos] + stream[pos..pos + want];
    ValueAppend(stream[from..pos], stream[pos..pos + want]);
  }

  lemma ValueNil()
    ensures ValueOf([]) == 0
  {
  }

  /** A value of more than 32 bits, read as two halves. */
  lemma WideValue(s: Stream, bits: nat)
    requires 32 < bits <= |s|
    ensures ValueOf(s[..bits]) == ValueOf(s[..32]) + U32 * ValueOf(s[32..][..bits - 32])
    ensures s[bits..] == s[32..][bits - 32..]
  {
    hide ValueOf;
    ValueAppend(s[..32], s[32..][..bits - 32]);
    assert s[..bits] == s[..32] + s[32..][..bits - 32];
    Pow2Values();
  }

  lemma SliceOfSlice(s: Stream, a: nat, b: nat, c: nat, d: nat)
    requires c <= d && a + d <= b <= |s|
    ensures s[a..b][c..d] == s[a + c..a + d]
  {
    var inner, outer := s[a..b][c..d], s[a + c..a + d];
    assert |inner| == |outer|;
    assert forall k :: 0 <= k < |inner| ==> inner[k] == s[a..b][c + k] == outer[k];
  }

  /** The bits of one byte that a read starting at `pos` can take. */
  lemma ChunkOfByte(bytes: seq<Byte>, pos: nat, want: nat)
    requires pos / 8 < |bytes| && pos % 8 + want <= 8
    ensures ValueOf(BytesBits(bytes)[pos..pos + want]) == Shr(bytes[pos / 8], pos % 8) % Pow2(want)
  {
    hide ValueOf, BitsOf, BytesBits, Shr;
    var i, o := pos / 8, pos % 8;
    var b := bytes[i];
    ByteAt(bytes, i);
    var whole := BytesBits(bytes)[8 * i..8 * i + 8];
    SliceOfSlice(BytesBits(bytes), 8 * i, 8 * i + 8, o, o + want);
    BitsSplit(b, o, 8 - o);
    assert whole[o..] == BitsOf(Shr(b, o), 8 - o);
    BitsSplit(Shr(b, o), want, 8 - o - want);
    assert whole[o..o + want] == BitsOf(Shr(b, o), want);
    ValueOfBits(Shr(b, o), want);
  }
}
