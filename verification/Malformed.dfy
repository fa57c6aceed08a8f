/** What a receiver refuses, read off the bits: reserved operations, unknown entities,
    generations and indices out of range, truncated entries. */
module Malformed {
  import opened Common
  import opened Fixed
  import opened Bits
  import opened Values
  import opened Layout
  import opened Worlds
  import opened Delta

  lemma {:induction false} FieldsRefuse(reg: Registry, s: State, c: nat, i: nat, dirty: seq<bool>, f: nat, bits: Stream)
    requires Valid(reg, s) && PresentAt(s, c, i) && |dirty| == |reg.layouts[c].fields| && f <= |dirty|
    ensures var r := ApplyFields(reg, s, c, i, dirty, f, bits); r.Err? ==> r.error.Wire?
    decreases |dirty| - f
  {
    assert c < |reg.layouts| && LayoutValid(reg.layouts[c]);
    hide StateValid, DecodeFixed, WriteCell;
    if f < |dirty| {
      if !dirty[f] {
        FieldsRefuse(reg, s, c, i, dirty, f + 1, bits);
      } else if DecodeFixed(reg.layouts[c].fields[f].desc, bits).Ok? {
        var (v, rest) := DecodeFixed(reg.layouts[c].fields[f].desc, bits).value;
        DecodedType(reg.layouts[c].fields[f].desc, bits);
        WriteKeeps(reg.layouts, s, i, c, f, v);
        FieldsRefuse(reg, WriteCell(reg.layouts, s, i, c, f, v), c, i, dirty, f + 1, rest);
      }
    }
  }

  lemma {:induction false} ComponentsRefuse(reg: Registry, s: State, i: nat, present: seq<bool>, j: nat, bits: Stream)
    requires Valid(reg, s) && LiveAt(s, i).Some? && |present| == |reg.canon| && j <= |present|
    ensures var r := ApplyComponents(reg, s, i, present, j, bits); r.Err? ==> r.error.Wire?
    decreases |present| - j
  {
    hide StateValid, LayoutValid, ApplyFields, InsertCell, RemoveCell;
    if j < |present| {
      var c := reg.canon[j];
      if !present[j] {
        RemoveKeeps(reg.layouts, s, i, c);
        ComponentsRefuse(reg, RemoveCell(reg.layouts, s, i, c), i, present, j + 1, bits);
      } else {
        InsertKeeps(reg.layouts, s, i, c);
        var n := |reg.layouts[c].fields|;
        if |bits| >= n {
          FieldsRefuse(reg, InsertCell(reg.layouts, s, i, c), c, i, bits[..n], 0, bits[n..]);
          var r := ApplyFields(reg, InsertCell(reg.layouts, s, i, c), c, i, bits[..n], 0, bits[n..]);
          if r.Ok? {
            ComponentsRefuse(reg, r.value.0, i, present, j + 1, r.value.1);
          }
        }
      }
    }
  }

  lemma OpBits(bits: Stream)
    requires |bits| >= 2
    ensures ReadBits(bits, 2) == Ok(((if bits[0] then 1 else 0) + (if bits[1] then 2 else 0), bits[2..]))
  {
    var two := bits[..2];
    assert ValueOf(two) == (if two[0] then 1 else 0) + 2 * ValueOf(two[1..]);
    assert ValueOf(two[1..]) == (if two[1] then 1 else 0) + 2 * ValueOf(two[1..][1..]);
  }

  lemma Truncated(bits: Stream)
    requires |bits| < 2
    ensures ReadBits(bits, 2) == Err(UnexpectedEnd)
  {
  }

  /** An entry by its first two bits, low bit first. Both set is reserved; the high one alone
      is a despawn, which cannot fail whoever lives there; neither is an update, refused when
      nobody does; the low one alone is a spawn, refused when its generation does not fit. */
  lemma EntryRefusedExactly(reg: Registry, s: State, i: Half, bits: Stream)
    requires Valid(reg, s)
    ensures var r := ApplyEntry(reg, s, i, bits);
            && (|bits| < 2 ==> r == Err(Wire(UnexpectedEnd)))
            && (|bits| >= 2 ==>
                  && (r == Err(ReservedOp) <==> bits[0] && bits[1])
                  && (r == Err(UnknownEntity) <==> !bits[0] && !bits[1] && LiveAt(s, i).None?)
                  && (r == Err(GenerationOutOfRange) <==>
                        bits[0] && !bits[1] && ReadVaruint(bits[2..]).Ok? && ReadVaruint(bits[2..]).value.0 >= U32)
                  && (!bits[0] && bits[1] ==>
                        r.Ok? && r.value.1 == bits[2..] && LiveAt(r.value.0, i).None?
                        && forall k | k != i :: LiveAt(r.value.0, k) == LiveAt(s, k))
                  && (r.Err? ==> r.error in {ReservedOp, UnknownEntity, GenerationOutOfRange} || r.error.Wire?))
  {
    hide StateValid, LayoutValid, ReadVaruint, ReadBits, SpawnAt, Despawn, ApplyComponents, ValueOf, PresentAt;
    if |bits| >= 2 {
      OpBits(bits);
      var rest := bits[2..];
      if !bits[0] && !bits[1] && LiveAt(s, i).Some? && |rest| >= |reg.canon| {
        ComponentsRefuse(reg, s, i, rest[..|reg.canon|], 0, rest[|reg.canon|..]);
      } else if bits[0] && !bits[1] && ReadVaruint(rest).Ok? && ReadVaruint(rest).value.0 < U32 {
        var (generation, body) := ReadVaruint(rest).value;
        if |body| >= |reg.canon| {
          ComponentsRefuse(reg, SpawnOver(reg, s, i, generation), i, body[..|reg.canon|], 0, body[|reg.canon|..]);
        }
      } else if !bits[0] && bits[1] && LiveAt(s, i).Some? {
        DespawnKeeps(reg.layouts, s, Entity(i, LiveAt(s, i).value));
      }
    } else {
      Truncated(bits);
    }
  }

  /** A gap leads to the next index in plain integers, or out of the 32-bit range. */
  lemma IndexIs(index: I64, gap: Word)
    requires -1 <= index < U32 && gap < 0x7FFF_FFFF_FFFF_FFFF
    ensures var next := index + gap + 1;
            NextIndex(index, gap) ==
            if next < U32 then Ok(next) else if next <= 0x7FFF_FFFF_FFFF_FFFF then Err(IndexOutOfRange) else Err(IndexOverflow)
  {
  }

  function Header(tick: Half, against: Half, count: Word, rest: Stream): Stream {
    BitsOf(tick, 32) + (BitsOf(against, 32) + (VaruintBits(count) + rest))
  }

  lemma HeaderParsed(tick: Half, against: Half, count: Word, rest: Stream)
    ensures ReadBits(Header(tick, against, count, rest), 32) == Ok((tick, BitsOf(against, 32) + (VaruintBits(count) + rest)))
    ensures ReadBits(BitsOf(against, 32) + (VaruintBits(count) + rest), 32) == Ok((against, VaruintBits(count) + rest))
    ensures ReadVaruint(VaruintBits(count) + rest) == Ok((count, rest))
  {
    hide BitsOf, ReadBits, ReadVaruint, VaruintBits, Pow2;
    Pow2Values();
    ReadWritten(tick, 32, BitsOf(against, 32) + (VaruintBits(count) + rest));
    ReadWritten(against, 32, VaruintBits(count) + rest);
    VaruintRoundTrip(count, rest);
  }

  /** A count larger than the bits that follow it is refused before any entry is read. */
  lemma CountRefused(reg: Registry, s: State, tick: Half, against: Half, count: Word, rest: Stream)
    requires Valid(reg, s) && count > |rest|
    ensures ApplyDelta(reg, s, Header(tick, against, count, rest)) == Err(CountExceedsPacket)
  {
    hide Valid, ReadBits, ReadVaruint, Header, ApplyEntries;
    HeaderParsed(tick, against, count, rest);
  }
}
