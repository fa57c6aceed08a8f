/** The worked example of the schema specification, character for character. */
module CanonicalExample {
  import opened Common
  import opened Fixed
  import opened Schema
  import opened CanonicalText

  const THOUSAND: Fx := 0x3E8_0000_0000
  const MINUS_THOUSAND: Fx := -0x3E8_0000_0000
  const STEP: Fx := 0x41_8937

  const POSITION := FieldDesc("position", TVec2, None, Some(STEP), Some(MINUS_THOUSAND), Some(THOUSAND), None, None, None, 2.0)
  const HEALTH := FieldDesc("health", TFx, None, None, None, None, None, None, None, 1.0)
  const SCORE := FieldDesc("score", TUint, Some(10), None, None, None, None, None, None, 1.0)
  const ALIVE := FieldDesc("alive", TBool, None, None, None, None, None, None, None, 1.0)

  const PLAYER := ComponentDesc("Player", [POSITION, HEALTH, SCORE, ALIVE])

  lemma DigitsNext(n: nat, base: nat)
    requires 2 <= base <= 16
    ensures n < base ==> Digits(n, base) == [DIGITS[n]]
    ensures n >= base ==> 0 <= n % base < base && 0 <= n / base && Digits(n, base) == Digits(n / base, base) + [DIGITS[n % base]]
  {
    if n >= base {
      QuotientLess(n, base);
    }
  }

  lemma HexThousand()
    ensures Digits(0x3E8_0000_0000, 16) == "3e800000000"
  {
    HexSixteen();
    hide Digits;
    DigitsNext(0x3E80000, 16);
    DigitsNext(0x3E800000, 16);
    DigitsNext(0x3E8000000, 16);
    DigitsNext(0x3E80000000, 16);
    DigitsNext(0x3E800000000, 16);
  }

  lemma HexSixteen()
    ensures Digits(0x3E8000, 16) == "3e8000"
  {
    hide Digits;
    DigitsNext(0x3, 16);
    DigitsNext(0x3E, 16);
    DigitsNext(0x3E8, 16);
    DigitsNext(0x3E80, 16);
    DigitsNext(0x3E800, 16);
    DigitsNext(0x3E8000, 16);
  }

  lemma HexStep()
    ensures Digits(0x41_8937, 16) == "418937"
  {
    hide Digits;
    DigitsNext(0x4, 16);
    DigitsNext(0x41, 16);
    DigitsNext(0x418, 16);
    DigitsNext(0x4189, 16);
    DigitsNext(0x41893, 16);
    DigitsNext(0x418937, 16);
  }

  lemma Ten()
    ensures Decimal(10) == "10"
  {
    hide Digits;
    DigitsNext(1, 10);
    DigitsNext(10, 10);
  }

  lemma Rendered()
    ensures ShowFx(POSITION.max) == Some("0x" + "3e800000000")
    ensures ShowFx(POSITION.min) == Some("-0x" + "3e800000000")
    ensures ShowFx(POSITION.quantize) == Some("0x" + "418937")
    ensures ShowNat(SCORE.bits) == Some("10")
  {
    hide Digits, Decimal;
    HexThousand();
    HexStep();
    Ten();
  }

  /** A line with no parameter but these. */
  lemma LineOf(d: FieldDesc, max: string, min: string, quantize: string)
    requires d.bits.None? && d.maxLen.None? && d.quantizeBits.None? && d.variants.None?
    requires ShowFx(d.max) == Some(max) && ShowFx(d.min) == Some(min) && ShowFx(d.quantize) == Some(quantize)
    ensures FieldLine(d) == "  field " + d.name + " " + TypeName(d.ty) + (" " + "max" + "=" + max) + (" " + "min" + "=" + min)
                            + (" " + "quantize" + "=" + quantize)
  {
    hide RenderFx;
    NothingAdded("  field " + d.name + " " + TypeName(d.ty));
  }

  lemma NothingAdded(s: string)
    ensures s + "" == s
  {
  }

  lemma PlainLine(d: FieldDesc)
    requires d.bits.None? && d.maxLen.None? && d.quantizeBits.None? && d.variants.None?
    requires d.max.None? && d.min.None? && d.quantize.None?
    ensures FieldLine(d) == "  field " + d.name + " " + TypeName(d.ty)
  {
    NothingAdded("  field " + d.name + " " + TypeName(d.ty));
  }

  lemma BitsLine(d: FieldDesc, bits: string)
    requires ShowNat(d.bits) == Some(bits) && d.maxLen.None? && d.quantizeBits.None? && d.variants.None?
    requires d.max.None? && d.min.None? && d.quantize.None?
    ensures FieldLine(d) == "  field " + d.name + " " + TypeName(d.ty) + (" " + "bits" + "=" + bits)
  {
    hide Decimal;
    NothingAdded("  field " + d.name + " " + TypeName(d.ty) + (" " + "bits" + "=" + bits));
  }

  lemma SortNext<T>(s: seq<Named<T>>, x: Named<T>)
    ensures SortNamed(s + [x]) == InsertNamed(x, SortNamed(s))
  {
    assert (s + [x])[..|s|] == s;
  }

  lemma InsertNext<T>(x: Named<T>, s: seq<Named<T>>, last: Named<T>)
    ensures InsertNamed(x, s + [last]) == if StringLess(x.name, last.name) then InsertNamed(x, s) + [last] else s + [last, x]
  {
    assert (s + [last])[..|s|] == s;
    assert s + [last] + [x] == s + [last, x];
  }

  lemma Orders()
    ensures StringLess("health", "position") && !StringLess("score", "position") && StringLess("alive", "score")
    ensures StringLess("alive", "position") && StringLess("alive", "health")
  {
  }

  lemma SortsFour<T>(p: Named<T>, h: Named<T>, s: Named<T>, a: Named<T>)
    requires StringLess(h.name, p.name) && !StringLess(s.name, p.name)
    requires StringLess(a.name, s.name) && StringLess(a.name, p.name) && StringLess(a.name, h.name)
    ensures SortNamed([p, h, s, a]) == [a, h, p, s]
  {
    assert SortNamed<T>([]) == [];
    hide SortNamed, StringLess;
    SortNext([], p);
    SortNext([p], h);
    SortNext([p, h], s);
    SortNext([p, h, s], a);
    assert [] + [p] == [p] && [p] + [h] == [p, h] && [p, h] + [s] == [p, h, s] && [p, h, s] + [a] == [p, h, s, a];
    assert InsertNamed(p, []) == [p];
    assert InsertNamed(h, [p]) == [h, p] by { InsertNext(h, [], p); }
    assert InsertNamed(s, [h, p]) == [h, p, s] by { InsertNext(s, [h], p); assert [h] + [p] == [h, p]; }
    InsertsFirst(a, h, p, s);
  }

  lemma InsertsFirst<T>(a: Named<T>, h: Named<T>, p: Named<T>, s: Named<T>)
    requires StringLess(a.name, s.name) && StringLess(a.name, p.name) && StringLess(a.name, h.name)
    ensures InsertNamed(a, [h, p, s]) == [a, h, p, s]
  {
    hide StringLess;
    InsertNext(a, [h, p], s);
    InsertNext(a, [h], p);
    InsertNext(a, [], h);
    assert [h, p] + [s] == [h, p, s] && [h] + [p] == [h, p] && [] + [h] == [h];
    assert InsertNamed(a, []) == [a];
  }

  lemma FieldsSorted()
    ensures SortNamed(FieldsByName(PLAYER.fields)) ==
            [Named("alive", ALIVE), Named("health", HEALTH), Named("position", POSITION), Named("score", SCORE)]
  {
    Orders();
    hide StringLess;
    SortsFour(Named("position", POSITION), Named("health", HEALTH), Named("score", SCORE), Named("alive", ALIVE));
    assert FieldsByName(PLAYER.fields) ==
           [Named("position", POSITION), Named("health", HEALTH), Named("score", SCORE), Named("alive", ALIVE)];
  }

  lemma FieldsNext(fields: seq<Named<FieldDesc>>, last: Named<FieldDesc>)
    ensures FieldsText(fields + [last]) == FieldsText(fields) + "\n" + FieldLine(last.body)
  {
    assert (fields + [last])[..|fields|] == fields;
  }

  lemma FourLines(a: Named<FieldDesc>, h: Named<FieldDesc>, p: Named<FieldDesc>, s: Named<FieldDesc>)
    ensures FieldsText([a, h, p, s]) ==
            "\n" + FieldLine(a.body) + "\n" + FieldLine(h.body) + "\n" + FieldLine(p.body) + "\n" + FieldLine(s.body)
  {
    hide FieldLine, FieldsText;
    FirstLine(a);
    FieldsNext([a], h);
    FieldsNext([a, h], p);
    FieldsNext([a, h, p], s);
    assert [a] + [h] == [a, h];
    assert [a, h] + [p] == [a, h, p];
    assert [a, h, p] + [s] == [a, h, p, s];
  }

  lemma FirstLine(a: Named<FieldDesc>)
    ensures FieldsText([a]) == "\n" + FieldLine(a.body)
  {
    hide FieldLine;
    assert [a][..0] == [];
    assert FieldsText([]) == "";
    assert "" + "\n" == "\n";
  }

  /** The schema of the specification's example has the text given for it there. */
  lemma SpecificationExample()
    ensures CanonicalForm([PLAYER]) ==
            "tempo-schema 1" + "\ncomponent " + "Player"
            + ("\n" + ("  field " + "alive" + " " + "bool")
               + "\n" + ("  field " + "health" + " " + "fx")
               + "\n" + ("  field " + "position" + " " + "vec2" + (" " + "max" + "=" + ("0x" + "3e800000000"))
                         + (" " + "min" + "=" + ("-0x" + "3e800000000")) + (" " + "quantize" + "=" + ("0x" + "418937")))
               + "\n" + ("  field " + "score" + " " + "uint" + (" " + "bits" + "=" + "10")))
  {
    hide FieldLine, FieldsText, SortNamed, FieldsByName, ShowFx, ShowNat;
    Rendered();
    LineOf(POSITION, "0x" + "3e800000000", "-0x" + "3e800000000", "0x" + "418937");
    PlainLine(ALIVE);
    PlainLine(HEALTH);
    BitsLine(SCORE, "10");
    FieldsSorted();
    FourLines(Named("alive", ALIVE), Named("health", HEALTH), Named("position", POSITION), Named("score", SCORE));
    OneComponent(PLAYER);
  }

  lemma OneComponent(c: ComponentDesc)
    ensures CanonicalForm([c]) == HEADER + "\ncomponent " + c.name + FieldsText(SortNamed(FieldsByName(c.fields)))
  {
    hide FieldsText, FieldsByName;
    var n := Named(c.name, c);
    assert ComponentsByName([c]) == [n];
    assert [n][..0] == [];
    assert SortNamed([n]) == [n];
    assert ComponentsText([n]) == ComponentsText([]) + "\ncomponent " + c.name + FieldsText(SortNamed(FieldsByName(c.fields)));
  }
}
