/** The canonical text of a schema: how it is printed, and that two valid schemas print the
    same exactly when they differ only in declaration order and priority. */
module CanonicalText {
  import opened Common
  import opened Fixed
  import opened Schema

  // ----- numbers -----

  const DIGITS := "0123456789abcdef"

  function Digits(n: nat, base: nat): (s: string)
    requires 2 <= base <= 16
    ensures |s| > 0
    decreases n
  {
    if n < base then [DIGITS[n]]
    else
      assert n / base < n by { QuotientLess(n, base); }
      assert 0 <= n / base && 0 <= n % base < base;
      Digits(n / base, base) + [DIGITS[n % base]]
  }

  lemma QuotientLess(n: nat, base: nat)
    requires base >= 2 && n >= 1
    ensures 0 <= n / base < n
  {
    var q := n / base;
    assert n == base * q + n % base;
    if q < 0 {
      MulAtLeast(base, -q);
    }
    if q >= n {
      MulLess(q, 2, base);
    }
  }

  function DigitValue(c: char): nat {
    if '0' <= c <= '9' then (c - '0') as nat
    else if 'a' <= c <= 'f' then (c - 'a') as nat + 10
    else 0
  }

  function NumberOf(s: string, base: nat): nat {
    if s == [] then 0 else base * NumberOf(s[..|s| - 1], base) + DigitValue(s[|s| - 1])
  }

  lemma DigitReads(d: nat)
    requires d < 16
    ensures DigitValue(DIGITS[d]) == d
  {
  }

  lemma NumberSnoc(s: string, c: char, base: nat)
    ensures NumberOf(s + [c], base) == base * NumberOf(s, base) + DigitValue(c)
  {
    assert (s + [c])[..|s|] == s;
  }

  lemma {:induction false} DigitsRead(n: nat, base: nat)
    requires 2 <= base <= 16
    ensures NumberOf(Digits(n, base), base) == n
    decreases n
  {
    hide DigitValue, NumberOf;
    if n < base {
      DigitReads(n);
      NumberSnoc([], DIGITS[n], base);
      assert [] + [DIGITS[n]] == [DIGITS[n]];
      assert NumberOf([], base) == 0 by { NumberOfNothing(base); }
    } else {
      var q, r := n / base, n % base;
      QuotientLess(n, base);
      DigitReads(r);
      DigitsRead(q, base);
      NumberSnoc(Digits(q, base), DIGITS[r], base);
      assert n == base * q + r;
    }
  }

  lemma NumberOfNothing(base: nat)
    ensures NumberOf([], base) == 0
  {
  }

  lemma {:induction false} DigitsPlain(n: nat, base: nat)
    requires 2 <= base <= 16
    ensures Plain(Digits(n, base))
    decreases n
  {
    if n >= base {
      QuotientLess(n, base);
      DigitsPlain(n / base, base);
    }
  }

  function Decimal(n: nat): string {
    Digits(n, 10)
  }

  /** The raw value in lowercase hex, sign outside the prefix. */
  function RenderFx(v: Fx): string {
    if v < 0 then "-0x" + Digits(-(v as int), 16) else "0x" + Digits(v, 16)
  }

  lemma DecimalInjective(a: nat, b: nat)
    requires Decimal(a) == Decimal(b)
    ensures a == b
  {
    DigitsRead(a, 10);
    DigitsRead(b, 10);
  }

  lemma RenderInjective(a: Fx, b: Fx)
    requires RenderFx(a) == RenderFx(b)
    ensures a == b
  {
    hide Digits, NumberOf;
    var x, y := RenderFx(a), RenderFx(b);
    assert x[0] == y[0];
    assert (a < 0) == (b < 0);
    var u: nat, v: nat := if a < 0 then -(a as int) else a, if b < 0 then -(b as int) else b;
    if a < 0 {
      assert x[3..] == Digits(u, 16) && y[3..] == Digits(v, 16);
    } else {
      assert x[2..] == Digits(u, 16) && y[2..] == Digits(v, 16);
    }
    DigitsRead(u, 16);
    DigitsRead(v, 16);
  }

  // ----- words and lines -----

  /** Holds none of the characters that separate words, lines, or a key from its value. */
  predicate Plain(s: string) {
    forall i :: 0 <= i < |s| ==> s[i] != ' ' && s[i] != '\n' && s[i] != '='
  }

  predicate Free(s: string, sep: char) {
    forall i :: 0 <= i < |s| ==> s[i] != sep
  }

  predicate AllFree(parts: seq<string>, sep: char) {
    forall i :: 0 <= i < |parts| ==> Free(parts[i], sep)
  }

  function Join(parts: seq<string>, sep: char): string
    requires parts != []
  {
    if |parts| == 1 then parts[0] else Join(parts[..|parts| - 1], sep) + [sep] + parts[|parts| - 1]
  }

  /** What follows the last separator is determined by the text. */
  lemma LastPart(a: string, x: string, b: string, y: string, sep: char)
    requires Free(x, sep) && Free(y, sep) && a + [sep] + x == b + [sep] + y
    ensures a == b && x == y
  {
    var t := a + [sep] + x;
    assert t[|a|] == sep && t[|b|] == sep;
    assert forall i :: |a| < i < |t| ==> t[i] == x[i - |a| - 1];
    assert forall i :: |b| < i < |t| ==> t[i] == y[i - |b| - 1];
    assert |a| == |b|;
    assert t[..|a|] == a && t[..|b|] == b;
    assert t[|a| + 1..] == x && t[|b| + 1..] == y;
  }

  /** Joined parts that do not hold the separator are recovered from the text. */
  lemma {:induction false} JoinInjective(a: seq<string>, b: seq<string>, sep: char)
    requires a != [] && b != [] && AllFree(a, sep) && AllFree(b, sep)
    requires Join(a, sep) == Join(b, sep)
    ensures a == b
  {
    if |a| == 1 && |b| == 1 {
    } else if |a| == 1 {
      HasSeparator(b, sep);
    } else if |b| == 1 {
      HasSeparator(a, sep);
    } else {
      var ia, ib := a[..|a| - 1], b[..|b| - 1];
      LastPart(Join(ia, sep), a[|a| - 1], Join(ib, sep), b[|b| - 1], sep);
      JoinInjective(ia, ib, sep);
      assert a == ia + [a[|a| - 1]] && b == ib + [b[|b| - 1]];
    }
  }

  lemma HasSeparator(parts: seq<string>, sep: char)
    requires |parts| > 1
    ensures !Free(Join(parts, sep), sep)
  {
    var head := Join(parts[..|parts| - 1], sep);
    assert Join(parts, sep)[|head|] == sep;
  }

  lemma {:induction false} JoinFree(parts: seq<string>, sep: char, other: char)
    requires parts != [] && AllFree(parts, other) && sep != other
    ensures Free(Join(parts, sep), other)
  {
    if |parts| > 1 {
      JoinFree(parts[..|parts| - 1], sep, other);
    }
  }

  lemma JoinSnoc(parts: seq<string>, sep: char, last: string)
    requires parts != []
    ensures Join(parts + [last], sep) == Join(parts, sep) + [sep] + last
  {
    var all := parts + [last];
    assert all[..|all| - 1] == parts;
  }

  // ----- one field -----

  function TypeName(ty: FieldType): string {
    match ty
    case TBool => "bool"
    case TUint => "uint"
    case TInt => "int"
    case TFx => "fx"
    case TVec2 => "vec2"
    case TVec3 => "vec3"
    case TQuat => "quat"
    case TEnum => "enum"
    case TStr => "string"
    case TBytes => "bytes"
  }

  /** Parameter names in ascending byte order, and their renderings when set. */
  const KEYS: seq<string> := ["bits", "max", "max_len", "min", "quantize", "quantize_bits", "variants"]

  function ShowNat(o: Option<nat>): Option<string> {
    if o.None? then None else Some(Decimal(o.value))
  }

  function ShowFx(o: Option<Fx>): Option<string> {
    if o.None? then None else Some(RenderFx(o.value))
  }

  function Parameters(d: FieldDesc): (ps: seq<Option<string>>)
    ensures |ps| == |KEYS|
  {
    [ShowNat(d.bits), ShowFx(d.max), ShowNat(d.maxLen), ShowFx(d.min), ShowFx(d.quantize), ShowNat(d.quantizeBits),
     ShowNat(d.variants)]
  }

  function ParameterWords(keys: seq<string>, values: seq<Option<string>>): seq<string>
    requires |keys| == |values|
  {
    if keys == [] then []
    else
      var rest := ParameterWords(keys[1..], values[1..]);
      if values[0].Some? then [keys[0] + "=" + values[0].value] + rest else rest
  }

  /** The words of a field's line; the two leading spaces are two empty words. */
  function FieldWords(d: FieldDesc): seq<string> {
    ["", "", "field", d.name, TypeName(d.ty)] + ParameterWords(KEYS, Parameters(d))
  }

  // ----- the whole text, as it is written -----

  const HEADER := "tempo-schema 1"

  function Suffix(key: string, value: Option<string>): string {
    if value.Some? then " " + key + "=" + value.value else ""
  }

  /** A field's line. */
  function FieldLine(d: FieldDesc): string {
    "  field " + d.name + " " + TypeName(d.ty)
    + Suffix("bits", ShowNat(d.bits))
    + Suffix("max", ShowFx(d.max))
    + Suffix("max_len", ShowNat(d.maxLen))
    + Suffix("min", ShowFx(d.min))
    + Suffix("quantize", ShowFx(d.quantize))
    + Suffix("quantize_bits", ShowNat(d.quantizeBits))
    + Suffix("variants", ShowNat(d.variants))
  }

  /** A named declaration, for sorting. */
  datatype Named<T> = Named(name: string, body: T)

  predicate StringLess(a: string, b: string) {
    if b == [] then false
    else if a == [] then true
    else a[0] < b[0] || (a[0] == b[0] && StringLess(a[1..], b[1..]))
  }

  function InsertNamed<T>(x: Named<T>, s: seq<Named<T>>): (r: seq<Named<T>>)
    ensures |r| == |s| + 1
  {
    if s == [] then [x]
    else if StringLess(x.name, s[|s| - 1].name) then InsertNamed(x, s[..|s| - 1]) + [s[|s| - 1]]
    else s + [x]
  }

  /** The stable sort by name. */
  function SortNamed<T>(s: seq<Named<T>>): (r: seq<Named<T>>)
    ensures |r| == |s|
  {
    if s == [] then [] else InsertNamed(s[|s| - 1], SortNamed(s[..|s| - 1]))
  }

  function FieldsByName(fields: seq<FieldDesc>): (r: seq<Named<FieldDesc>>)
    ensures |r| == |fields|
  {
    seq(|fields|, i requires 0 <= i < |fields| => Named(fields[i].name, fields[i]))
  }

  function ComponentsByName(components: seq<ComponentDesc>): (r: seq<Named<ComponentDesc>>)
    ensures |r| == |components|
  {
    seq(|components|, i requires 0 <= i < |components| => Named(components[i].name, components[i]))
  }

  function FieldsText(fields: seq<Named<FieldDesc>>): string {
    if fields == [] then ""
    else FieldsText(fields[..|fields| - 1]) + "\n" + FieldLine(fields[|fields| - 1].body)
  }

  function ComponentsText(components: seq<Named<ComponentDesc>>): string {
    if components == [] then ""
    else
      var c := components[|components| - 1].body;
      ComponentsText(components[..|components| - 1]) + "\ncomponent " + c.name + FieldsText(SortNamed(FieldsByName(c.fields)))
  }

  function CanonicalForm(components: seq<ComponentDesc>): string {
    HEADER + ComponentsText(SortNamed(ComponentsByName(components)))
  }

  // ----- a field's line, read back -----

  function Suffixes(keys: seq<string>, values: seq<Option<string>>): string
    requires |keys| == |values|
  {
    if keys == [] then "" else Suffixes(keys[..|keys| - 1], values[..|keys| - 1]) + Suffix(keys[|keys| - 1], values[|keys| - 1])
  }

  lemma SuffixesSnoc(keys: seq<string>, values: seq<Option<string>>, key: string, value: Option<string>)
    requires |keys| == |values|
    ensures Suffixes(keys + [key], values + [value]) == Suffixes(keys, values) + Suffix(key, value)
  {
    var ks, vs := keys + [key], values + [value];
    assert ks[..|ks| - 1] == keys && vs[..|ks| - 1] == values;
  }

  lemma {:induction false} ParameterWordsSnoc(keys: seq<string>, values: seq<Option<string>>, key: string, value: Option<string>)
    requires |keys| == |values|
    ensures ParameterWords(keys + [key], values + [value]) ==
            ParameterWords(keys, values) + ParameterWord(key, value)
  {
    var ks, vs := keys + [key], values + [value];
    if keys == [] {
      assert ks[1..] == [] && vs[1..] == [];
    } else {
      assert ks[1..] == keys[1..] + [key] && vs[1..] == values[1..] + [value];
      ParameterWordsSnoc(keys[1..], values[1..], key, value);
    }
  }

  /** Parameters appended as text are parameters appended as words. */
  lemma {:induction false} ParametersJoin(words: seq<string>, keys: seq<string>, values: seq<Option<string>>)
    requires words != [] && |keys| == |values|
    ensures Join(words + ParameterWords(keys, values), ' ') == Join(words, ' ') + Suffixes(keys, values)
  {
    hide Join, ParameterWords, Suffixes;
    if keys == [] {
      NoParametersJoin(words);
    } else {
      var n := |keys| - 1;
      ParametersJoin(words, keys[..n], values[..n]);
      ParametersJoinNext(words, keys[..n], values[..n], keys[n], values[n]);
      assert keys == keys[..n] + [keys[n]] && values == values[..n] + [values[n]];
    }
  }

  lemma NoParametersJoin(words: seq<string>)
    requires words != []
    ensures Join(words + ParameterWords([], []), ' ') == Join(words, ' ') + Suffixes([], [])
  {
    hide Join;
    assert words + ParameterWords([], []) == words;
  }

  lemma ParametersJoinNext(words: seq<string>, ks: seq<string>, vs: seq<Option<string>>, key: string, value: Option<string>)
    requires words != [] && |ks| == |vs|
    requires Join(words + ParameterWords(ks, vs), ' ') == Join(words, ' ') + Suffixes(ks, vs)
    ensures Join(words + ParameterWords(ks + [key], vs + [value]), ' ') ==
            Join(words, ' ') + Suffixes(ks + [key], vs + [value])
  {
    hide Join, Suffix, ParameterWords, Suffixes, ParameterWord;
    ParameterWordsSnoc(ks, vs, key, value);
    SuffixesSnoc(ks, vs, key, value);
    var before := words + ParameterWords(ks, vs);
    ParameterJoins(before, key, value);
    assert words + ParameterWords(ks + [key], vs + [value]) == before + ParameterWord(key, value);
  }

  function ParameterWord(key: string, value: Option<string>): seq<string> {
    if value.Some? then [key + "=" + value.value] else []
  }

  lemma ParameterJoins(words: seq<string>, key: string, value: Option<string>)
    requires words != []
    ensures Join(words + ParameterWord(key, value), ' ') == Join(words, ' ') + Suffix(key, value)
  {
    if value.Some? {
      JoinSnoc(words, ' ', key + "=" + value.value);
      assert Suffix(key, value) == [' '] + (key + "=" + value.value);
    } else {
      assert words + [] == words;
    }
  }

  lemma SuffixesOfSeven(ks: seq<string>, vs: seq<Option<string>>)
    requires |ks| == |vs| == 7
    ensures Suffixes(ks, vs) ==
            Suffix(ks[0], vs[0]) + Suffix(ks[1], vs[1]) + Suffix(ks[2], vs[2]) + Suffix(ks[3], vs[3])
            + Suffix(ks[4], vs[4]) + Suffix(ks[5], vs[5]) + Suffix(ks[6], vs[6])
  {
    hide Suffix, Suffixes;
    FirstSuffix(ks, vs);
    SuffixesUpTo(ks, vs, 2);
    SuffixesUpTo(ks, vs, 3);
    SuffixesUpTo(ks, vs, 4);
    SuffixesUpTo(ks, vs, 5);
    SuffixesUpTo(ks, vs, 6);
    SuffixesUpTo(ks, vs, 7);
    WholePrefix(ks, 7);
    WholePrefix(vs, 7);
  }

  lemma FirstSuffix(ks: seq<string>, vs: seq<Option<string>>)
    requires |ks| == |vs| >= 1
    ensures Suffixes(ks[..1], vs[..1]) == Suffix(ks[0], vs[0])
  {
    hide Suffix, Suffixes;
    NoSuffixes(ks, vs);
    SuffixesUpTo(ks, vs, 1);
    assert "" + Suffix(ks[0], vs[0]) == Suffix(ks[0], vs[0]);
  }

  lemma WholePrefix<T>(s: seq<T>, n: nat)
    requires |s| == n
    ensures s[..n] == s
  {
  }

  lemma NoSuffixes(ks: seq<string>, vs: seq<Option<string>>)
    requires |ks| == |vs|
    ensures Suffixes(ks[..0], vs[..0]) == ""
  {
  }

  lemma SuffixesUpTo(ks: seq<string>, vs: seq<Option<string>>, n: nat)
    requires |ks| == |vs| && 0 < n <= |ks|
    ensures Suffixes(ks[..n], vs[..n]) == Suffixes(ks[..n - 1], vs[..n - 1]) + Suffix(ks[n - 1], vs[n - 1])
  {
    assert ks[..n] == ks[..n - 1] + [ks[n - 1]] && vs[..n] == vs[..n - 1] + [vs[n - 1]];
    SuffixesSnoc(ks[..n - 1], vs[..n - 1], ks[n - 1], vs[n - 1]);
  }

  function FirstWords(d: FieldDesc): seq<string> {
    ["", "", "field", d.name, TypeName(d.ty)]
  }

  lemma FirstJoin(d: FieldDesc)
    ensures Join(FirstWords(d), ' ') == "  field " + d.name + " " + TypeName(d.ty)
  {
    var n, t := d.name, TypeName(d.ty);
    JoinSnoc([""], ' ', "");
    JoinSnoc(["", ""], ' ', "field");
    JoinSnoc(["", "", "field"], ' ', n);
    JoinSnoc(["", "", "field", n], ' ', t);
    assert [""] + [""] == ["", ""];
    assert ["", ""] + ["field"] == ["", "", "field"];
    assert ["", "", "field"] + [n] == ["", "", "field", n];
    assert ["", "", "field", n] + [t] == FirstWords(d);
    assert Join(["", "", "field"], ' ') == "  field";
    assert "  field" + [' '] + n == "  field " + n;
  }

  /** A field's line is its words, joined. */
  lemma LineIsWords(d: FieldDesc)
    ensures FieldLine(d) == Join(FieldWords(d), ' ')
  {
    hide Suffix, Join, ParameterWords, Suffixes, ShowNat, ShowFx, TypeName;
    ParametersJoin(FirstWords(d), KEYS, Parameters(d));
    SuffixesOfSeven(KEYS, Parameters(d));
    FirstJoin(d);
    var p := Parameters(d);
    var first := "  field " + d.name + " " + TypeName(d.ty);
    Associate(first, Suffix(KEYS[0], p[0]), Suffix(KEYS[1], p[1]), Suffix(KEYS[2], p[2]), Suffix(KEYS[3], p[3]),
              Suffix(KEYS[4], p[4]), Suffix(KEYS[5], p[5]), Suffix(KEYS[6], p[6]));
  }

  lemma Associate(f: string, a: string, b: string, c: string, d: string, e: string, g: string, h: string)
    ensures f + (a + b + c + d + e + g + h) == f + a + b + c + d + e + g + h
  {
  }

  /** Each set parameter's word begins with its key, so a list of them is read back key by
      key. */
  lemma {:induction false} ParametersInjective(keys: seq<string>, a: seq<Option<string>>, b: seq<Option<string>>)
    requires |keys| == |a| == |b|
    requires forall i :: 0 <= i < |keys| ==> Free(keys[i], '=')
    requires forall i, j :: 0 <= i < j < |keys| ==> keys[i] != keys[j]
    requires ParameterWords(keys, a) == ParameterWords(keys, b)
    ensures a == b
  {
    if keys != [] {
      var key, ks := keys[0], keys[1..];
      var wa, wb := ParameterWords(ks, a[1..]), ParameterWords(ks, b[1..]);
      if a[0].Some? {
        FirstKey(ks, b[1..], key, a[0].value);
      }
      if b[0].Some? {
        FirstKey(ks, a[1..], key, b[0].value);
      }
      if a[0].Some? && b[0].Some? {
        assert ParameterWords(keys, a)[0] == key + "=" + a[0].value;
        assert ParameterWords(keys, b)[0] == key + "=" + b[0].value;
        SameKey(key, a[0].value, key, b[0].value);
        assert wa == ParameterWords(keys, a)[1..] && wb == ParameterWords(keys, b)[1..];
      }
      ParametersInjective(ks, a[1..], b[1..]);
      assert a == [a[0]] + a[1..] && b == [b[0]] + b[1..];
    }
  }

  lemma SameKey(k: string, v: string, l: string, w: string)
    requires Free(k, '=') && Free(l, '=') && k + "=" + v == l + "=" + w
    ensures k == l && v == w
  {
    var t := k + "=" + v;
    assert t[|k|] == '=' && t[|l|] == '=';
    assert forall i :: 0 <= i < |k| ==> t[i] == k[i];
    assert forall i :: 0 <= i < |l| ==> t[i] == l[i];
    assert |k| == |l|;
    assert t[..|k|] == k && t[..|l|] == l;
    assert t[|k| + 1..] == v && t[|l| + 1..] == w;
  }

  /** No later parameter's word could have been written for `key`. */
  lemma {:induction false} FirstKey(keys: seq<string>, values: seq<Option<string>>, key: string, value: string)
    requires |keys| == |values| && Free(key, '=')
    requires forall i :: 0 <= i < |keys| ==> Free(keys[i], '=') && keys[i] != key
    ensures var ws := ParameterWords(keys, values); ws != [] ==> ws[0] != key + "=" + value
  {
    if keys != [] {
      if values[0].Some? {
        if keys[0] + "=" + values[0].value == key + "=" + value {
          SameKey(keys[0], values[0].value, key, value);
        }
      } else {
        FirstKey(keys[1..], values[1..], key, value);
      }
    }
  }

  /** The declaration without its priority: what the text carries. */
  function Strip(d: FieldDesc): FieldDesc {
    d.(basePriority := 1.0)
  }

  lemma KeysDistinct()
    ensures forall i :: 0 <= i < |KEYS| ==> Free(KEYS[i], '=')
    ensures forall i :: 0 <= i < |KEYS| ==> Free(KEYS[i], ' ') && Free(KEYS[i], '\n')
    ensures forall i, j :: 0 <= i < j < |KEYS| ==> KEYS[i] != KEYS[j]
  {
    assert KEYS[0] == "bits" && KEYS[1] == "max" && KEYS[2] == "max_len" && KEYS[3] == "min";
    assert KEYS[4] == "quantize" && KEYS[5] == "quantize_bits" && KEYS[6] == "variants";
    assert |KEYS[0]| == 4 && |KEYS[1]| == 3 && |KEYS[2]| == 7 && |KEYS[3]| == 3;
    assert |KEYS[4]| == 8 && |KEYS[5]| == 13 && |KEYS[6]| == 8;
    assert KEYS[1][1] != KEYS[3][1] && KEYS[4][0] != KEYS[6][0];
  }

  lemma ShowNatInjective(a: Option<nat>, b: Option<nat>)
    requires ShowNat(a) == ShowNat(b)
    ensures a == b
  {
    if a.Some? && b.Some? {
      DecimalInjective(a.value, b.value);
    }
  }

  lemma ShowFxInjective(a: Option<Fx>, b: Option<Fx>)
    requires ShowFx(a) == ShowFx(b)
    ensures a == b
  {
    if a.Some? && b.Some? {
      RenderInjective(a.value, b.value);
    }
  }

  lemma TypeNameInjective(a: FieldType, b: FieldType)
    requires TypeName(a) == TypeName(b)
    ensures a == b
  {
    TypeNameLetters(a);
    TypeNameLetters(b);
  }

  lemma TypeNameLetters(a: FieldType)
    ensures var t := TypeName(a);
            && |t| >= 2
            && (a.TFx? <==> |t| == 2) && (a.TInt? <==> |t| == 3) && (a.TBytes? <==> |t| == 5) && (a.TStr? <==> |t| == 6)
            && (a.TBool? <==> t[0] == 'b' && t[1] == 'o') && (a.TUint? <==> t[0] == 'u') && (a.TQuat? <==> t[0] == 'q')
            && (a.TEnum? <==> t[0] == 'e') && (a.TVec2? <==> t[0] == 'v' && |t| == 4 && t[3] == '2')
            && (a.TVec3? <==> t[0] == 'v' && |t| == 4 && t[3] == '3')
  {
  }

  /** A field's words determine everything about it but its priority. */
  lemma WordsInjective(a: FieldDesc, b: FieldDesc)
    requires FieldWords(a) == FieldWords(b)
    ensures Strip(a) == Strip(b)
  {
    hide ParameterWords, TypeName, ShowNat, ShowFx;
    var wa, wb := FieldWords(a), FieldWords(b);
    assert wa[3] == a.name && wb[3] == b.name && wa[4] == TypeName(a.ty) && wb[4] == TypeName(b.ty);
    TypeNameInjective(a.ty, b.ty);
    assert wa[5..] == ParameterWords(KEYS, Parameters(a)) && wb[5..] == ParameterWords(KEYS, Parameters(b));
    KeysDistinct();
    ParametersInjective(KEYS, Parameters(a), Parameters(b));
    var pa, pb := Parameters(a), Parameters(b);
    assert pa[0] == pb[0] && pa[1] == pb[1] && pa[2] == pb[2] && pa[3] == pb[3];
    assert pa[4] == pb[4] && pa[5] == pb[5] && pa[6] == pb[6];
    ShowNatInjective(a.bits, b.bits);
    ShowFxInjective(a.max, b.max);
    ShowNatInjective(a.maxLen, b.maxLen);
    ShowFxInjective(a.min, b.min);
    ShowFxInjective(a.quantize, b.quantize);
    ShowNatInjective(a.quantizeBits, b.quantizeBits);
    ShowNatInjective(a.variants, b.variants);
  }
}
