/** When two schemas have the same canonical text, and the registry and printer that build
    it. */
module CanonicalSchemas {
  import opened Common
  import opened Fixed
  import opened Bits
  import opened Schema
  import opened CanonicalText

  // ----- sorting by name -----

  ghost predicate StrictNamed<T>(s: seq<Named<T>>) {
    forall i, j :: 0 <= i < j < |s| ==> StringLess(s[i].name, s[j].name)
  }

  ghost predicate DistinctNames<T>(s: seq<Named<T>>) {
    forall i, j :: 0 <= i < j < |s| ==> s[i].name != s[j].name
  }

  lemma {:induction false} LessTotal(a: string, b: string)
    ensures a == b || StringLess(a, b) || StringLess(b, a)
    ensures !(StringLess(a, b) && StringLess(b, a))
    ensures !StringLess(a, a)
  {
    if a != [] {
      LessTotal(a[1..], a[1..]);
      if b != [] {
        LessTotal(a[1..], b[1..]);
        assert a == [a[0]] + a[1..] && b == [b[0]] + b[1..];
      }
    }
  }

  lemma {:induction false} LessTransitive(a: string, b: string, c: string)
    requires StringLess(a, b) && StringLess(b, c)
    ensures StringLess(a, c)
  {
    if a != [] && a[0] == b[0] == c[0] {
      LessTransitive(a[1..], b[1..], c[1..]);
    }
  }

  lemma {:induction false} InsertMember<T>(x: Named<T>, s: seq<Named<T>>, y: Named<T>)
    ensures y in InsertNamed(x, s) <==> y == x || y in s
  {
    if s != [] {
      assert s == s[..|s| - 1] + [s[|s| - 1]];
      InsertMember(x, s[..|s| - 1], y);
    }
  }

  lemma {:induction false} InsertStrict<T>(x: Named<T>, s: seq<Named<T>>)
    requires StrictNamed(s) && forall i :: 0 <= i < |s| ==> s[i].name != x.name
    ensures StrictNamed(InsertNamed(x, s))
  {
    hide StringLess;
    if s != [] {
      var init, last := s[..|s| - 1], s[|s| - 1];
      LessTotal(x.name, last.name);
      if StringLess(x.name, last.name) {
        InsertStrict(x, init);
        var r := InsertNamed(x, init);
        forall i | 0 <= i < |r|
          ensures StringLess(r[i].name, last.name)
        {
          assert r[i] in r;
          InsertMember(x, init, r[i]);
          if r[i] != x {
            var j :| 0 <= j < |init| && init[j] == r[i];
          }
        }
      } else {
        forall i | 0 <= i < |init|
          ensures StringLess(s[i].name, x.name)
        {
          LessTransitive(s[i].name, last.name, x.name);
        }
      }
    }
  }

  lemma {:induction false} SortMember<T>(s: seq<Named<T>>, y: Named<T>)
    ensures y in SortNamed(s) <==> y in s
  {
    if s != [] {
      var init, last := s[..|s| - 1], s[|s| - 1];
      assert s == init + [last];
      SortMember(init, y);
      InsertMember(last, SortNamed(init), y);
    }
  }

  /** Sorting distinct names leaves them strictly ascending. */
  lemma {:induction false} SortStrict<T>(s: seq<Named<T>>)
    requires DistinctNames(s)
    ensures StrictNamed(SortNamed(s))
  {
    hide StringLess, InsertNamed;
    if s != [] {
      var init, last := s[..|s| - 1], s[|s| - 1];
      SortStrict(init);
      forall i | 0 <= i < |SortNamed(init)|
        ensures SortNamed(init)[i].name != last.name
      {
        SortMember(init, SortNamed(init)[i]);
        assert SortNamed(init)[i] in SortNamed(init);
        var j :| 0 <= j < |init| && init[j] == SortNamed(init)[i];
      }
      InsertStrict(last, SortNamed(init));
    }
  }

  lemma SameButLast<T>(a: seq<Named<T>>, b: seq<Named<T>>, last: Named<T>)
    requires StrictNamed(a + [last]) && forall x :: x in a + [last] ==> x in b + [last]
    ensures forall x :: x in a ==> x in b
  {
    hide StringLess;
    var all := a + [last];
    forall x | x in a
      ensures x in b
    {
      var i :| 0 <= i < |a| && a[i] == x;
      assert all[i] == x && all[|a|] == last;
      LessTotal(x.name, x.name);
      assert x in all;
    }
  }

  lemma LastIsGreatest<T>(a: seq<Named<T>>, b: seq<Named<T>>)
    requires a != [] && b != [] && StrictNamed(a) && StrictNamed(b) && forall x :: x in a <==> x in b
    ensures a[|a| - 1] == b[|b| - 1]
  {
    hide StringLess;
    var la, lb := a[|a| - 1], b[|b| - 1];
    assert la in a && lb in b;
    var i :| 0 <= i < |b| && b[i] == la;
    var j :| 0 <= j < |a| && a[j] == lb;
    LessTotal(la.name, lb.name);
  }

  lemma SomeMember<T>(s: seq<T>)
    ensures s != [] ==> exists x :: x in s
  {
    if s != [] {
      assert s[0] in s;
    }
  }

  /** Only one strictly ascending list has given members. */
  lemma {:induction false} StrictNamedUnique<T>(a: seq<Named<T>>, b: seq<Named<T>>)
    requires StrictNamed(a) && StrictNamed(b) && forall x :: x in a <==> x in b
    ensures a == b
  {
    hide StringLess;
    SomeMember(a);
    SomeMember(b);
    if a != [] {
      LastIsGreatest(a, b);
      var ia, ib, last := a[..|a| - 1], b[..|b| - 1], a[|a| - 1];
      assert a == ia + [last] && b == ib + [last];
      SameButLast(ia, ib, last);
      SameButLast(ib, ia, last);
      StrictNamedUnique(ia, ib);
    }
  }

  // ----- the normal form: what the text carries -----

  function NormalField(f: Named<FieldDesc>): Named<FieldDesc> {
    Named(f.name, Strip(f.body))
  }

  function NormalFieldsOf(fields: seq<Named<FieldDesc>>): (r: seq<Named<FieldDesc>>)
    ensures |r| == |fields|
  {
    seq(|fields|, i requires 0 <= i < |fields| => NormalField(fields[i]))
  }

  /** A component's fields by name, without their priorities. */
  function NormalFields(c: ComponentDesc): seq<Named<FieldDesc>> {
    NormalFieldsOf(SortNamed(FieldsByName(c.fields)))
  }

  type Normal = seq<Named<seq<Named<FieldDesc>>>>

  function NormalOf(components: seq<Named<ComponentDesc>>): (r: Normal)
    ensures |r| == |components|
  {
    seq(|components|, i requires 0 <= i < |components| =>
      Named(components[i].body.name, NormalFields(components[i].body)))
  }

  function NormalForm(components: seq<ComponentDesc>): Normal {
    NormalOf(SortNamed(ComponentsByName(components)))
  }

  /** What registration accepts. */
  ghost predicate SchemaValid(components: seq<ComponentDesc>) {
    && (forall i :: 0 <= i < |components| ==> ComponentValid(components[i]))
    && (forall i, j :: 0 <= i < j < |components| ==> components[i].name != components[j].name)
  }

  /** A schema up to declaration order and priority: which components it has, and for each
      the set of its fields' declarations. */
  ghost function Shape(components: seq<ComponentDesc>): set<(string, set<FieldDesc>)> {
    set c | c in components :: (c.name, FieldSet(c))
  }

  ghost function FieldSet(c: ComponentDesc): set<FieldDesc> {
    set f | f in c.fields :: Strip(f)
  }

  lemma NormalFieldsAre(c: ComponentDesc)
    requires ComponentValid(c)
    ensures StrictNamed(NormalFields(c))
    ensures forall x :: x in NormalFields(c) <==> x.body in FieldSet(c) && x.name == x.body.name
  {
    hide StringLess, SortNamed;
    var named := FieldsByName(c.fields);
    var sorted := SortNamed(named);
    SortStrict(named);
    var normal := NormalFields(c);
    forall x
      ensures x in normal <==> x.body in FieldSet(c) && x.name == x.body.name
    {
      if x in normal {
        var i :| 0 <= i < |normal| && normal[i] == x;
        assert sorted[i] in sorted;
        SortMember(named, sorted[i]);
        var j :| 0 <= j < |named| && named[j] == sorted[i];
        assert c.fields[j] in c.fields;
      }
      if x.body in FieldSet(c) && x.name == x.body.name {
        var f :| f in c.fields && Strip(f) == x.body;
        var j :| 0 <= j < |c.fields| && c.fields[j] == f;
        assert named[j] in named;
        SortMember(named, named[j]);
        var i :| 0 <= i < |sorted| && sorted[i] == named[j];
        assert normal[i] == x;
      }
    }
  }

  /** Fields are a set exactly as far as their sorted list is concerned. */
  lemma NormalFieldsBySet(c: ComponentDesc, d: ComponentDesc)
    requires ComponentValid(c) && ComponentValid(d)
    ensures NormalFields(c) == NormalFields(d) <==> FieldSet(c) == FieldSet(d)
  {
    hide NormalFields, FieldSet, StrictNamed, ComponentValid;
    NormalFieldsAre(c);
    NormalFieldsAre(d);
    if FieldSet(c) == FieldSet(d) {
      StrictNamedUnique(NormalFields(c), NormalFields(d));
    }
    if NormalFields(c) == NormalFields(d) {
      FieldSetIncludes(c, d);
      FieldSetIncludes(d, c);
    }
  }

  lemma FieldSetIncludes(c: ComponentDesc, d: ComponentDesc)
    requires ComponentValid(c) && ComponentValid(d) && NormalFields(c) == NormalFields(d)
    ensures FieldSet(c) <= FieldSet(d)
  {
    hide NormalFields, FieldSet, StrictNamed, ComponentValid;
    NormalFieldsAre(c);
    NormalFieldsAre(d);
    forall f | f in FieldSet(c)
      ensures f in FieldSet(d)
    {
      assert Named(f.name, f) in NormalFields(c);
    }
  }

  lemma NormalFormIs(components: seq<ComponentDesc>)
    requires SchemaValid(components)
    ensures StrictNamed(NormalForm(components))
    ensures forall x :: x in NormalForm(components) <==>
              exists c :: c in components && x == Named(c.name, NormalFields(c))
  {
    hide StringLess, SortNamed, NormalFields, ComponentValid;
    var named := ComponentsByName(components);
    var sorted := SortNamed(named);
    SortStrict(named);
    var normal := NormalForm(components);
    forall i | 0 <= i < |sorted|
      ensures sorted[i].body in components && sorted[i].name == sorted[i].body.name
    {
      assert sorted[i] in sorted;
      SortMember(named, sorted[i]);
      var j :| 0 <= j < |named| && named[j] == sorted[i];
    }
    forall c | c in components
      ensures Named(c.name, NormalFields(c)) in normal
    {
      var j :| 0 <= j < |components| && components[j] == c;
      assert named[j] in named;
      SortMember(named, named[j]);
      var i :| 0 <= i < |sorted| && sorted[i] == named[j];
      assert normal[i] == Named(c.name, NormalFields(c));
    }
    forall x | x in normal
      ensures exists c :: c in components && x == Named(c.name, NormalFields(c))
    {
      var i :| 0 <= i < |normal| && normal[i] == x;
      assert sorted[i].body in components;
    }
  }

  lemma NormalIncludes(a: seq<ComponentDesc>, b: seq<ComponentDesc>)
    requires SchemaValid(a) && SchemaValid(b) && Shape(a) <= Shape(b)
    ensures forall x :: x in NormalForm(a) ==> x in NormalForm(b)
  {
    hide NormalForm, NormalFields, FieldSet, ComponentValid, StrictNamed;
    NormalFormIs(a);
    NormalFormIs(b);
    forall x | x in NormalForm(a)
      ensures x in NormalForm(b)
    {
      var c :| c in a && x == Named(c.name, NormalFields(c));
      assert (c.name, FieldSet(c)) in Shape(b);
      var d :| d in b && (d.name, FieldSet(d)) == (c.name, FieldSet(c));
      NormalFieldsBySet(c, d);
    }
  }

  lemma ShapeIncludes(a: seq<ComponentDesc>, b: seq<ComponentDesc>)
    requires SchemaValid(a) && SchemaValid(b) && NormalForm(a) == NormalForm(b)
    ensures Shape(a) <= Shape(b)
  {
    hide NormalForm, NormalFields, FieldSet, ComponentValid, StrictNamed;
    NormalFormIs(a);
    NormalFormIs(b);
    forall s | s in Shape(a)
      ensures s in Shape(b)
    {
      var c :| c in a && s == (c.name, FieldSet(c));
      assert Named(c.name, NormalFields(c)) in NormalForm(b);
      var d :| d in b && Named(c.name, NormalFields(c)) == Named(d.name, NormalFields(d));
      NormalFieldsBySet(c, d);
      assert (d.name, FieldSet(d)) in Shape(b);
    }
  }

  lemma ShapeIsNormal(a: seq<ComponentDesc>, b: seq<ComponentDesc>)
    requires SchemaValid(a) && SchemaValid(b)
    ensures Shape(a) == Shape(b) <==> NormalForm(a) == NormalForm(b)
  {
    hide NormalForm, Shape, StrictNamed;
    NormalFormIs(a);
    NormalFormIs(b);
    if Shape(a) == Shape(b) {
      NormalIncludes(a, b);
      NormalIncludes(b, a);
      StrictNamedUnique(NormalForm(a), NormalForm(b));
    }
    if NormalForm(a) == NormalForm(b) {
      ShapeIncludes(a, b);
      ShapeIncludes(b, a);
    }
  }

  // ----- the text as lines of words -----

  type Line = seq<string>

  function FieldLines(fields: seq<Named<FieldDesc>>): seq<Line> {
    if fields == [] then [] else FieldLines(fields[..|fields| - 1]) + [FieldWords(fields[|fields| - 1].body)]
  }

  function BodyLines(normal: Normal): seq<Line> {
    if normal == [] then []
    else
      var c := normal[|normal| - 1];
      BodyLines(normal[..|normal| - 1]) + ([["component", c.name]] + FieldLines(c.body))
  }

  function Lines(normal: Normal): seq<Line> {
    [["tempo-schema", "1"]] + BodyLines(normal)
  }

  /** A line is at least one word, and no word holds a separator. */
  predicate LineOk(line: Line) {
    line != [] && AllFree(line, ' ') && AllFree(line, '\n')
  }

  predicate LinesOk(lines: seq<Line>) {
    forall i :: 0 <= i < |lines| ==> LineOk(lines[i])
  }

  function JoinLines(lines: seq<Line>): (r: seq<string>)
    requires LinesOk(lines)
    ensures |r| == |lines|
  {
    seq(|lines|, i requires 0 <= i < |lines| => Join(lines[i], ' '))
  }

  function TextOf(lines: seq<Line>): string
    requires LinesOk(lines) && lines != []
  {
    Join(JoinLines(lines), '\n')
  }

  /** Text determines its lines, and each line its words. */
  lemma TextInjective(a: seq<Line>, b: seq<Line>)
    requires LinesOk(a) && LinesOk(b) && a != [] && b != [] && TextOf(a) == TextOf(b)
    ensures a == b
  {
    hide Join;
    forall i | 0 <= i < |a| ensures Free(JoinLines(a)[i], '\n') { JoinFree(a[i], ' ', '\n'); }
    forall i | 0 <= i < |b| ensures Free(JoinLines(b)[i], '\n') { JoinFree(b[i], ' ', '\n'); }
    JoinInjective(JoinLines(a), JoinLines(b), '\n');
    forall i | 0 <= i < |a|
      ensures a[i] == b[i]
    {
      assert JoinLines(a)[i] == JoinLines(b)[i];
      JoinInjective(a[i], b[i], ' ');
    }
  }

  lemma TextSnoc(lines: seq<Line>, line: Line)
    requires LinesOk(lines) && lines != [] && LineOk(line)
    ensures LinesOk(lines + [line])
    ensures TextOf(lines + [line]) == TextOf(lines) + "\n" + Join(line, ' ')
  {
    hide Join;
    assert JoinLines(lines + [line]) == JoinLines(lines) + [Join(line, ' ')];
    JoinSnoc(JoinLines(lines), '\n', Join(line, ' '));
  }

  // ----- the printer writes those lines -----

  lemma PlainFree(s: string)
    requires Plain(s)
    ensures Free(s, ' ') && Free(s, '\n') && Free(s, '=')
  {
  }

  lemma IdentifierPlain(s: string)
    requires IsIdentifier(s)
    ensures Plain(s)
  {
  }

  lemma {:induction false} ParameterWordsOk(keys: seq<string>, values: seq<Option<string>>)
    requires |keys| == |values|
    requires forall i :: 0 <= i < |keys| ==> Free(keys[i], ' ') && Free(keys[i], '\n')
    requires forall i :: 0 <= i < |values| && values[i].Some? ==> Plain(values[i].value)
    ensures AllFree(ParameterWords(keys, values), ' ') && AllFree(ParameterWords(keys, values), '\n')
  {
    if keys != [] {
      ParameterWordsOk(keys[1..], values[1..]);
    }
  }

  lemma RenderPlain(v: Fx)
    ensures Plain(RenderFx(v))
  {
    DigitsPlain(if v < 0 then -(v as int) else v, 16);
  }

  lemma ParametersPlain(d: FieldDesc)
    ensures forall i :: 0 <= i < |KEYS| && Parameters(d)[i].Some? ==> Plain(Parameters(d)[i].value)
  {
    hide RenderFx, Digits, Plain;
    forall v: nat ensures Plain(Decimal(v)) { DigitsPlain(v, 10); }
    forall v: Fx ensures Plain(RenderFx(v)) { RenderPlain(v); }
    var p := Parameters(d);
    assert p[0] == ShowNat(d.bits) && p[1] == ShowFx(d.max) && p[2] == ShowNat(d.maxLen) && p[3] == ShowFx(d.min);
    assert p[4] == ShowFx(d.quantize) && p[5] == ShowNat(d.quantizeBits) && p[6] == ShowNat(d.variants);
  }

  lemma TypeNamePlain(t: FieldType)
    ensures Plain(TypeName(t))
  {
  }

  lemma FieldLineOk(d: FieldDesc)
    requires IsIdentifier(d.name)
    ensures LineOk(FieldWords(d))
  {
    hide ParameterWords, Parameters, TypeName, IsIdentifier, Plain;
    KeysDistinct();
    ParametersPlain(d);
    ParameterWordsOk(KEYS, Parameters(d));
    IdentifierPlain(d.name);
    TypeNamePlain(d.ty);
    PlainFree(d.name);
    PlainFree(TypeName(d.ty));
    FirstWordsOk(d);
    AllFreeConcat(FirstWords(d), ParameterWords(KEYS, Parameters(d)), ' ');
    AllFreeConcat(FirstWords(d), ParameterWords(KEYS, Parameters(d)), '\n');
  }

  lemma FirstWordsOk(d: FieldDesc)
    requires Free(d.name, ' ') && Free(d.name, '\n') && Free(TypeName(d.ty), ' ') && Free(TypeName(d.ty), '\n')
    ensures AllFree(FirstWords(d), ' ') && AllFree(FirstWords(d), '\n')
  {
    hide TypeName;
    assert Free("", ' ') && Free("field", ' ') && Free("", '\n') && Free("field", '\n');
  }

  lemma AllFreeConcat(a: seq<string>, b: seq<string>, sep: char)
    requires AllFree(a, sep) && AllFree(b, sep)
    ensures AllFree(a + b, sep)
  {
    hide Free;
  }

  /** Names print as they are, in both levels of the normal form. */
  ghost predicate NormalOk(normal: Normal) {
    forall i :: 0 <= i < |normal| ==> IsIdentifier(normal[i].name) && NamesOk(normal[i].body)
  }

  ghost predicate NamesOk(fields: seq<Named<FieldDesc>>) {
    forall i :: 0 <= i < |fields| ==>
      && IsIdentifier(fields[i].body.name) && fields[i].name == fields[i].body.name
      && Strip(fields[i].body) == fields[i].body
  }

  lemma ComponentLineOk(name: string)
    requires IsIdentifier(name)
    ensures LineOk(["component", name])
  {
    IdentifierPlain(name);
    assert Free("component", ' ') && Free("component", '\n');
  }

  lemma HeaderOk()
    ensures LineOk(["tempo-schema", "1"]) && Join(["tempo-schema", "1"], ' ') == HEADER
  {
    assert Free("tempo-schema", ' ') && Free("tempo-schema", '\n') && Free("1", ' ') && Free("1", '\n');
    JoinSnoc(["tempo-schema"], ' ', "1");
    assert ["tempo-schema"] + ["1"] == ["tempo-schema", "1"];
  }

  lemma StripPrints(d: FieldDesc)
    ensures FieldWords(Strip(d)) == FieldWords(d)
  {
  }

  /** Printing fields after a text is appending their lines. */
  lemma {:induction false} FieldsTextIsLines(lines: seq<Line>, fields: seq<Named<FieldDesc>>)
    requires LinesOk(lines) && lines != []
    requires forall i :: 0 <= i < |fields| ==> IsIdentifier(fields[i].body.name)
    ensures LinesOk(lines + FieldLines(NormalFieldsOf(fields)))
    ensures TextOf(lines + FieldLines(NormalFieldsOf(fields))) == TextOf(lines) + FieldsText(fields)
  {
    hide TextOf, LineOk, FieldWords, FieldLine, IsIdentifier;
    var normal := NormalFieldsOf(fields);
    if fields == [] {
      assert lines + FieldLines(normal) == lines;
      assert TextOf(lines) + "" == TextOf(lines);
    } else {
      var init, last := fields[..|fields| - 1], fields[|fields| - 1].body;
      FieldsTextIsLines(lines, init);
      assert normal[..|fields| - 1] == NormalFieldsOf(init);
      StripPrints(last);
      FieldLineOk(last);
      LineIsWords(last);
      var before := lines + FieldLines(NormalFieldsOf(init));
      TextSnoc(before, FieldWords(last));
      assert lines + FieldLines(normal) == before + [FieldWords(last)];
      assert TextOf(lines) + FieldsText(init) + "\n" + FieldLine(last) == TextOf(lines) + FieldsText(fields);
    }
  }

  lemma {:induction false} ComponentsTextIsLines(lines: seq<Line>, components: seq<Named<ComponentDesc>>)
    requires LinesOk(lines) && lines != []
    requires forall i :: 0 <= i < |components| ==> ComponentValid(components[i].body)
    ensures LinesOk(lines + BodyLines(NormalOf(components)))
    ensures TextOf(lines + BodyLines(NormalOf(components))) == TextOf(lines) + ComponentsText(components)
  {
    hide TextOf, LineOk, FieldLines, FieldsText, NormalFields, ComponentValid;
    var normal := NormalOf(components);
    if components == [] {
      assert lines + BodyLines(normal) == lines;
      assert TextOf(lines) + "" == TextOf(lines);
    } else {
      var n := |components| - 1;
      var init, c := components[..n], components[n].body;
      ComponentsTextIsLines(lines, init);
      assert normal[..n] == NormalOf(init);
      var before := lines + BodyLines(NormalOf(init));
      ComponentTextIsLines(before, c);
      var more := [["component", c.name]] + FieldLines(NormalFields(c));
      assert lines + BodyLines(normal) == before + more;
      Gather(TextOf(lines), ComponentsText(init), "\ncomponent ", c.name, FieldsText(SortNamed(FieldsByName(c.fields))));
    }
  }

  lemma Gather(a: string, b: string, c: string, d: string, e: string)
    ensures a + b + (c + d + e) == a + (b + c + d + e)
  {
  }

  lemma ComponentTextIsLines(lines: seq<Line>, c: ComponentDesc)
    requires LinesOk(lines) && lines != [] && ComponentValid(c)
    ensures var more := lines + ([["component", c.name]] + FieldLines(NormalFields(c)));
            LinesOk(more)
            && TextOf(more) == TextOf(lines) + ("\ncomponent " + c.name + FieldsText(SortNamed(FieldsByName(c.fields))))
  {
    hide TextOf, LineOk, FieldLines, FieldsText;
    var sorted := SortNamed(FieldsByName(c.fields));
    SortedFieldsValid(c, sorted);
    var head := ["component", c.name];
    ComponentLineOk(c.name);
    TextSnoc(lines, head);
    FieldsTextIsLines(lines + [head], sorted);
    assert lines + ([head] + FieldLines(NormalFields(c))) == lines + [head] + FieldLines(NormalFields(c));
    JoinSnoc(["component"], ' ', c.name);
    assert ["component"] + [c.name] == head;
    assert Join(head, ' ') == "component " + c.name;
    assert "\n" + "component " == "\ncomponent ";
    Regroup(TextOf(lines), c.name, FieldsText(sorted));
  }

  lemma Regroup(a: string, b: string, c: string)
    ensures a + "\n" + ("component " + b) + c == a + ("\ncomponent " + b + c)
  {
    assert "\n" + "component " == "\ncomponent ";
  }

  lemma SortedFieldsValid(c: ComponentDesc, sorted: seq<Named<FieldDesc>>)
    requires ComponentValid(c) && sorted == SortNamed(FieldsByName(c.fields))
    ensures forall i :: 0 <= i < |sorted| ==>
              IsIdentifier(sorted[i].body.name) && sorted[i].name == sorted[i].body.name
  {
    hide SortNamed, IsIdentifier, ParametersValid;
    var named := FieldsByName(c.fields);
    forall i | 0 <= i < |sorted|
      ensures IsIdentifier(sorted[i].body.name) && sorted[i].name == sorted[i].body.name
    {
      SortMember(named, sorted[i]);
      assert sorted[i] in sorted;
      var j :| 0 <= j < |named| && named[j] == sorted[i];
      assert FieldValid(c.fields[j]);
    }
  }

  lemma SortedComponentsValid(components: seq<ComponentDesc>, sorted: seq<Named<ComponentDesc>>)
    requires SchemaValid(components) && sorted == SortNamed(ComponentsByName(components))
    ensures forall i :: 0 <= i < |sorted| ==> ComponentValid(sorted[i].body)
  {
    hide SortNamed, ComponentValid;
    var named := ComponentsByName(components);
    forall i | 0 <= i < |sorted|
      ensures ComponentValid(sorted[i].body)
    {
      SortMember(named, sorted[i]);
      assert sorted[i] in sorted;
      var j :| 0 <= j < |named| && named[j] == sorted[i];
    }
  }

  /** The canonical text is the lines of the normal form. */
  lemma CanonicalIsLines(components: seq<ComponentDesc>)
    requires SchemaValid(components)
    ensures LinesOk(Lines(NormalForm(components)))
    ensures CanonicalForm(components) == TextOf(Lines(NormalForm(components)))
  {
    hide LineOk, SortNamed, BodyLines, ComponentsText, Join;
    HeaderOk();
    var sorted := SortNamed(ComponentsByName(components));
    SortedComponentsValid(components, sorted);
    var head: seq<Line> := [["tempo-schema", "1"]];
    ComponentsTextIsLines(head, sorted);
    assert JoinLines(head) == [HEADER];
    assert TextOf(head) == HEADER by { JoinOne(HEADER, '\n'); }
  }

  lemma JoinOne(x: string, sep: char)
    ensures Join([x], sep) == x
  {
  }

  // ----- lines determine the normal form -----

  predicate IsFieldLine(line: Line) {
    line != [] && line[0] == ""
  }

  /** The block after the last component line is determined by the lines. */
  lemma LastBlock(x: seq<Line>, c: Line, f: seq<Line>, y: seq<Line>, d: Line, g: seq<Line>)
    requires !IsFieldLine(c) && !IsFieldLine(d)
    requires forall i :: 0 <= i < |f| ==> IsFieldLine(f[i])
    requires forall i :: 0 <= i < |g| ==> IsFieldLine(g[i])
    requires x + ([c] + f) == y + ([d] + g)
    ensures x == y && c == d && f == g
  {
    hide IsFieldLine;
    var t := x + ([c] + f);
    assert t[|x|] == c && t[|y|] == d;
    assert forall i :: |x| < i < |t| ==> t[i] == f[i - |x| - 1];
    assert forall i :: |y| < i < |t| ==> t[i] == g[i - |y| - 1];
    assert |x| == |y|;
    assert t[..|x|] == x && t[..|y|] == y;
    assert t[|x| + 1..] == f && t[|y| + 1..] == g;
  }

  lemma {:induction false} FieldLinesAre(fields: seq<Named<FieldDesc>>)
    ensures |FieldLines(fields)| == |fields|
    ensures forall i :: 0 <= i < |fields| ==> FieldLines(fields)[i] == FieldWords(fields[i].body)
  {
    hide FieldWords;
    if fields != [] {
      FieldLinesAre(fields[..|fields| - 1]);
    }
  }

  lemma FieldLinesInjective(a: seq<Named<FieldDesc>>, b: seq<Named<FieldDesc>>)
    requires NamesOk(a) && NamesOk(b) && FieldLines(a) == FieldLines(b)
    ensures a == b
  {
    hide FieldWords, FieldLines, IsIdentifier;
    FieldLinesAre(a);
    FieldLinesAre(b);
    forall i | 0 <= i < |a|
      ensures a[i] == b[i]
    {
      WordsInjective(a[i].body, b[i].body);
    }
  }

  lemma FieldLinesMarked(fields: seq<Named<FieldDesc>>)
    ensures forall i :: 0 <= i < |FieldLines(fields)| ==> IsFieldLine(FieldLines(fields)[i])
  {
    FieldLinesAre(fields);
  }

  lemma {:induction false} BodyLinesInjective(a: Normal, b: Normal)
    requires NormalOk(a) && NormalOk(b) && BodyLines(a) == BodyLines(b)
    ensures a == b
  {
    hide FieldLines, NamesOk, IsIdentifier;
    if a != [] && b != [] {
      var ia, ib, ca, cb := a[..|a| - 1], b[..|b| - 1], a[|a| - 1], b[|b| - 1];
      FieldLinesMarked(ca.body);
      FieldLinesMarked(cb.body);
      LastBlock(BodyLines(ia), ["component", ca.name], FieldLines(ca.body),
                BodyLines(ib), ["component", cb.name], FieldLines(cb.body));
      assert ["component", ca.name][1] == ["component", cb.name][1];
      FieldLinesInjective(ca.body, cb.body);
      BodyLinesInjective(ia, ib);
      assert a == ia + [ca] && b == ib + [cb];
    }
  }

  lemma NormalFormOk(components: seq<ComponentDesc>)
    requires SchemaValid(components)
    ensures NormalOk(NormalForm(components))
  {
    hide SortNamed, IsIdentifier, ParametersValid;
    var sorted := SortNamed(ComponentsByName(components));
    SortedComponentsValid(components, sorted);
    forall i | 0 <= i < |sorted|
      ensures IsIdentifier(sorted[i].body.name) && NamesOk(NormalFields(sorted[i].body))
    {
      SortedFieldsValid(sorted[i].body, SortNamed(FieldsByName(sorted[i].body.fields)));
    }
  }

  /** Two valid schemas have the same canonical text exactly when they are the same up to
      component order, field order and priority. */
  lemma CanonicalTextFaithful(a: seq<ComponentDesc>, b: seq<ComponentDesc>)
    requires SchemaValid(a) && SchemaValid(b)
    ensures CanonicalForm(a) == CanonicalForm(b) <==> Shape(a) == Shape(b)
  {
    hide CanonicalForm, NormalForm, Shape, TextOf, BodyLines, NormalOk, ComponentValid;
    CanonicalIsLines(a);
    CanonicalIsLines(b);
    ShapeIsNormal(a, b);
    if CanonicalForm(a) == CanonicalForm(b) {
      TextInjective(Lines(NormalForm(a)), Lines(NormalForm(b)));
      assert Lines(NormalForm(a))[1..] == BodyLines(NormalForm(a));
      assert Lines(NormalForm(b))[1..] == BodyLines(NormalForm(b));
      NormalFormOk(a);
      NormalFormOk(b);
      BodyLinesInjective(NormalForm(a), NormalForm(b));
    }
  }
}
