/** `Schema` as the object it is: registration that validates, and the printer's loops. */
module SchemaRegistry {
  import opened Common
  import opened Fixed
  import opened Bits
  import opened Declarations = Schema
  import opened CanonicalText
  import opened CanonicalSchemas

  type Checked = Result<(), WireError>

  /** The widths of the declaration's own integers. */
  predicate Typed(d: FieldDesc) {
    (d.variants.Some? ==> d.variants.value < U32) && (d.maxLen.Some? ==> d.maxLen.value < U32)
  }

  method CheckIdentifier(s: string) returns (ok: bool)
    ensures ok <==> IsIdentifier(s)
  {
    if |s| == 0 || !IsLetter(s[0]) {
      return false;
    }
    var i := 1;
    while i < |s|
      invariant 1 <= i <= |s|
      invariant forall k :: 0 < k < i ==> IsLetter(s[k]) || '0' <= s[k] <= '9'
    {
      if !IsLetter(s[i]) && !('0' <= s[i] <= '9') {
        return false;
      }
      i := i + 1;
    }
    ok := true;
  }

  /** One declaration, rule by rule. */
  method ValidateField(d: FieldDesc) returns (r: Checked)
    requires Typed(d)
    ensures r == if FieldValid(d) then Ok(()) else Err(InvalidSchema)
  {
    hide IsIdentifier;
    var named := CheckIdentifier(d.name);
    if !named {
      return Err(InvalidSchema);
    }
    if d.bits.Some? && (d.bits.value == 0 || d.bits.value > 64) {
      return Err(InvalidSchema);
    }
    match (d.quantize, d.min, d.max) {
      case (None, None, None) =>
      case (Some(step), Some(min), Some(max)) =>
        if step <= 0 {
          return Err(InvalidSchema);
        }
        if min >= max {
          return Err(InvalidSchema);
        }
      case _ =>
        return Err(InvalidSchema);
    }
    if d.ty.TEnum? && (d.variants.None? || d.variants.value < 1) {
      return Err(InvalidSchema);
    }
    if d.quantizeBits.Some? && (d.quantizeBits.value == 0 || d.quantizeBits.value > 30) {
      return Err(InvalidSchema);
    }
    r := Ok(());
  }

  method ValidateComponent(c: ComponentDesc) returns (r: Checked)
    requires forall i :: 0 <= i < |c.fields| ==> Typed(c.fields[i])
    ensures r == if ComponentValid(c) then Ok(()) else Err(InvalidSchema)
  {
    hide IsIdentifier, FieldValid;
    var named := CheckIdentifier(c.name);
    if !named {
      return Err(InvalidSchema);
    }
    var seen: seq<string> := [];
    var i := 0;
    while i < |c.fields|
      invariant 0 <= i <= |c.fields| && |seen| == i
      invariant forall k :: 0 <= k < i ==> FieldValid(c.fields[k]) && seen[k] == c.fields[k].name
      invariant forall j, k :: 0 <= j < k < i ==> c.fields[j].name != c.fields[k].name
    {
      var checked := ValidateField(c.fields[i]);
      if checked.Err? {
        return Err(InvalidSchema);
      }
      if c.fields[i].name in seen {
        var j :| 0 <= j < |seen| && seen[j] == c.fields[i].name;
        assert c.fields[j].name == c.fields[i].name;
        return Err(InvalidSchema);
      }
      seen := seen + [c.fields[i].name];
      i := i + 1;
    }
    r := Ok(());
  }

  /** Appends a field's line, parameter by parameter. */
  method WriteField(before: string, d: FieldDesc) returns (out: string)
    ensures out == before + FieldLine(d)
  {
    hide Decimal, RenderFx;
    out := before + "  field " + d.name + " " + TypeName(d.ty);
    ghost var line := "  field " + d.name + " " + TypeName(d.ty);
    out, line := WriteParameter(before, out, line, "bits", ShowNat(d.bits));
    out, line := WriteParameter(before, out, line, "max", ShowFx(d.max));
    out, line := WriteParameter(before, out, line, "max_len", ShowNat(d.maxLen));
    out, line := WriteParameter(before, out, line, "min", ShowFx(d.min));
    out, line := WriteParameter(before, out, line, "quantize", ShowFx(d.quantize));
    out, line := WriteParameter(before, out, line, "quantize_bits", ShowNat(d.quantizeBits));
    out, line := WriteParameter(before, out, line, "variants", ShowNat(d.variants));
  }

  method WriteParameter(ghost before: string, out: string, ghost line: string, key: string, value: Option<string>)
    returns (next: string, ghost longer: string)
    requires out == before + line
    ensures longer == line + Suffix(key, value) && next == before + longer
  {
    next := out;
    if value.Some? {
      next := next + " " + key + "=" + value.value;
    }
    longer := line + Suffix(key, value);
    assert value.Some? ==> next == out + Suffix(key, value);
    assert value.None? ==> next == out + Suffix(key, value);
    assert before + line + Suffix(key, value) == before + longer;
  }

  class Schema {
    var components: seq<ComponentDesc>

    ghost predicate Valid()
      reads this
    {
      SchemaValid(components)
    }

    constructor ()
      ensures Valid() && components == []
    {
      components := [];
    }

    /** Adds a component unless it is invalid or its name is taken. */
    method Register(c: ComponentDesc) returns (r: Checked)
      requires Valid() && forall i :: 0 <= i < |c.fields| ==> Typed(c.fields[i])
      modifies this
      ensures Valid()
      ensures r.Ok? <==> ComponentValid(c) && forall i :: 0 <= i < old(|components|) ==> old(components)[i].name != c.name
      ensures components == old(components) + if r.Ok? then [c] else []
    {
      hide ComponentValid;
      assert components + [] == components;
      var checked := ValidateComponent(c);
      if checked.Err? {
        return checked;
      }
      var i := 0;
      while i < |components|
        invariant 0 <= i <= |components|
        invariant forall k :: 0 <= k < i ==> components[k].name != c.name
      {
        if components[i].name == c.name {
          return Err(InvalidSchema);
        }
        i := i + 1;
      }
      components := components + [c];
      r := Ok(());
    }

    /** Renders the canonical form. */
    method CanonicalText() returns (out: string)
      ensures out == CanonicalForm(components)
    {
      hide SortNamed, FieldLine, FieldsText;
      out := HEADER;
      var sorted := SortNamed(ComponentsByName(components));
      var i := 0;
      assert HEADER + "" == HEADER;
      while i < |sorted|
        invariant 0 <= i <= |sorted|
        invariant out == HEADER + ComponentsText(sorted[..i])
      {
        var c := sorted[i].body;
        ghost var so_far, fields := ComponentsText(sorted[..i]), FieldsText(SortNamed(FieldsByName(c.fields)));
        out := out + "\ncomponent " + c.name;
        out := WriteFields(out, c);
        assert sorted[..i + 1][..i] == sorted[..i];
        assert out == HEADER + (so_far + "\ncomponent " + c.name + fields);
        i := i + 1;
      }
      assert sorted[..|sorted|] == sorted;
    }
  }

  /** Appends a component's field lines. */
  method WriteFields(before: string, c: ComponentDesc) returns (out: string)
    ensures out == before + FieldsText(SortNamed(FieldsByName(c.fields)))
  {
    hide SortNamed, FieldLine;
    var fields := SortNamed(FieldsByName(c.fields));
    out := before;
    var j := 0;
    assert before + "" == before;
    while j < |fields|
      invariant 0 <= j <= |fields|
      invariant out == before + FieldsText(fields[..j])
    {
      assert fields[..j + 1][..j] == fields[..j];
      ghost var so_far := FieldsText(fields[..j]);
      out := out + "\n";
      out := WriteField(out, fields[j].body);
      assert out == before + (so_far + "\n" + FieldLine(fields[j].body));
      j := j + 1;
    }
    assert fields[..|fields|] == fields;
  }
}
