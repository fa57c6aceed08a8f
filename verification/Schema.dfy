/** Field and component declarations, and the rules a declaration must satisfy. */
module Schema {
  import opened Common
  import opened Fixed
  import opened Bits

  datatype FieldType = TBool | TUint | TInt | TFx | TVec2 | TVec3 | TQuat | TEnum | TStr | TBytes

  datatype FieldDesc = FieldDesc(
    name: string,
    ty: FieldType,
    bits: Option<nat>,
    quantize: Option<Fx>,
    min: Option<Fx>,
    max: Option<Fx>,
    quantizeBits: Option<nat>,
    variants: Option<nat>,
    maxLen: Option<nat>,
    basePriority: real)

  datatype ComponentDesc = ComponentDesc(name: string, fields: seq<FieldDesc>)

  predicate IsLetter(c: char) {
    'a' <= c <= 'z' || 'A' <= c <= 'Z' || c == '_'
  }

  predicate IsIdentifier(s: string) {
    && |s| > 0
    && IsLetter(s[0])
    && forall i :: 0 < i < |s| ==> IsLetter(s[i]) || '0' <= s[i] <= '9'
  }

  /** `quantize`, `min` and `max` are declared together, with a positive step and a
      non-empty range. */
  predicate RangeDeclared(d: FieldDesc) {
    || (d.quantize.None? && d.min.None? && d.max.None?)
    || (d.quantize.Some? && d.min.Some? && d.max.Some? && d.quantize.value > 0 && d.min.value < d.max.value)
  }

  /** The parameters a codec depends on are in range. */
  predicate ParametersValid(d: FieldDesc) {
    && (d.bits.Some? ==> 1 <= d.bits.value <= 64)
    && RangeDeclared(d)
    && (d.ty.TEnum? ==> d.variants.Some? && d.variants.value >= 1)
    && (d.variants.Some? ==> d.variants.value < U32)
    && (d.maxLen.Some? ==> d.maxLen.value < U32)
    && (d.quantizeBits.Some? ==> 1 <= d.quantizeBits.value <= 30)
  }

  predicate FieldValid(d: FieldDesc) {
    IsIdentifier(d.name) && ParametersValid(d)
  }

  predicate ComponentValid(c: ComponentDesc) {
    && IsIdentifier(c.name)
    && (forall i :: 0 <= i < |c.fields| ==> FieldValid(c.fields[i]))
    && (forall i, j :: 0 <= i < j < |c.fields| ==> c.fields[i].name != c.fields[j].name)
  }
}
