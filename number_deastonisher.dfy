/**
 * The schema transformer that stops numeric schemas from also admitting
 * strings: for the six numeric types (or `Nullable` of one) it clears the
 * string flag and drops the pattern.
 */
module NumberDeastonisher {
  import opened Wrappers
  import opened OpenApiSchemas

  /** `Nullable.GetUnderlyingType(t) ?? t`. */
  function UnderlyingType(t: ClrType): (u: ClrType)
    ensures !t.NullableOf? ==> u == t
  {
    if t.NullableOf? then t.underlying else t
  }

  /** Membership in the transformer's numeric set. */
  predicate IsNumericType(t: ClrType) {
    t == Short || t == Int || t == Long || t == Float || t == Double || t == Decimal
  }

  /** The schema's new type flags and pattern. */
  function Deastonished(typeFlags: Option<set<SchemaType>>, pattern: Option<string>, t: ClrType)
    : (r: (Option<set<SchemaType>>, Option<string>))
    ensures typeFlags.None? || !IsNumericType(UnderlyingType(t)) ==> r == (typeFlags, pattern)
    ensures typeFlags.Some? && IsNumericType(UnderlyingType(t)) ==>
      r.0.Some? && r.1.None? &&
      forall f :: f in r.0.value <==> f in typeFlags.value && f != StringType
  {
    if typeFlags.None? then (typeFlags, pattern)
    else if !IsNumericType(UnderlyingType(t)) then (typeFlags, pattern)
    else (Some(typeFlags.value - {StringType}), None)
  }

  method TransformNumberSchema(schema: Schema, jsonType: ClrType)
    modifies schema
    ensures (schema.typeFlags, schema.pattern) == Deastonished(old(schema.typeFlags), old(schema.pattern), jsonType)
    ensures schema.description == old(schema.description) && schema.example == old(schema.example)
    ensures schema.hasExamples == old(schema.hasExamples) && schema.properties == old(schema.properties)
  {
    if schema.typeFlags.None? {
      return;
    }
    var underlyingType := if jsonType.NullableOf? then jsonType.underlying else jsonType;
    if !IsNumericType(underlyingType) {
      return;
    }
    schema.typeFlags := Some(schema.typeFlags.value - {StringType});
    schema.pattern := None;
  }

  /** Applying the transform twice is the same as applying it once. */
  lemma DeastonishIdempotent(typeFlags: Option<set<SchemaType>>, pattern: Option<string>, t: ClrType)
    ensures var once := Deastonished(typeFlags, pattern, t);
      Deastonished(once.0, once.1, t) == once
  {
    var once := Deastonished(typeFlags, pattern, t);
    if typeFlags.Some? && IsNumericType(UnderlyingType(t)) {
      assert once.0.value - {StringType} == once.0.value;
    }
  }

  /** `Nullable<T>` is treated as `T`. */
  lemma NullableTreatedAsUnderlying(typeFlags: Option<set<SchemaType>>, pattern: Option<string>, t: ClrType)
    requires !t.NullableOf?
    ensures Deastonished(typeFlags, pattern, NullableOf(t)) == Deastonished(typeFlags, pattern, t)
  {
  }

  /** Only the string flag is removed: a number-or-string schema becomes a number schema. */
  lemma NumberOrStringBecomesNumber(pattern: Option<string>)
    ensures Deastonished(Some({NumberType, StringType}), pattern, Double) == (Some({NumberType}), None)
    ensures Deastonished(Some({IntegerType, StringType, NullType}), pattern, NullableOf(Int)) ==
      (Some({IntegerType, NullType}), None)
  {
    assert {NumberType, StringType} - {StringType} == {NumberType};
    assert {IntegerType, StringType, NullType} - {StringType} == {IntegerType, NullType};
  }

  /** A string-typed schema for a non-numeric type keeps its flags and pattern. */
  lemma NonNumericUntouched(typeFlags: Option<set<SchemaType>>, pattern: Option<string>, name: string)
    ensures Deastonished(typeFlags, pattern, NamedType(name)) == (typeFlags, pattern)
    ensures Deastonished(typeFlags, pattern, NullableOf(NamedType(name))) == (typeFlags, pattern)
  {
  }
}
