/** library/fields/number.ts: `NumberField`. */
module NumberField {
  import opened Results
  import opened JsValue
  import Field
  import opened Typem
  import TypemLaws

  /** The `{ min?: number, max?: number }` options. */
  datatype NumberOptions = NumberOptions(min: Option<int>, max: Option<int>)

  /** `_validate(value)` */
  predicate Validate(options: NumberOptions, v: Value) {
    TypeOf(v) == "number" &&
    (options.min.None? || v.n >= options.min.value) &&
    (options.max.None? || v.n <= options.max.value)
  }

  /** `toJSONType(value)` */
  function ToJSONType(n: int): int {
    n
  }

  /** `fromJSONType(value)` */
  function FromJSONType(n: int): int {
    n
  }

  /** Only numbers are valid; set bounds are inclusive; without options every number is valid. */
  lemma ValidateBounds(options: NumberOptions, v: Value)
    ensures Validate(options, v) ==> v.Num?
    ensures v.Num? && options.min.Some? && v.n < options.min.value ==> !Validate(options, v)
    ensures v.Num? && options.max.Some? && v.n > options.max.value ==> !Validate(options, v)
    ensures v.Num? ==> Validate(NumberOptions(None, None), v)
    ensures (v.Num? && (options.min.None? || v.n >= options.min.value) &&
             (options.max.None? || v.n <= options.max.value))
            ==> Validate(options, v)
  {
  }

  /** Both bounds set: the field accepts what field.ts's `range(number, a, b)` and index.ts's
      `tNumber(vRange(a, b))` accept. */
  lemma ValidateAgrees(rev: Revision, a: int, b: int, v: Value)
    ensures Validate(NumberOptions(Some(a), Some(b)), v) == Field.Range(Field.IsNumber(), a, b)(v)
    ensures Validate(NumberOptions(Some(a), Some(b)), v) == Valid(rev, TPrim(NumberK, [Range(a, b)]), v)
  {
    assert Field.IsNumber()(v) == (TypeOf(v) == "number");
    TypemLaws.PrimAcceptsIff(rev, NumberK, [Range(a, b)], v);
    TypemLaws.RefinePassIff(rev, Range(a, b), v);
    assert [Range(a, b)][0] == Range(a, b);
  }

  /** Only `min` set: field.ts's `min(number, a)` and index.ts's `tNumber(vGte(a))`. */
  lemma MinAgrees(rev: Revision, a: int, v: Value)
    ensures Validate(NumberOptions(Some(a), None), v) == Field.Min(Field.IsNumber(), a)(v)
    ensures Validate(NumberOptions(Some(a), None), v) == Valid(rev, TPrim(NumberK, [Gte(a)]), v)
  {
    assert Field.IsNumber()(v) == (TypeOf(v) == "number");
    TypemLaws.PrimAcceptsIff(rev, NumberK, [Gte(a)], v);
    TypemLaws.RefinePassIff(rev, Gte(a), v);
    assert [Gte(a)][0] == Gte(a);
  }

  /** The JSON conversions are inverse identities. */
  lemma JSONRoundTrip(n: int)
    ensures FromJSONType(ToJSONType(n)) == n && ToJSONType(FromJSONType(n)) == n
  {
  }
}
