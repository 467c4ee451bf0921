/** library/fields/string.ts: `StringField`. */
module StringField {
  import opened Results
  import opened JsValue
  import Field
  import opened Typem
  import TypemLaws

  /** The `{ minLength?: number, maxLength?: number }` options. */
  datatype StringOptions = StringOptions(minLength: Option<int>, maxLength: Option<int>)

  /** `_validate(value)` */
  predicate Validate(options: StringOptions, v: Value) {
    TypeOf(v) == "string" &&
    (options.minLength.None? || Utf16Length(v.s) >= options.minLength.value) &&
    (options.maxLength.None? || Utf16Length(v.s) <= options.maxLength.value)
  }

  /** The bounds count UTF-16 code units, as `value.length` does: an emoji outside the Basic
      Multilingual Plane is two long, so `maxLength: 1` rejects it and `minLength: 2` accepts it. */
  lemma BoundsCountCodeUnits()
    ensures !Validate(StringOptions(None, Some(1)), Str("\U{1F600}"))
    ensures Validate(StringOptions(Some(2), Some(2)), Str("\U{1F600}"))
    ensures Validate(StringOptions(Some(1), Some(1)), Str("a"))
  {
    assert Utf16Length("\U{1F600}") == 2 by {
      assert "\U{1F600}"[1..] == [];
    }
    assert "a"[1..] == [];
  }

  /** `toJSONType(value)` */
  function ToJSONType(s: string): string {
    s
  }

  /** `fromJSONType(value)` */
  function FromJSONType(s: string): string {
    s
  }

  /** Only strings are valid; a set `minLength` is an inclusive lower bound and a set `maxLength`
      an inclusive upper bound on the length; without options every string is valid. */
  lemma ValidateBounds(options: StringOptions, v: Value)
    ensures Validate(options, v) ==> v.Str?
    ensures v.Str? && options.minLength.Some? && Utf16Length(v.s) < options.minLength.value ==> !Validate(options, v)
    ensures v.Str? && options.maxLength.Some? && Utf16Length(v.s) > options.maxLength.value ==> !Validate(options, v)
    ensures v.Str? ==> Validate(StringOptions(None, None), v)
    ensures (v.Str? && (options.minLength.None? || Utf16Length(v.s) >= options.minLength.value) &&
             (options.maxLength.None? || Utf16Length(v.s) <= options.maxLength.value))
            ==> Validate(options, v)
  {
  }

  /** Both bounds set: the field accepts what field.ts's `lengthRange(string, a, b)` and index.ts's
      `tString(vLengthRange(a, b))` accept. */
  lemma ValidateAgrees(rev: Revision, a: int, b: int, v: Value)
    ensures Validate(StringOptions(Some(a), Some(b)), v) == Field.LengthRange(Field.IsString(), a, b)(v)
    ensures Validate(StringOptions(Some(a), Some(b)), v) == Valid(rev, TPrim(StringK, [LengthRange(a, b)]), v)
  {
    assert Field.IsString()(v) == (TypeOf(v) == "string");
    TypemLaws.PrimAcceptsIff(rev, StringK, [LengthRange(a, b)], v);
    TypemLaws.RefinePassIff(rev, LengthRange(a, b), v);
    assert [LengthRange(a, b)][0] == LengthRange(a, b);
  }

  /** The JSON conversions are inverse identities. */
  lemma JSONRoundTrip(s: string)
    ensures FromJSONType(ToJSONType(s)) == s && ToJSONType(FromJSONType(s)) == s
  {
  }
}
