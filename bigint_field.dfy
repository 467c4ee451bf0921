/** library/fields/bigint.ts: `BigIntField`, whose JSON form is the decimal string. */
module BigIntField {
  import opened Results
  import opened Decimal
  import opened JsValue
  import opened Typem
  import TypemLaws

  /** The `{ min?: bigint, max?: bigint }` options. */
  datatype BigIntOptions = BigIntOptions(min: Option<int>, max: Option<int>)

  /** `_validate(value)` */
  predicate Validate(options: BigIntOptions, v: Value) {
    TypeOf(v) == "bigint" &&
    (options.min.None? || v.n >= options.min.value) &&
    (options.max.None? || v.n <= options.max.value)
  }

  /** `toJSONType(value)`: `value.toString()` */
  function ToJSONType(i: int): string {
    IntToString(i)
  }

  /** The error `BigInt(text)` throws on text that is not an integer literal. */
  function SyntaxError(s: string): string {
    "SyntaxError: Cannot convert " + s + " to a BigInt"
  }

  /** `fromJSONType(value)`: `BigInt(value)` on decimal text: the empty string is zero, otherwise an
      optional sign and one or more digits. */
  function FromJSONType(s: string): Result<int, string> {
    if s == "" then Success(0)
    else if s[0] == '-' || s[0] == '+' then
      if |s| > 1 && AllDigits(s[1..]) then
        var magnitude: int := DigitsValue(s[1..]);
        Success(if s[0] == '-' then -magnitude else magnitude)
      else Failure(SyntaxError(s))
    else if AllDigits(s) then Success(DigitsValue(s))
    else Failure(SyntaxError(s))
  }

  /** The text `toString` produces: a canonical decimal, with a '-' before a non-zero magnitude for negatives. */
  predicate CanonicalInteger(s: string) {
    Canonical(s) || (|s| >= 2 && s[0] == '-' && Canonical(s[1..]) && s[1] != '0')
  }

  /** `toJSONType` renders canonical decimal text, negative exactly when the value is. */
  lemma ToJSONTypeCanonical(i: int)
    ensures CanonicalInteger(ToJSONType(i))
    ensures ToJSONType(i)[0] == '-' <==> i < 0
  {
  }

  /** `fromJSONType(toJSONType(v)) == v` for every bigint. */
  lemma JSONRoundTrip(i: int)
    ensures FromJSONType(ToJSONType(i)) == Success(i)
  {
    var s := ToJSONType(i);
    if i < 0 {
      NatToStringRoundTrip(-i);
      assert s[1..] == NatToString(-i);
    } else {
      NatToStringRoundTrip(i);
    }
  }

  /** On canonical text the conversions are inverse the other way round too. */
  lemma JSONRoundTripText(s: string)
    requires CanonicalInteger(s)
    ensures FromJSONType(s).Success? && ToJSONType(FromJSONType(s).value) == s
  {
    if Canonical(s) {
      CanonicalRoundTrip(s);
    } else {
      CanonicalRoundTrip(s[1..]);
      LeadingDigitsPositive(s[1..]);
      assert s == "-" + s[1..];
    }
  }

  /** Only bigints are valid; set bounds are inclusive; without options every bigint is valid. */
  lemma ValidateBounds(options: BigIntOptions, v: Value)
    ensures Validate(options, v) ==> v.Big?
    ensures v.Big? && options.min.Some? && v.n < options.min.value ==> !Validate(options, v)
    ensures v.Big? && options.max.Some? && v.n > options.max.value ==> !Validate(options, v)
    ensures v.Big? ==> Validate(BigIntOptions(None, None), v)
    ensures (v.Big? && (options.min.None? || v.n >= options.min.value) &&
             (options.max.None? || v.n <= options.max.value))
            ==> Validate(options, v)
  {
  }

  /** Both bounds set: the field accepts what index.ts's `tBigint(vRange(a, b))` accepts. */
  lemma ValidateAgrees(rev: Revision, a: int, b: int, v: Value)
    ensures Validate(BigIntOptions(Some(a), Some(b)), v) == Valid(rev, TPrim(BigintK, [Range(a, b)]), v)
  {
    TypemLaws.PrimAcceptsIff(rev, BigintK, [Range(a, b)], v);
    TypemLaws.RefinePassIff(rev, Range(a, b), v);
    assert [Range(a, b)][0] == Range(a, b);
  }
}
