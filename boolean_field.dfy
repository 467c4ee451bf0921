/** library/fields/boolean.ts: `BooleanField`. */
module BooleanField {
  import opened Results
  import opened JsValue

  /** `parser(value)` */
  function Parser(v: Value): Result<bool, string> {
    if TypeOf(v) != "boolean" then Failure("Value is not a boolean") else Success(v.b)
  }

  /** `toJSONType(value)` */
  function ToJSONType(b: bool): bool {
    b
  }

  /** `fromJSONType(value)` */
  function FromJSONType(b: bool): bool {
    b
  }

  /** The parser fails with "Value is not a boolean" on every non-boolean and returns a boolean unchanged. */
  lemma ParserSpec(v: Value)
    ensures Parser(v).Failure? <==> !v.Bool?
    ensures Parser(v).Failure? ==> Parser(v).error == "Value is not a boolean"
    ensures Parser(v).Success? ==> v == Bool(Parser(v).value)
  {
  }

  /** The JSON conversions are inverse identities. */
  lemma JSONRoundTrip(b: bool)
    ensures FromJSONType(ToJSONType(b)) == b && ToJSONType(FromJSONType(b)) == b
  {
  }
}
