/** library/array.ts: `MasterArray`, an array field over an element field. The element field's
    `parse`, `toJSONType` and `fromJSONType` are passed in as functions. */
module MasterArray {
  import opened Results
  import opened Decimal
  import opened JsValue

  /** The `{ min?: number, max?: number }` options. */
  datatype ArrayOptions = ArrayOptions(min: Option<int>, max: Option<int>)

  /** `value.map(v => this.field.parse(v))`: the first element whose parse throws ends the map with its error. */
  function ParseEach<T>(parse: Value -> Result<T, string>, items: seq<Value>): (r: Result<seq<T>, string>)
    ensures r.Success? ==> |r.value| == |items| && forall i :: 0 <= i < |items| ==> parse(items[i]) == Success(r.value[i])
    ensures r.Failure? ==> exists i :: 0 <= i < |items| && parse(items[i]) == Failure(r.error)
    decreases |items|
  {
    if items == [] then Success([])
    else match parse(items[0])
      case Failure(e) => Failure(e)
      case Success(x) =>
        match ParseEach(parse, items[1..])
        case Failure(e) =>
          assert forall i :: 1 <= i < |items| ==> items[i] == items[1..][i - 1];
          Failure(e)
        case Success(xs) =>
          assert forall i :: 1 <= i < |items| ==> items[i] == items[1..][i - 1];
          Success([x] + xs)
  }

  /** `parser(value)` */
  function Parser<T>(options: ArrayOptions, parse: Value -> Result<T, string>, v: Value): Result<seq<T>, string> {
    if !v.Arr? then Failure("Value is not an array")
    else if options.min.Some? && |v.items| < options.min.value then
      Failure("Array length is less than " + IntToString(options.min.value))
    else if options.max.Some? && |v.items| > options.max.value then
      Failure("Array length is more than " + IntToString(options.max.value))
    else ParseEach(parse, v.items)
  }

  /** `toJSONType(value)`: each element through the element field's `toJSONType`. */
  function ToJSONType<V, J>(toJSON: V -> J, xs: seq<V>): (r: seq<J>)
    ensures |r| == |xs| && forall i :: 0 <= i < |xs| ==> r[i] == toJSON(xs[i])
    decreases |xs|
  {
    if xs == [] then [] else [toJSON(xs[0])] + ToJSONType(toJSON, xs[1..])
  }

  /** `fromJSONType(value)`: each element through the element field's `fromJSONType`. */
  function FromJSONType<J, V>(fromJSON: J -> V, js: seq<J>): (r: seq<V>)
    ensures |r| == |js| && forall i :: 0 <= i < |js| ==> r[i] == fromJSON(js[i])
    decreases |js|
  {
    if js == [] then [] else [fromJSON(js[0])] + FromJSONType(fromJSON, js[1..])
  }

  /** Every element parses: the result has the array's length and holds each element's parse. */
  lemma {:induction false} ParseEachSucceeds<T>(parse: Value -> Result<T, string>, items: seq<Value>)
    requires forall i :: 0 <= i < |items| ==> parse(items[i]).Success?
    ensures ParseEach(parse, items).Success?
    decreases |items|
  {
    if items != [] {
      assert forall i :: 1 <= i < |items| ==> items[i] == items[1..][i - 1];
      ParseEachSucceeds(parse, items[1..]);
    }
  }

  /** The first element that fails decides the error; later elements are not consulted. */
  lemma {:induction false} ParseEachFirstFailure<T>(parse: Value -> Result<T, string>, items: seq<Value>, k: nat)
    requires k < |items| && parse(items[k]).Failure?
    requires forall j :: 0 <= j < k ==> parse(items[j]).Success?
    ensures ParseEach(parse, items) == Failure(parse(items[k]).error)
    decreases k
  {
    if k > 0 {
      assert forall j :: 1 <= j < |items| ==> items[j] == items[1..][j - 1];
      ParseEachFirstFailure(parse, items[1..], k - 1);
    }
  }

  /** A non-array is rejected before any length check. */
  lemma ParserRejectsNonArrays<T>(options: ArrayOptions, parse: Value -> Result<T, string>, v: Value)
    requires !v.Arr?
    ensures Parser(options, parse, v) == Failure("Value is not an array")
  {
  }

  /** With `min` set, a shorter array fails with the `min` message; with `max` set and `min` met,
      a longer one fails with the `max` message. */
  lemma ParserLengthBounds<T>(options: ArrayOptions, parse: Value -> Result<T, string>, xs: seq<Value>)
    ensures options.min.Some? && |xs| < options.min.value ==>
            Parser(options, parse, Arr(xs)) == Failure("Array length is less than " + IntToString(options.min.value))
    ensures (options.min.None? || |xs| >= options.min.value) && options.max.Some? && |xs| > options.max.value ==>
            Parser(options, parse, Arr(xs)) == Failure("Array length is more than " + IntToString(options.max.value))
  {
  }

  /** A successful parse is an array of the input's length, within the set bounds, whose element i
      is the element field's parse of element i. */
  lemma ParserSuccess<T>(options: ArrayOptions, parse: Value -> Result<T, string>, v: Value)
    requires Parser(options, parse, v).Success?
    ensures v.Arr?
    ensures options.min.None? || |v.items| >= options.min.value
    ensures options.max.None? || |v.items| <= options.max.value
    ensures |Parser(options, parse, v).value| == |v.items|
    ensures forall i :: 0 <= i < |v.items| ==> parse(v.items[i]) == Success(Parser(options, parse, v).value[i])
  {
  }

  /** An array within the set bounds whose elements all parse is accepted; an unset bound
      imposes nothing, so without options any array of parseable elements parses. */
  lemma ParserAccepts<T>(options: ArrayOptions, parse: Value -> Result<T, string>, xs: seq<Value>)
    requires options.min.None? || |xs| >= options.min.value
    requires options.max.None? || |xs| <= options.max.value
    requires forall i :: 0 <= i < |xs| ==> parse(xs[i]).Success?
    ensures Parser(options, parse, Arr(xs)).Success?
  {
    ParseEachSucceeds(parse, xs);
  }

  /** `fromJSONType(toJSONType(a)) == a` whenever the element field round-trips. */
  lemma JSONRoundTrip<V, J>(toJSON: V -> J, fromJSON: J -> V, xs: seq<V>)
    requires forall x :: fromJSON(toJSON(x)) == x
    ensures FromJSONType(fromJSON, ToJSONType(toJSON, xs)) == xs
  {
  }
}
