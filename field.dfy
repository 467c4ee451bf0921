/** library/field.ts: validators as boolean predicates over values, and combinators over them. */
module Field {
  import opened Results
  import opened JsValue

  /** A validator: `(value: unknown) => value is T`. */
  type Validator = Value -> bool

  // ---------------------------------------------------------------------------
  // Base validators

  function IsString(): Validator {
    (v: Value) => TypeOf(v) == "string"
  }

  function IsNumber(): Validator {
    (v: Value) => TypeOf(v) == "number"
  }

  function IsBoolean(): Validator {
    (v: Value) => TypeOf(v) == "boolean"
  }

  /** `nullable(validator)` */
  function Nullable(p: Validator): Validator {
    (v: Value) => v == Null || p(v)
  }

  // ---------------------------------------------------------------------------
  // The early-exit loops, as recursion over what they iterate

  /** `for (const key in validators) if (!validators[key](value[key])) return false; return true` */
  predicate AllKeysHold(shape: seq<(string, Validator)>, v: Value)
    decreases |shape|
  {
    shape == [] || (shape[0].1(Get(v, shape[0].0)) && AllKeysHold(shape[1..], v))
  }

  /** `for (const item of value) if (!validator(item)) return false; return true` */
  predicate AllItemsHold(p: Validator, items: seq<Value>)
    decreases |items|
  {
    items == [] || (p(items[0]) && AllItemsHold(p, items[1..]))
  }

  /** `for (const validator of validators) if (validator(value)) return true; return false` */
  predicate SomeHolds(ps: seq<Validator>, v: Value)
    decreases |ps|
  {
    ps != [] && (ps[0](v) || SomeHolds(ps[1..], v))
  }

  /** `for (const validator of validators) if (!validator(value)) return false; return true` */
  predicate AllHold(ps: seq<Validator>, v: Value)
    decreases |ps|
  {
    ps == [] || (ps[0](v) && AllHold(ps[1..], v))
  }

  /** `for (const v of values) if (v === value) return true; return false` */
  predicate SomeStrictEq(xs: seq<Value>, v: Value)
    decreases |xs|
  {
    xs != [] && (StrictEq(xs[0], v) || SomeStrictEq(xs[1..], v))
  }

  // ---------------------------------------------------------------------------
  // Combinators

  /** `object(validators)`: a non-null object every declared key of which passes its validator. */
  function Object(shape: seq<(string, Validator)>): Validator {
    (v: Value) => TypeOf(v) == "object" && v != Null && AllKeysHold(shape, v)
  }

  /** `array(validator)` */
  function ArrayOf(p: Validator): Validator {
    (v: Value) => v.Arr? && AllItemsHold(p, v.items)
  }

  /** `union(...validators)` */
  function Union(ps: seq<Validator>): Validator {
    (v: Value) => SomeHolds(ps, v)
  }

  /** `intersection(...validators)` */
  function Intersection(ps: seq<Validator>): Validator {
    (v: Value) => AllHold(ps, v)
  }

  /** `value >= bound` on a value the inner validator accepted: a number compares, anything else
      (NaN after coercion) does not. */
  predicate AtLeast(v: Value, bound: int) {
    v.Num? && v.n >= bound
  }

  predicate AtMost(v: Value, bound: int) {
    v.Num? && v.n <= bound
  }

  /** `min(validator, min)` */
  function Min(p: Validator, bound: int): Validator {
    (v: Value) => p(v) && AtLeast(v, bound)
  }

  /** `max(validator, max)` */
  function Max(p: Validator, bound: int): Validator {
    (v: Value) => p(v) && AtMost(v, bound)
  }

  /** `range(validator, min, max)` */
  function Range(p: Validator, lo: int, hi: int): Validator {
    (v: Value) => p(v) && AtLeast(v, lo) && AtMost(v, hi)
  }

  /** `value.length` compared with a bound: strings and arrays have a length; any other value's
      `length` is undefined and every comparison with it is false. */
  predicate LengthAtLeast(v: Value, bound: int) {
    LengthOf(v).Some? && LengthOf(v).value >= bound
  }

  predicate LengthAtMost(v: Value, bound: int) {
    LengthOf(v).Some? && LengthOf(v).value <= bound
  }

  /** `minLength(validator, min)` */
  function MinLength(p: Validator, bound: int): Validator {
    (v: Value) => p(v) && LengthAtLeast(v, bound)
  }

  /** `maxLength(validator, max)` */
  function MaxLength(p: Validator, bound: int): Validator {
    (v: Value) => p(v) && LengthAtMost(v, bound)
  }

  /** `lengthRange(validator, min, max)` */
  function LengthRange(p: Validator, lo: int, hi: int): Validator {
    (v: Value) => p(v) && LengthAtLeast(v, lo) && LengthAtMost(v, hi)
  }

  /** `length(validator, length)` */
  function Length(p: Validator, n: int): Validator {
    (v: Value) => p(v) && LengthOf(v) == Some(n)
  }

  /** `literal(value)` */
  function Literal(x: Value): Validator {
    (v: Value) => StrictEq(v, x)
  }

  /** `oneOf(...values)` */
  function OneOf(xs: seq<Value>): Validator {
    (v: Value) => SomeStrictEq(xs, v)
  }

  /** `parse(validator, value)`: the value itself, or the error "Invalid value". */
  function Parse(p: Validator, v: Value): (r: Result<Value, string>)
    ensures r.Success? <==> p(v)
    ensures r.Success? ==> r.value == v
    ensures r.Failure? ==> r.error == "Invalid value"
  {
    if p(v) then Success(v) else Failure("Invalid value")
  }

  // ---------------------------------------------------------------------------
  // What the loops compute

  lemma {:induction false} AllKeysHoldIff(shape: seq<(string, Validator)>, v: Value)
    ensures AllKeysHold(shape, v) <==> forall i :: 0 <= i < |shape| ==> shape[i].1(Get(v, shape[i].0))
    decreases |shape|
  {
    if shape != [] {
      AllKeysHoldIff(shape[1..], v);
      assert forall i :: 1 <= i < |shape| ==> shape[i] == shape[1..][i - 1];
    }
  }

  lemma {:induction false} AllItemsHoldIff(p: Validator, items: seq<Value>)
    ensures AllItemsHold(p, items) <==> forall i :: 0 <= i < |items| ==> p(items[i])
    decreases |items|
  {
    if items != [] {
      AllItemsHoldIff(p, items[1..]);
      assert forall i :: 1 <= i < |items| ==> items[i] == items[1..][i - 1];
    }
  }

  lemma {:induction false} SomeHoldsIff(ps: seq<Validator>, v: Value)
    ensures SomeHolds(ps, v) <==> exists i :: 0 <= i < |ps| && ps[i](v)
    decreases |ps|
  {
    if ps != [] {
      SomeHoldsIff(ps[1..], v);
      assert forall i :: 1 <= i < |ps| ==> ps[i] == ps[1..][i - 1];
      if exists i :: 0 <= i < |ps| && ps[i](v) {
        var i :| 0 <= i < |ps| && ps[i](v);
        if i > 0 { assert ps[1..][i - 1](v); }
      }
    }
  }

  lemma {:induction false} AllHoldIff(ps: seq<Validator>, v: Value)
    ensures AllHold(ps, v) <==> forall i :: 0 <= i < |ps| ==> ps[i](v)
    decreases |ps|
  {
    if ps != [] {
      AllHoldIff(ps[1..], v);
      assert forall i :: 1 <= i < |ps| ==> ps[i] == ps[1..][i - 1];
    }
  }

  lemma {:induction false} SomeStrictEqIff(xs: seq<Value>, v: Value)
    ensures SomeStrictEq(xs, v) <==> exists i :: 0 <= i < |xs| && StrictEq(xs[i], v)
    decreases |xs|
  {
    if xs != [] {
      SomeStrictEqIff(xs[1..], v);
      assert forall i :: 1 <= i < |xs| ==> xs[i] == xs[1..][i - 1];
      if exists i :: 0 <= i < |xs| && StrictEq(xs[i], v) {
        var i :| 0 <= i < |xs| && StrictEq(xs[i], v);
        if i > 0 { assert StrictEq(xs[1..][i - 1], v); }
      }
    }
  }

  // ---------------------------------------------------------------------------
  // Properties of the combinators

  /** `nullable(v)` accepts null plus exactly what `v` accepts: it is the union of `literal(null)` and `v`. */
  lemma NullableIsUnionWithNull(p: Validator, v: Value)
    ensures Nullable(p)(v) <==> v == Null || p(v)
    ensures Nullable(p)(v) == Union([Literal(Null), p])(v)
  {
    SomeHoldsIff([Literal(Null), p], v);
    assert [Literal(Null), p][0] == Literal(Null) && [Literal(Null), p][1] == p;
  }

  /** `object(validators)` is false for non-objects and null, and otherwise true iff every declared
      key's validator accepts that property. */
  lemma ObjectIff(shape: seq<(string, Validator)>, v: Value)
    ensures Object(shape)(v) <==>
            IsObjectLike(v) && forall i :: 0 <= i < |shape| ==> shape[i].1(Get(v, shape[i].0))
  {
    AllKeysHoldIff(shape, v);
  }

  /** `array(v)` accepts exactly the arrays every element of which `v` accepts; in particular `[]`. */
  lemma ArrayOfIff(p: Validator, v: Value)
    ensures ArrayOf(p)(v) <==> v.Arr? && forall i :: 0 <= i < |v.items| ==> p(v.items[i])
    ensures ArrayOf(p)(Arr([]))
  {
    if v.Arr? { AllItemsHoldIff(p, v.items); }
  }

  /** `union` accepts iff some member accepts, so the empty union rejects everything. */
  lemma UnionIff(ps: seq<Validator>, v: Value)
    ensures Union(ps)(v) <==> exists i :: 0 <= i < |ps| && ps[i](v)
    ensures !Union([])(v)
  {
    SomeHoldsIff(ps, v);
  }

  /** `intersection` accepts iff every member accepts, so the empty intersection accepts everything. */
  lemma IntersectionIff(ps: seq<Validator>, v: Value)
    ensures Intersection(ps)(v) <==> forall i :: 0 <= i < |ps| ==> ps[i](v)
    ensures Intersection([])(v)
  {
    AllHoldIff(ps, v);
  }

  /** On numbers, `min`, `max` and `range` are inclusive bounds after the inner validator, and
      `range(v, a, b)` accepts exactly what `min(max(v, b), a)` accepts. */
  lemma BoundsInclusive(p: Validator, a: int, b: int, v: Value)
    requires v.Num?
    ensures Min(p, a)(v) <==> p(v) && v.n >= a
    ensures Max(p, b)(v) <==> p(v) && v.n <= b
    ensures Range(p, a, b)(v) <==> p(v) && a <= v.n <= b
    ensures Range(p, a, b)(v) == Min(Max(p, b), a)(v)
  {
  }

  /** Whatever the value, `range(v, a, b)` is `min(max(v, b), a)`. */
  lemma RangeIsMinOfMax(p: Validator, a: int, b: int, v: Value)
    ensures Range(p, a, b)(v) == Min(Max(p, b), a)(v)
  {
  }

  /** On strings and arrays, the length bounds are inclusive and `length` is exact; `lengthRange`
      is `minLength` of `maxLength`. */
  lemma LengthBoundsInclusive(p: Validator, a: int, b: int, v: Value)
    requires v.Str? || v.Arr?
    ensures var len := if v.Str? then Utf16Length(v.s) else |v.items|;
      && (MinLength(p, a)(v) <==> p(v) && len >= a)
      && (MaxLength(p, b)(v) <==> p(v) && len <= b)
      && (LengthRange(p, a, b)(v) <==> p(v) && a <= len <= b)
      && (Length(p, a)(v) <==> p(v) && len == a)
    ensures LengthRange(p, a, b)(v) == MinLength(MaxLength(p, b), a)(v)
  {
  }

  /** `oneOf(...xs)` accepts exactly what the union of `literal(x)` for each `x` accepts. */
  lemma OneOfIsUnionOfLiterals(xs: seq<Value>, v: Value)
    ensures OneOf(xs)(v) <==> exists i :: 0 <= i < |xs| && StrictEq(v, xs[i])
    ensures OneOf(xs)(v) == Union(seq(|xs|, i requires 0 <= i < |xs| => Literal(xs[i])))(v)
  {
    var literals := seq(|xs|, i requires 0 <= i < |xs| => Literal(xs[i]));
    SomeStrictEqIff(xs, v);
    SomeHoldsIff(literals, v);
    assert forall i :: 0 <= i < |xs| ==> (literals[i](v) <==> StrictEq(v, xs[i]));
    forall i | 0 <= i < |xs| ensures StrictEq(xs[i], v) <==> StrictEq(v, xs[i]) {
      StrictEqSymmetric(xs[i], v);
    }
  }

  lemma StrictEqSymmetric(a: Value, b: Value)
    ensures StrictEq(a, b) <==> StrictEq(b, a)
  {
  }

  /** `literal(x)` accepts nothing but values strictly equal to `x`; a primitive literal accepts itself. */
  lemma LiteralAcceptsOnlyEqual(x: Value, v: Value)
    ensures Literal(x)(v) ==> v == x
    ensures !IsObjectLike(x) ==> Literal(x)(x)
  {
  }

  /** `parse` returns an accepted value unchanged, and parsing its own output again gives the same result. */
  lemma ParseIdempotent(p: Validator, v: Value)
    requires Parse(p, v).Success?
    ensures Parse(p, Parse(p, v).value) == Parse(p, v)
  {
  }
}
