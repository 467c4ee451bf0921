/** The engine of library/index.ts as the code runs it: `validateOrThrow` dispatching on the
    schema, the `for` loops of the combinators with their early throws, the union's loop
    collecting errors, and `validate` / `returnOrThrow` on top. Every method is proved to
    compute what the specification in module Typem says. */
module TypemEngine {
  import opened Results
  import opened Decimal
  import opened JsValue
  import opened Typem

  /** `type.validateOrThrow(value)`: the factory's own validator, then its refinements or children. */
  method ValidateOrThrow(rev: Revision, s: Schema, v: Value) returns (r: Outcome)
    ensures r == Check(rev, s, v)
    decreases s, 3
  {
    match s
    case TPrim(_, _) =>
      r := ValidatePrim(rev, s, v);
    case TUnion(_) =>
      r := RunUnion(rev, s, v);
    case TObject(_) =>
      r := ValidateObject(rev, s, v);
    case TTuple(_) =>
      r := ValidateTuple(rev, s, v);
    case TArray(_) =>
      r := ValidateArray(rev, s, v);
    case TSet(_) =>
      r := ValidateSet(rev, s, v);
    case TRecord(_, _) =>
      r := ValidateRecord(rev, s, v);
    case TMap(_, _) =>
      r := ValidateMap(rev, s, v);
    case TInstanceOf(_) =>
      r := ValidateInstanceOf(rev, s, v);
    case TEnum(_) =>
      r := ValidateEnum(rev, s, v);
    case TLiteral(_) =>
      r := ValidateLiteral(rev, s, v);
  }

  /** defineType's `validateOrThrow`: the base check, then the refinements. */
  method ValidatePrim(rev: Revision, s: Schema, v: Value) returns (r: Outcome)
    requires s.TPrim?
    ensures r == Check(rev, s, v)
    decreases s, 2
  {
    if !KindAdmits(s.kind, v) {
      r := Complain(rev, v, "Expected " + KindName(s.kind) + ", got ", "");
    } else {
      r := RunRefinements(rev, s.refinements, v);
    }
  }

  /** tObject's validator, then defineComplexType's params step. */
  method ValidateObject(rev: Revision, s: Schema, v: Value) returns (r: Outcome)
    requires s.TObject?
    ensures r == Check(rev, s, v)
    decreases s, 2
  {
    if !IsObjectLike(v) {
      r := Complain(rev, v, "Expected object, got ", "");
    } else {
      r := RunFields(rev, s, v);
      if r.Pass? {
        r := ParamStep(rev, s.shape);
      }
    }
  }

  /** tTuple's validator: an array, of the right length, then each position. */
  method ValidateTuple(rev: Revision, s: Schema, v: Value) returns (r: Outcome)
    requires s.TTuple?
    ensures r == Check(rev, s, v)
    decreases s, 2
  {
    if !v.Arr? {
      r := Complain(rev, v, "Expected a tuple array, got ", "");
    } else if |v.items| != |s.positions| {
      r := Complain(rev, v, "Expected tuple of length " + NatToString(|s.positions|) + ", got ",
                    " with length " + NatToString(|v.items|));
    } else {
      r := RunPositions(rev, s, v.items);
    }
  }

  /** tArray's validator: an array, then each element. */
  method ValidateArray(rev: Revision, s: Schema, v: Value) returns (r: Outcome)
    requires s.TArray?
    ensures r == Check(rev, s, v)
    decreases s, 2
  {
    if !v.Arr? {
      r := Complain(rev, v, "Expected array, got ", "");
    } else {
      r := RunElements(rev, s, v.items);
    }
  }

  /** tSet's validator: a Set, then each item. */
  method ValidateSet(rev: Revision, s: Schema, v: Value) returns (r: Outcome)
    requires s.TSet?
    ensures r == Check(rev, s, v)
    decreases s, 2
  {
    if !v.SetV? {
      r := Complain(rev, v, "Expected Set, got ", "");
    } else {
      r := RunSetItems(rev, s, v.members);
    }
  }

  /** tRecord's validator: an object that is not null, then each own entry. */
  method ValidateRecord(rev: Revision, s: Schema, v: Value) returns (r: Outcome)
    requires s.TRecord?
    ensures r == Check(rev, s, v)
    decreases s, 2
  {
    if !IsObjectLike(v) {
      r := Complain(rev, v, "Expected object, got ", "");
    } else {
      r := RunRecordEntries(rev, s, OwnEntries(v));
    }
  }

  /** tMap's validator: a Map, then each pair. */
  method ValidateMap(rev: Revision, s: Schema, v: Value) returns (r: Outcome)
    requires s.TMap?
    ensures r == Check(rev, s, v)
    decreases s, 2
  {
    if !v.MapV? {
      r := Complain(rev, v, "Expected Map, got ", "");
    } else {
      r := RunMapPairs(rev, s, v.pairs);
    }
  }

  /** tInstanceOf's validator: `value instanceof constructor`. */
  method ValidateInstanceOf(rev: Revision, s: Schema, v: Value) returns (r: Outcome)
    requires s.TInstanceOf?
    ensures r == Check(rev, s, v)
  {
    r := if s.className in Chain(v) then Pass
         else Complain(rev, v, "Expected instance of " + s.className + ", got ", "");
  }

  /** tEnum's validator: `values.includes(value)`, strict equality against each listed value. */
  method ValidateEnum(rev: Revision, s: Schema, v: Value) returns (r: Outcome)
    requires s.TEnum?
    ensures r == Check(rev, s, v)
  {
    r := if exists i :: 0 <= i < |s.values| && StrictEq(s.values[i], v) then Pass
         else Complain(rev, v, "Expected one of [" + EnumText(s.values) + "], got ", "");
  }

  /** tLiteral's validator: `value !== literal` throws, with the literal rendered by `toString`. */
  method ValidateLiteral(rev: Revision, s: Schema, v: Value) returns (r: Outcome)
    requires s.TLiteral?
    ensures r == Check(rev, s, v)
  {
    if StrictEq(v, s.literal) {
      r := Pass;
    } else {
      var text := LiteralText(s.literal);
      r := if text.Failure? then Fail(text.error)
           else Complain(rev, v, "Expected literal " + text.value + ", got ", "");
    }
  }

  /** `validators.forEach(validator => validator.validate(value))`: the first refinement that throws decides. */
  method RunRefinements(rev: Revision, refinements: seq<Refinement>, v: Value) returns (r: Outcome)
    ensures r == FirstFailure(RefinementOutcomes(rev, refinements, v))
  {
    ghost var rs := RefinementOutcomes(rev, refinements, v);
    var i := 0;
    while i < |refinements|
      invariant 0 <= i <= |refinements|
      invariant FirstFailure(rs) == FirstFailure(rs[i..])
    {
      var o := Refine(rev, refinements[i], v);
      if o.Fail? {
        return o;
      }
      i := i + 1;
    }
    r := Pass;
  }

  /** tUnion's loop: return at the first member that accepts, rethrow a foreign error,
      collect Typem errors and report them all when no member accepts. */
  method RunUnion(rev: Revision, s: Schema, v: Value) returns (r: Outcome)
    requires s.TUnion?
    ensures r == UnionOf(MemberOutcomes(rev, s, v))
    decreases s, 1
  {
    ghost var rs := MemberOutcomes(rev, s, v);
    var errors: seq<string> := [];
    var i := 0;
    while i < |s.members|
      invariant 0 <= i <= |s.members|
      invariant UnionOf(rs) == UnionFrom(rs[i..], errors)
    {
      var decided, o, next := UnionTurn(rev, s, v, i, errors);
      if decided {
        return o;
      }
      errors := next;
      i := i + 1;
    }
    assert rs[i..] == [];
    r := Fail(TypemError(UnionMessage(errors)));
  }

  /** One member of a union: its outcome decides, or its message joins the collected ones. */
  method UnionTurn(rev: Revision, s: Schema, v: Value, i: nat, errors: seq<string>)
      returns (decided: bool, o: Outcome, next: seq<string>)
    requires s.TUnion? && i < |s.members|
    ensures decided ==> UnionFrom(MemberOutcomes(rev, s, v)[i..], errors) == o
    ensures !decided ==> UnionFrom(MemberOutcomes(rev, s, v)[i..], errors) ==
                         UnionFrom(MemberOutcomes(rev, s, v)[i + 1..], next)
    decreases s, 0
  {
    o := ValidateOrThrow(rev, s.members[i], v);
    UnionFromStep(MemberOutcomes(rev, s, v), i, errors);
    decided := o.Pass? || !o.err.TypemError?;
    next := if decided then errors else errors + [o.err.message];
  }


  /** tObject's loop over the shape's entries: the first failing key decides, its Typem error
      prefixed with `"<key>: "`, any other error rethrown as it is. */
  method RunFields(rev: Revision, s: Schema, v: Value) returns (r: Outcome)
    requires s.TObject?
    ensures r == FirstFailure(FieldOutcomes(rev, s, v))
    decreases s, 1
  {
    ghost var rs := FieldOutcomes(rev, s, v);
    var i := 0;
    while i < |s.shape|
      invariant 0 <= i <= |s.shape|
      invariant FirstFailure(rs) == FirstFailure(rs[i..])
    {
      var o := TryField(rev, s, v, i);
      if o.Fail? {
        return o;
      }
      i := i + 1;
    }
    r := Pass;
  }

  /** The `try`/`catch` around one key: a Typem error gets `"<key>: "` prefixed,
      any other error is rethrown as it is. */
  method TryField(rev: Revision, s: Schema, v: Value, i: nat) returns (r: Outcome)
    requires s.TObject? && i < |s.shape|
    ensures r == FieldOutcomes(rev, s, v)[i]
    decreases s, 0
  {
    var (key, t) := s.shape[i];
    assert s.shape[i] in s.shape;
    var o := ValidateOrThrow(rev, t, Get(v, key));
    r := if o.Fail? && o.err.TypemError? then Fail(TypemError(key + ": " + o.err.message)) else o;
  }

  /** tTuple's indexed loop, run once the length matches. */
  method RunPositions(rev: Revision, s: Schema, xs: seq<Value>) returns (r: Outcome)
    requires s.TTuple? && |xs| == |s.positions|
    ensures r == FirstFailure(PositionOutcomes(rev, s, xs))
    decreases s, 1
  {
    ghost var rs := PositionOutcomes(rev, s, xs);
    var i := 0;
    while i < |s.positions|
      invariant 0 <= i <= |s.positions|
      invariant FirstFailure(rs) == FirstFailure(rs[i..])
    {
      var o := TryPosition(rev, s, xs, i);
      if o.Fail? {
        return o;
      }
      i := i + 1;
    }
    r := Pass;
  }

  /** The `try`/`catch` around one position: a Typem error gets the position prefixed,
      any other error is rethrown as it is. */
  method TryPosition(rev: Revision, s: Schema, xs: seq<Value>, i: nat) returns (r: Outcome)
    requires s.TTuple? && |xs| == |s.positions| && i < |xs|
    ensures r == PositionOutcomes(rev, s, xs)[i]
    decreases s, 0
  {
    var o := ValidateOrThrow(rev, s.positions[i], xs[i]);
    r := if o.Fail? && o.err.TypemError? then Fail(TypemError(IndexPrefix(i) + o.err.message)) else o;
  }

  /** tArray's indexed loop. */
  method RunElements(rev: Revision, s: Schema, xs: seq<Value>) returns (r: Outcome)
    requires s.TArray?
    ensures r == FirstFailure(ElementOutcomes(rev, s, xs))
    decreases s, 1
  {
    ghost var rs := ElementOutcomes(rev, s, xs);
    var i := 0;
    while i < |xs|
      invariant 0 <= i <= |xs|
      invariant FirstFailure(rs) == FirstFailure(rs[i..])
    {
      var o := TryElement(rev, s, xs, i);
      if o.Fail? {
        return o;
      }
      i := i + 1;
    }
    r := Pass;
  }

  /** The `try`/`catch` around one element: a Typem error gets the index prefixed,
      any other error is rethrown as it is. */
  method TryElement(rev: Revision, s: Schema, xs: seq<Value>, i: nat) returns (r: Outcome)
    requires s.TArray? && i < |xs|
    ensures r == ElementOutcomes(rev, s, xs)[i]
    decreases s, 0
  {
    var o := ValidateOrThrow(rev, s.element, xs[i]);
    r := if o.Fail? && o.err.TypemError? then Fail(TypemError(IndexPrefix(i) + o.err.message)) else o;
  }

  /** tSet's `forEach`: the prefix renders the item, which is what `forEach` passes as index. */
  method RunSetItems(rev: Revision, s: Schema, xs: seq<Value>) returns (r: Outcome)
    requires s.TSet?
    ensures r == FirstFailure(SetOutcomes(rev, s, xs))
    decreases s, 1
  {
    ghost var rs := SetOutcomes(rev, s, xs);
    var i := 0;
    while i < |xs|
      invariant 0 <= i <= |xs|
      invariant FirstFailure(rs) == FirstFailure(rs[i..])
    {
      var o := TrySetItem(rev, s, xs, i);
      if o.Fail? {
        return o;
      }
      i := i + 1;
    }
    r := Pass;
  }

  /** The callback passed to `forEach` for one item: a Typem error gets `Set[<item>]: `
      prefixed, which renders the item and may itself throw; any other error is rethrown. */
  method TrySetItem(rev: Revision, s: Schema, xs: seq<Value>, i: nat) returns (r: Outcome)
    requires s.TSet? && i < |xs|
    ensures r == SetOutcomes(rev, s, xs)[i]
    decreases s, 0
  {
    var o := ValidateOrThrow(rev, s.element, xs[i]);
    if o.Fail? && o.err.TypemError? {
      var index := Template(rev, xs[i]);
      r := if index.Failure? then Fail(index.error)
           else Fail(TypemError("Set[" + index.value + "]: " + o.err.message));
    } else {
      r := o;
    }
  }

  /** tRecord's loop over `Object.entries(value)`: key, then value, errors not prefixed. */
  method RunRecordEntries(rev: Revision, s: Schema, entries: seq<(string, Value)>) returns (r: Outcome)
    requires s.TRecord?
    ensures r == FirstFailure(RecordOutcomes(rev, s, entries))
    decreases s, 1
  {
    ghost var rs := RecordOutcomes(rev, s, entries);
    var i := 0;
    while i < |entries|
      invariant 0 <= i <= |entries|
      invariant FirstFailure(rs) == FirstFailure(rs[i..])
    {
      var (key, value) := entries[i];
      var o := CheckEntry(rev, s, Str(key), value);
      if o.Fail? {
        return o;
      }
      i := i + 1;
    }
    r := Pass;
  }

  /** One entry of a record or a map: `keyType.validateOrThrow(key)`, then
      `valueType.validateOrThrow(value)`. */
  method CheckEntry(rev: Revision, s: Schema, key: Value, value: Value) returns (r: Outcome)
    requires s.TRecord? || s.TMap?
    ensures r == EntryOutcome(rev, s, key, value)
    decreases s, 0
  {
    r := ValidateOrThrow(rev, s.keyType, key);
    if r.Pass? {
      r := ValidateOrThrow(rev, s.valueType, value);
    }
    assert EntryOutcome(rev, s, key, value) ==
           if Check(rev, s.keyType, key).Fail? then Check(rev, s.keyType, key) else Check(rev, s.valueType, value);
  }

  /** tMap's loop over the map's entries: key, then value, errors not prefixed. */
  method RunMapPairs(rev: Revision, s: Schema, pairs: seq<(Value, Value)>) returns (r: Outcome)
    requires s.TMap?
    ensures r == FirstFailure(MapOutcomes(rev, s, pairs))
    decreases s, 1
  {
    ghost var rs := MapOutcomes(rev, s, pairs);
    var i := 0;
    while i < |pairs|
      invariant 0 <= i <= |pairs|
      invariant FirstFailure(rs) == FirstFailure(rs[i..])
    {
      var (key, value) := pairs[i];
      var o := CheckEntry(rev, s, key, value);
      if o.Fail? {
        return o;
      }
      i := i + 1;
    }
    r := Pass;
  }

  /** `type.validate(value)`: validateOrThrow inside a catch-all; it never throws. */
  method Validate(rev: Revision, s: Schema, v: Value) returns (ok: bool)
    ensures ok <==> Check(rev, s, v) == Pass
  {
    var o := ValidateOrThrow(rev, s, v);
    ok := o.Pass?;
  }

  /** `type.returnOrThrow(value)`: the value itself, unchanged, or the error validateOrThrow threw. */
  method ReturnOrThrow(rev: Revision, s: Schema, v: Value) returns (r: Result<Value, Err>)
    ensures r.Success? <==> Check(rev, s, v) == Pass
    ensures r.Success? ==> r.value == v
    ensures r.Failure? ==> Check(rev, s, v) == Fail(r.error)
  {
    var o := ValidateOrThrow(rev, s, v);
    r := if o.Pass? then Success(v) else Failure(o.err);
  }
}
