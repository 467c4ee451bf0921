/** The runtime type-checking engine of library/index.ts as a specification:
    schemas (what `tString(...)`, `tUnion(...)`, `tObject(...)` and the other factories
    build) and the outcome of `validateOrThrow` on a value. Thrown errors become
    `Fail` outcomes; a `Typem.Error` is a `TypemError`, anything else a `Foreign` error. */
module Typem {
  import opened Results
  import opened Seqs
  import opened Decimal
  import opened JsValue

  /** The engine is modelled twice over: exactly as written, and with the three defects
      of the written code removed (see `Template`, `Got` and `ParamStep`). */
  datatype Revision = AsWritten | Corrected

  datatype Err = TypemError(message: string) | Foreign(message: string)

  datatype Outcome = Pass | Fail(err: Err)

  const SymbolConversion := "TypeError: Cannot convert a Symbol value to a string"
  const SymbolToNumber := "TypeError: Cannot convert a Symbol value to a number"
  const ValidateNotAFunction := "TypeError: param?.validate is not a function"
  const UnionHeader := "No match with any of the union types:\n"

  /** The primitive checks made with `defineType`. */
  datatype Kind =
    | StringK | NumberK | IntK | BigintK | BooleanK | SymbolK
    | FunctionK | DateK | NullK | UndefinedK | UnknownK | BytesK

  /** The `v*` refinements; the date and time ones are the fixed digit-shape patterns. */
  datatype Refinement =
    | Gt(bound: int) | Gte(bound: int) | Lt(bound: int) | Lte(bound: int)
    | Range(min: int, max: int)
    | Length(length: int) | MinLength(length: int) | MaxLength(length: int)
    | LengthRange(minLength: int, maxLength: int)
    | StartsWith(prefix: string) | EndsWith(suffix: string) | Contains(substring: string)
    | DateISO | TimeISO | DateTimeISO

  /** An enum member is a string or a number. */
  type EnumMember = v: Value | v.Str? || v.Num? witness Num(0)

  /** A schema: one constructor per factory of library/index.ts. */
  datatype Schema =
    | TPrim(kind: Kind, refinements: seq<Refinement>)
    | TUnion(members: seq<Schema>)
    | TObject(shape: seq<(string, Schema)>)
    | TTuple(positions: seq<Schema>)
    | TArray(element: Schema)
    | TSet(element: Schema)
    | TRecord(keyType: Schema, valueType: Schema)
    | TMap(keyType: Schema, valueType: Schema)
    | TInstanceOf(className: string)
    | TEnum(values: seq<EnumMember>)
    | TLiteral(literal: Value)

  /** `tOptional(t)` is `tUnion(t, tNull(), tUndefined())`. */
  function Optional(t: Schema): (s: Schema)
    ensures s.TUnion? && |s.members| == 3 && s.members[0] == t
  {
    TUnion([t, TPrim(NullK, []), TPrim(UndefinedK, [])])
  }

  // ---------------------------------------------------------------------------
  // tIntersection: Object.assign({}, ...shapes) then tObject

  /** Assign one property onto a shape: an existing key keeps its place and takes the new validator. */
  function Put(target: seq<(string, Schema)>, key: string, t: Schema): seq<(string, Schema)> {
    if target == [] then [(key, t)]
    else if target[0].0 == key then [(key, t)] + target[1..]
    else [target[0]] + Put(target[1..], key, t)
  }

  /** `Object.assign(target, source)` on shapes. */
  function Assign(target: seq<(string, Schema)>, source: seq<(string, Schema)>): seq<(string, Schema)>
    decreases |source|
  {
    if source == [] then target
    else Assign(Put(target, source[0].0, source[0].1), source[1..])
  }

  /** `Object.assign({}, ...shapes)` */
  function MergeShapes(shapes: seq<seq<(string, Schema)>>): seq<(string, Schema)>
    decreases |shapes|
  {
    if shapes == [] then [] else Assign(MergeShapes(shapes[..|shapes| - 1]), shapes[|shapes| - 1])
  }

  /** `tIntersection(...objects)`: one object type over the merged shape. */
  function Intersection(shapes: seq<seq<(string, Schema)>>): Schema {
    TObject(MergeShapes(shapes))
  }

  // ---------------------------------------------------------------------------
  // Messages

  /** The template-literal rendering of a value, as in `got()` and in `tSet`'s `Set[${index}]`
      prefix. As written it throws on a symbol; the corrected revision renders every value in
      both places. */
  function Template(rev: Revision, v: Value): Result<string, Err> {
    if rev == AsWritten && ContainsSymbol(v) then Failure(Foreign(SymbolConversion))
    else Success(Show(v))
  }

  /** `got(value)`: `"<typeof>: <text>"`, or just the `typeof` when the text is empty. */
  function Got(rev: Revision, v: Value): Result<string, Err> {
    match Template(rev, v)
    case Failure(e) => Failure(e)
    case Success(t) => Success(if t == "" then TypeOf(v) else TypeOf(v) + ": " + t)
  }

  /** Throw `Typem.Error(before + got(value) + after)`; building the message may itself throw. */
  function Complain(rev: Revision, v: Value, before: string, after: string): Outcome {
    match Got(rev, v)
    case Failure(e) => Fail(e)
    case Success(g) => Fail(TypemError(before + g + after))
  }

  /** Wrap a child's Typem error with a path prefix; other errors pass through unchanged. */
  function Within(prefix: string, o: Outcome): Outcome {
    match o
    case Fail(TypemError(m)) => Fail(TypemError(prefix + m))
    case _ => o
  }

  function IndexPrefix(i: nat): string {
    "[" + NatToString(i) + "]: "
  }

  /** The message a failed member contributed to a union (empty for non-Typem outcomes). */
  function MessageOf(o: Outcome): string {
    if o.Fail? && o.err.TypemError? then o.err.message else ""
  }

  /** The aggregated union message: header, then one tab-indented line per member. */
  function UnionMessage(messages: seq<string>): string {
    UnionHeader + Join("\n", seq(|messages|, i requires 0 <= i < |messages| => "\t" + messages[i]))
  }

  // ---------------------------------------------------------------------------
  // Primitive checks and refinements

  function KindName(k: Kind): string {
    match k
    case StringK => "string"
    case NumberK => "number"
    case IntK => "integer"
    case BigintK => "bigint"
    case BooleanK => "boolean"
    case SymbolK => "symbol"
    case FunctionK => "function"
    case DateK => "Date"
    case NullK => "null"
    case UndefinedK => "undefined"
    case UnknownK => "unknown"
    case BytesK => "Uint8Array"
  }

  /** The base check of a primitive (integers only, so `Number.isInteger` holds of every number). */
  predicate KindAdmits(k: Kind, v: Value) {
    match k
    case StringK => v.Str?
    case NumberK => v.Num?
    case IntK => v.Num?
    case BigintK => v.Big?
    case BooleanK => v.Bool?
    case SymbolK => v.Sym?
    case FunctionK => "Function" in Chain(v)
    case DateK => "Date" in Chain(v)
    case NullK => v.Null?
    case UndefinedK => v.Undef?
    case UnknownK => true
    case BytesK => "Uint8Array" in Chain(v)
  }

  predicate HasPrefix(s: string, p: string) {
    |p| <= |s| && s[..|p|] == p
  }

  predicate HasSuffix(s: string, p: string) {
    |p| <= |s| && s[|s| - |p|..] == p
  }

  predicate HasSubstring(s: string, p: string) {
    exists i :: 0 <= i <= |s| && HasPrefix(s[i..], p)
  }

  /** A fixed digit-shape pattern: 'd' stands for `\d`, every other character for itself. */
  predicate MatchesShape(s: string, shape: string) {
    |s| == |shape| &&
    forall i :: 0 <= i < |s| ==> if shape[i] == 'd' then IsDigit(s[i]) else s[i] == shape[i]
  }

  function PatternShape(r: Refinement): string
    requires r.DateISO? || r.TimeISO? || r.DateTimeISO?
  {
    match r
    case DateISO => "dddd-dd-dd"
    case TimeISO => "dd:dd:dd"
    case DateTimeISO => "dddd-dd-ddTdd:dd:dd"
  }

  /** The TypeError raised by `value.length` or `value.startsWith(...)` and the like: reading a
      property of null or undefined, or calling a method the value does not have. */
  function PropertyError(v: Value, property: string): Err {
    if v.Null? then Foreign("TypeError: Cannot read properties of null (reading '" + property + "')")
    else if v.Undef? then Foreign("TypeError: Cannot read properties of undefined (reading '" + property + "')")
    else Foreign("TypeError: value." + property + " is not a function")
  }

  /** The TypeError `<`, `<=`, `>` or `>=` raises on an operand holding a symbol: a symbol
      has no numeric value, and an array holding one cannot be joined into a string. */
  function SymbolComparison(v: Value): Err {
    if v.Sym? then Foreign(SymbolToNumber) else Foreign(SymbolConversion)
  }

  /** Does the refinement let `v` through? Errors are the TypeErrors the guard itself raises. */
  function Admits(r: Refinement, v: Value): Result<bool, Err> {
    match r
    case Gt(b) => if ContainsSymbol(v) then Failure(SymbolComparison(v)) else Success(NumericOf(v).None? || NumericOf(v).value > b)
    case Gte(b) => if ContainsSymbol(v) then Failure(SymbolComparison(v)) else Success(NumericOf(v).None? || NumericOf(v).value >= b)
    case Lt(b) => if ContainsSymbol(v) then Failure(SymbolComparison(v)) else Success(NumericOf(v).None? || NumericOf(v).value < b)
    case Lte(b) => if ContainsSymbol(v) then Failure(SymbolComparison(v)) else Success(NumericOf(v).None? || NumericOf(v).value <= b)
    case Range(lo, hi) =>
      if ContainsSymbol(v) then Failure(SymbolComparison(v)) else Success(NumericOf(v).None? || lo <= NumericOf(v).value <= hi)
    case Length(n) =>
      if v.Null? || v.Undef? then Failure(PropertyError(v, "length"))
      else Success(LengthOf(v).Some? && LengthOf(v).value == n)
    case MinLength(n) =>
      if v.Null? || v.Undef? then Failure(PropertyError(v, "length"))
      else Success(LengthOf(v).None? || LengthOf(v).value >= n)
    case MaxLength(n) =>
      if v.Null? || v.Undef? then Failure(PropertyError(v, "length"))
      else Success(LengthOf(v).None? || LengthOf(v).value <= n)
    case LengthRange(lo, hi) =>
      if v.Null? || v.Undef? then Failure(PropertyError(v, "length"))
      else Success(LengthOf(v).None? || lo <= LengthOf(v).value <= hi)
    case StartsWith(p) => if v.Str? then Success(HasPrefix(v.s, p)) else Failure(PropertyError(v, "startsWith"))
    case EndsWith(p) => if v.Str? then Success(HasSuffix(v.s, p)) else Failure(PropertyError(v, "endsWith"))
    case Contains(p) =>
      if v.Str? then Success(HasSubstring(v.s, p))
      else if v.Arr? then Success(Str(p) in v.items)
      else Failure(PropertyError(v, "includes"))
    case _ =>
      if ContainsSymbol(v) then Failure(Foreign(SymbolConversion))
      else Success(MatchesShape(Show(v), PatternShape(r)))
  }

  /** The text after `got(value)` in a refinement's message. */
  function Requirement(r: Refinement): string {
    match r
    case Gt(b) => "to be greater than " + IntToString(b)
    case Gte(b) => "to be greater than or equal to " + IntToString(b)
    case Lt(b) => "to be less than " + IntToString(b)
    case Lte(b) => "to be less than or equal to " + IntToString(b)
    case Range(lo, hi) => "to be between " + IntToString(lo) + " and " + IntToString(hi)
    case Length(n) => "to have length " + IntToString(n)
    case MinLength(n) => "to have length at least " + IntToString(n)
    case MaxLength(n) => "to have length at most " + IntToString(n)
    case LengthRange(lo, hi) => "to have length between " + IntToString(lo) + " and " + IntToString(hi)
    case StartsWith(p) => "to start with " + p
    case EndsWith(p) => "to end with " + p
    case Contains(p) => "to contain " + p
    case DateISO => "to match /^\\d{4}-\\d{2}-\\d{2}$/"
    case TimeISO => "to match /^\\d{2}:\\d{2}:\\d{2}$/"
    case DateTimeISO => "to match /^\\d{4}-\\d{2}-\\d{2}T\\d{2}:\\d{2}:\\d{2}$/"
  }

  /** `refinement.validate(value)` */
  function Refine(rev: Revision, r: Refinement, v: Value): Outcome {
    match Admits(r, v)
    case Failure(e) => Fail(e)
    case Success(ok) => if ok then Pass else Complain(rev, v, "Expected ", " " + Requirement(r))
  }

  // ---------------------------------------------------------------------------
  // Fail-fast sequencing

  /** A union stops at the first member that does not fail with a Typem error. */
  predicate Decides(o: Outcome) {
    !(o.Fail? && o.err.TypemError?)
  }

  /** The fail-fast loop over a sequence of checks: the first failure, or `Pass` when none
      fails. Evaluating every check and picking the first failure is the same as stopping
      at it, since checks are pure and terminate. */
  function FirstFailure(rs: seq<Outcome>): Outcome {
    if rs == [] then Pass
    else if rs[0].Fail? then rs[0]
    else FirstFailure(rs[1..])
  }

  /** The first failing check decides; the checks after it do not matter. */
  lemma {:induction false} FirstFailureIs(rs: seq<Outcome>, k: nat)
    requires k < |rs| && rs[k].Fail?
    requires forall j :: 0 <= j < k ==> rs[j].Pass?
    ensures FirstFailure(rs) == rs[k]
    decreases k
  {
    if k > 0 {
      assert rs[0].Pass?;
      assert forall j :: 0 <= j < k - 1 ==> rs[1..][j] == rs[j + 1];
      FirstFailureIs(rs[1..], k - 1);
    }
  }

  /** A sequence of checks passes exactly when every check passes. */
  lemma {:induction false} FirstFailurePasses(rs: seq<Outcome>)
    ensures FirstFailure(rs) == Pass <==> forall j :: 0 <= j < |rs| ==> rs[j].Pass?
    decreases |rs|
  {
    if rs != [] {
      FirstFailurePasses(rs[1..]);
      assert forall j :: 0 <= j < |rs| - 1 ==> rs[1..][j] == rs[j + 1];
      if rs[0].Pass? && FirstFailure(rs[1..]) == Pass {
        forall j | 0 <= j < |rs| ensures rs[j].Pass? {
          if j > 0 { assert rs[1..][j - 1] == rs[j]; }
        }
      }
    }
  }

  /** A union: the first member outcome that is a success or a foreign error decides;
      if every member fails with a Typem error, their messages are aggregated. */
  function UnionOf(rs: seq<Outcome>): Outcome {
    UnionFrom(rs, [])
  }

  /** The union loop over the member outcomes still to try, with the messages of the
      Typem errors collected so far. */
  function UnionFrom(rs: seq<Outcome>, errors: seq<string>): Outcome {
    if rs == [] then Fail(TypemError(UnionMessage(errors)))
    else if Decides(rs[0]) then rs[0]
    else UnionFrom(rs[1..], errors + [MessageOf(rs[0])])
  }

  /** The messages of a sequence of outcomes, in order. */
  function Messages(rs: seq<Outcome>): (ms: seq<string>)
    ensures |ms| == |rs| && forall i :: 0 <= i < |rs| ==> ms[i] == MessageOf(rs[i])
  {
    seq(|rs|, i requires 0 <= i < |rs| => MessageOf(rs[i]))
  }

  lemma {:induction false} UnionFromIs(rs: seq<Outcome>, errors: seq<string>, k: nat)
    requires k < |rs| && Decides(rs[k])
    requires forall j :: 0 <= j < k ==> !Decides(rs[j])
    ensures UnionFrom(rs, errors) == rs[k]
    decreases k
  {
    if k > 0 {
      assert !Decides(rs[0]);
      assert forall j :: 0 <= j < k - 1 ==> rs[1..][j] == rs[j + 1];
      UnionFromIs(rs[1..], errors + [MessageOf(rs[0])], k - 1);
    }
  }

  lemma {:induction false} UnionFromAllFail(rs: seq<Outcome>, errors: seq<string>)
    requires forall j :: 0 <= j < |rs| ==> !Decides(rs[j])
    ensures UnionFrom(rs, errors) == Fail(TypemError(UnionMessage(errors + Messages(rs))))
    decreases |rs|
  {
    if rs == [] {
      assert errors + Messages(rs) == errors;
    } else {
      assert !Decides(rs[0]);
      assert forall j :: 0 <= j < |rs| - 1 ==> rs[1..][j] == rs[j + 1];
      UnionFromAllFail(rs[1..], errors + [MessageOf(rs[0])]);
      assert errors + [MessageOf(rs[0])] + Messages(rs[1..]) == errors + Messages(rs);
    }
  }

  /** The first member outcome that is not a Typem error decides the union. */
  lemma UnionOfIs(rs: seq<Outcome>, k: nat)
    requires k < |rs| && Decides(rs[k])
    requires forall j :: 0 <= j < k ==> !Decides(rs[j])
    ensures UnionOf(rs) == rs[k]
  {
    UnionFromIs(rs, [], k);
  }

  /** When every member fails with a Typem error, the union reports all their messages in order. */
  lemma UnionOfAllFail(rs: seq<Outcome>)
    requires forall j :: 0 <= j < |rs| ==> !Decides(rs[j])
    ensures UnionOf(rs) == Fail(TypemError(UnionMessage(seq(|rs|, i requires 0 <= i < |rs| => MessageOf(rs[i])))))
  {
    UnionFromAllFail(rs, []);
    assert [] + Messages(rs) == seq(|rs|, i requires 0 <= i < |rs| => MessageOf(rs[i]));
  }

  /** One turn of the union loop: a deciding member ends it, any other adds its message. */
  lemma UnionFromStep(rs: seq<Outcome>, i: nat, errors: seq<string>)
    requires i < |rs|
    ensures UnionFrom(rs[i..], errors) ==
            if Decides(rs[i]) then rs[i] else UnionFrom(rs[i + 1..], errors + [MessageOf(rs[i])])
  {
    assert rs[i..][0] == rs[i] && rs[i..][1..] == rs[i + 1..];
  }

  /** A union passes exactly when some member passes and every member before it failed
      with a Typem error. */
  lemma {:induction false} UnionFromPassIff(rs: seq<Outcome>, errors: seq<string>)
    ensures UnionFrom(rs, errors).Pass? <==>
            exists i :: 0 <= i < |rs| && rs[i].Pass? && forall j :: 0 <= j < i ==> !Decides(rs[j])
    decreases |rs|
  {
    if rs != [] && !Decides(rs[0]) {
      var tail := rs[1..];
      UnionFromPassIff(tail, errors + [MessageOf(rs[0])]);
      if UnionFrom(rs, errors).Pass? {
        var i :| 0 <= i < |tail| && tail[i].Pass? && forall j :: 0 <= j < i ==> !Decides(tail[j]);
        assert rs[i + 1] == tail[i];
        forall j | 0 <= j < i + 1 ensures !Decides(rs[j]) {
          if j > 0 { assert rs[j] == tail[j - 1]; }
        }
      }
      if exists i :: 0 <= i < |rs| && rs[i].Pass? && forall j :: 0 <= j < i ==> !Decides(rs[j]) {
        var i :| 0 <= i < |rs| && rs[i].Pass? && forall j :: 0 <= j < i ==> !Decides(rs[j]);
        assert i > 0;
        assert tail[i - 1] == rs[i];
        forall j | 0 <= j < i - 1 ensures !Decides(tail[j]) {
          assert tail[j] == rs[j + 1];
        }
      }
    }
  }

  /** `tSet`'s wrapping: the prefix shows the item itself, since `Set.forEach` passes the value as index. */
  function SetItemOutcome(rev: Revision, item: Value, o: Outcome): Outcome {
    match o
    case Fail(TypemError(m)) =>
      (match Template(rev, item)
       case Failure(e) => Fail(e)
       case Success(t) => Fail(TypemError("Set[" + t + "]: " + m)))
    case _ => o
  }

  predicate HasKey(shape: seq<(string, Schema)>, key: string) {
    exists i :: 0 <= i < |shape| && shape[i].0 == key
  }

  /** `params.forEach(param => param?.validate?.(value))` for `tObject`, whose one param is the shape.
      As written, a shape with a `validate` key holds a type object there, which is not callable:
      a TypeError. The params of the other collection types are type objects, whose `validate`
      answers a boolean and never throws, and enum members have no `validate`: a no-op for them.
      `tInstanceOf` passes its constructor, whose static `validate`, if any, is user code; the
      model takes constructors and function literals to have none. */
  function ParamStep(rev: Revision, shape: seq<(string, Schema)>): Outcome {
    if rev == AsWritten && HasKey(shape, "validate") then Fail(Foreign(ValidateNotAFunction)) else Pass
  }

  // ---------------------------------------------------------------------------
  // validateOrThrow

  function RefinementOutcomes(rev: Revision, refinements: seq<Refinement>, v: Value): seq<Outcome> {
    seq(|refinements|, i requires 0 <= i < |refinements| => Refine(rev, refinements[i], v))
  }

  function MemberOutcomes(rev: Revision, s: Schema, v: Value): seq<Outcome>
    requires s.TUnion?
    decreases s, 0
  {
    seq(|s.members|, i requires 0 <= i < |s.members| => Check(rev, s.members[i], v))
  }

  function FieldOutcomes(rev: Revision, s: Schema, v: Value): seq<Outcome>
    requires s.TObject?
    decreases s, 0
  {
    seq(|s.shape|, i requires 0 <= i < |s.shape| =>
      assert s.shape[i] in s.shape;
      Within(s.shape[i].0 + ": ", Check(rev, s.shape[i].1, Get(v, s.shape[i].0))))
  }

  function PositionOutcomes(rev: Revision, s: Schema, xs: seq<Value>): seq<Outcome>
    requires s.TTuple? && |xs| == |s.positions|
    decreases s, 0
  {
    seq(|xs|, i requires 0 <= i < |xs| => Within(IndexPrefix(i), Check(rev, s.positions[i], xs[i])))
  }

  function ElementOutcomes(rev: Revision, s: Schema, xs: seq<Value>): seq<Outcome>
    requires s.TArray?
    decreases s, 0
  {
    seq(|xs|, i requires 0 <= i < |xs| => Within(IndexPrefix(i), Check(rev, s.element, xs[i])))
  }

  function SetOutcomes(rev: Revision, s: Schema, xs: seq<Value>): seq<Outcome>
    requires s.TSet?
    decreases s, 0
  {
    seq(|xs|, i requires 0 <= i < |xs| => SetItemOutcome(rev, xs[i], Check(rev, s.element, xs[i])))
  }

  /** One record entry: the key (always a string) is checked, then the value; nothing is prefixed. */
  function EntryOutcome(rev: Revision, s: Schema, key: Value, value: Value): Outcome
    requires s.TRecord? || s.TMap?
    decreases s, 0
  {
    var k := Check(rev, s.keyType, key);
    if k.Fail? then k else Check(rev, s.valueType, value)
  }

  function RecordOutcomes(rev: Revision, s: Schema, entries: seq<(string, Value)>): seq<Outcome>
    requires s.TRecord?
    decreases s, 1
  {
    seq(|entries|, i requires 0 <= i < |entries| => EntryOutcome(rev, s, Str(entries[i].0), entries[i].1))
  }

  function MapOutcomes(rev: Revision, s: Schema, pairs: seq<(Value, Value)>): seq<Outcome>
    requires s.TMap?
    decreases s, 1
  {
    seq(|pairs|, i requires 0 <= i < |pairs| => EntryOutcome(rev, s, pairs[i].0, pairs[i].1))
  }

  function EnumText(values: seq<EnumMember>): string {
    Join(", ", seq(|values|, i requires 0 <= i < |values| => Show(values[i])))
  }

  /** `literal?.toString()`: `undefined` for null and undefined; arrays join their elements. */
  function LiteralText(lit: Value): Result<string, Err> {
    if lit.Null? || lit.Undef? then Success("undefined")
    else if lit.Arr? && ContainsSymbol(lit) then Failure(Foreign(SymbolConversion))
    else Success(Show(lit))
  }

  /** `type.validateOrThrow(value)` */
  function Check(rev: Revision, s: Schema, v: Value): Outcome
    decreases s, 2
  {
    match s
    case TPrim(kind, refinements) =>
      if !KindAdmits(kind, v) then Complain(rev, v, "Expected " + KindName(kind) + ", got ", "")
      else FirstFailure(RefinementOutcomes(rev, refinements, v))
    case TUnion(_) =>
      UnionOf(MemberOutcomes(rev, s, v))
    case TObject(shape) =>
      if !IsObjectLike(v) then Complain(rev, v, "Expected object, got ", "")
      else
        var r := FirstFailure(FieldOutcomes(rev, s, v));
        if r.Fail? then r else ParamStep(rev, shape)
    case TTuple(positions) =>
      if !v.Arr? then Complain(rev, v, "Expected a tuple array, got ", "")
      else if |v.items| != |positions| then
        Complain(rev, v, "Expected tuple of length " + NatToString(|positions|) + ", got ",
                 " with length " + NatToString(|v.items|))
      else FirstFailure(PositionOutcomes(rev, s, v.items))
    case TArray(_) =>
      if !v.Arr? then Complain(rev, v, "Expected array, got ", "")
      else FirstFailure(ElementOutcomes(rev, s, v.items))
    case TSet(_) =>
      if !v.SetV? then Complain(rev, v, "Expected Set, got ", "")
      else FirstFailure(SetOutcomes(rev, s, v.members))
    case TRecord(_, _) =>
      if !IsObjectLike(v) then Complain(rev, v, "Expected object, got ", "")
      else FirstFailure(RecordOutcomes(rev, s, OwnEntries(v)))
    case TMap(_, _) =>
      if !v.MapV? then Complain(rev, v, "Expected Map, got ", "")
      else FirstFailure(MapOutcomes(rev, s, v.pairs))
    case TInstanceOf(c) =>
      if c in Chain(v) then Pass else Complain(rev, v, "Expected instance of " + c + ", got ", "")
    case TEnum(values) =>
      if exists i :: 0 <= i < |values| && StrictEq(values[i], v) then Pass
      else Complain(rev, v, "Expected one of [" + EnumText(values) + "], got ", "")
    case TLiteral(lit) =>
      if StrictEq(v, lit) then Pass
      else
        match LiteralText(lit)
        case Failure(e) => Fail(e)
        case Success(t) => Complain(rev, v, "Expected literal " + t + ", got ", "")
  }

  /** `type.validate(value)`: true iff validateOrThrow completes; it never throws. */
  predicate Valid(rev: Revision, s: Schema, v: Value) {
    Check(rev, s, v).Pass?
  }

  // ---------------------------------------------------------------------------
  // is(creator)

  /** The factory a schema came from. */
  datatype Creator =
    | PrimCreator(kind: Kind)
    | UnionCreator | ObjectCreator | TupleCreator | ArrayCreator | SetCreator
    | RecordCreator | MapCreator | InstanceOfCreator | EnumCreator | LiteralCreator

  function CreatorOf(s: Schema): Creator {
    match s
    case TPrim(k, _) => PrimCreator(k)
    case TUnion(_) => UnionCreator
    case TObject(_) => ObjectCreator
    case TTuple(_) => TupleCreator
    case TArray(_) => ArrayCreator
    case TSet(_) => SetCreator
    case TRecord(_, _) => RecordCreator
    case TMap(_, _) => MapCreator
    case TInstanceOf(_) => InstanceOfCreator
    case TEnum(_) => EnumCreator
    case TLiteral(_) => LiteralCreator
  }

  /** `type.is(creator)`; a union answers true for tUnion and for each member's creator. */
  predicate Is(s: Schema, c: Creator) {
    if s.TUnion? then c == UnionCreator || exists i :: 0 <= i < |s.members| && CreatorOf(s.members[i]) == c
    else c == CreatorOf(s)
  }
}
