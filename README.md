# typem in Dafny

This project models typem, a small TypeScript runtime type-checking library, and proves properties of
the model. It covers three parts:

- **library/index.ts.** Schemas are built from primitive types (`tString`, `tNumber`, …, `tUnknown`),
  refinements (`vGt` … `vRange`, `vLength` … `vLengthRange`, `vStartsWith`, `vEndsWith`, `vContains`,
  and the date/time patterns) and combinators (`tUnion`, `tOptional`, `tObject`, `tTuple`,
  `tIntersection`, `tArray`, `tSet`, `tRecord`, `tMap`, `tInstanceOf`, `tEnum`, `tLiteral`). Every
  type offers `validateOrThrow`, `validate`, `returnOrThrow` and `is`.
- **library/field.ts.** A second, simpler iteration of the same algebra, where validators are boolean
  predicates.
- **The field classes.** `MasterArray` (library/array.ts) and the string, number, bigint and boolean
  fields (library/fields/*.ts), with their bounded-option validation and JSON conversions.

Files:

- `js_value.dfy` (module `JsValue`): JavaScript values as a datatype, with `typeof`, prototype
  chains, `===`, property reads, `Object.entries` and string rendering.
- `typem.dfy` (module `Typem`): the specification of the engine. `Check(rev, schema, value)` is what
  `validateOrThrow` does. It either passes or fails with a `Typem.Error` (`TypemError`) or another
  exception (`Foreign`, for TypeErrors thrown by the JavaScript runtime).
- `typem_engine.dfy` (module `TypemEngine`): the engine as the code runs it. It is a set of methods
  with loops: the union loop collects errors, and the object, tuple, array, set, record and map loops
  stop at the first failure. Each method is proved equal to the specification.
- `typem_laws.dfy` (module `TypemLaws`): what the engine promises, proved about the specification.
- `field.dfy` (module `Field`) and `field_agreement.dfy` (module `FieldAgreement`): the field.ts
  combinators and their laws, and proofs that they agree with index.ts where both define the same
  check.
- `master_array.dfy`, `string_field.dfy`, `number_field.dfy`, `bigint_field.dfy`,
  `boolean_field.dfy`: the field classes. `MasterArray` takes its element field's `parse`,
  `toJSONType` and `fromJSONType` as function parameters.
- `results.dfy`, `seqs.dfy`, `decimal.dfy`: `Option`/`Result`, string joining, and
  decimal rendering and parsing of integers.

Three defects in index.ts are modelled with a `Revision` parameter. `AsWritten` follows the code;
`Corrected` removes them (see "## Findings"): it renders symbols both in `got()` and in `tSet`'s
`Set[...]` prefix, and it makes the params step a no-op.

## Model

| member | source | states |
|---|---|---|
| TypemEngine.ValidateOrThrow | library/index.ts:33-93 | `validateOrThrow` of every type dispatches to its factory's validator and yields exactly the specified outcome |
| TypemEngine.ValidatePrim | library/index.ts:37-40 | a primitive type runs its base check and then its refinements, and yields the specified outcome |
| TypemEngine.ValidateObject | library/index.ts:68-70 | a `tObject` runs its validator over the shape and then the params step, and yields the specified outcome |
| TypemEngine.ValidateTuple | library/index.ts:195-207 | a `tTuple` checks for an array, then the length, then each position, and yields the specified outcome |
| TypemEngine.ValidateArray | library/index.ts:220-230 | a `tArray` checks for an array, then each element, and yields the specified outcome |
| TypemEngine.ValidateSet | library/index.ts:237-247 | a `tSet` checks for a Set, then each item, and yields the specified outcome |
| TypemEngine.ValidateRecord | library/index.ts:258-265 | a `tRecord` checks for a non-null object, then each own entry, and yields the specified outcome |
| TypemEngine.ValidateMap | library/index.ts:275-282 | a `tMap` checks for a Map, then each pair, and yields the specified outcome |
| TypemEngine.ValidateInstanceOf | library/index.ts:291-293 | a `tInstanceOf` accepts instances of the class and otherwise throws the specified message |
| TypemEngine.ValidateEnum | library/index.ts:302-304 | a `tEnum` accepts a value equal to a listed one and otherwise throws the specified message |
| TypemEngine.ValidateLiteral | library/index.ts:313-315 | a `tLiteral` accepts the literal itself and otherwise throws the specified message |
| TypemEngine.RunRefinements | library/index.ts:37-40 | running the refinements in order yields the first one that throws, or success |
| TypemEngine.RunUnion | library/index.ts:144-156 | the union loop stops at the first member that passes or throws a non-Typem error, and otherwise throws the aggregated message of the collected errors |
| TypemEngine.UnionTurn | library/index.ts:147-153 | trying one member either decides the union or adds that member's message to the collected ones |
| TypemEngine.RunFields | library/index.ts:178-188 | the object loop yields the first failing key's error, prefixed with `key: ` |
| TypemEngine.TryField | library/index.ts:181-186 | one key's check yields that key's outcome, with a Typem error prefixed by `key: ` |
| TypemEngine.RunPositions | library/index.ts:199-206 | the tuple loop yields the first failing position's error, prefixed with `[i]: ` |
| TypemEngine.TryPosition | library/index.ts:200-205 | one position's check yields that position's outcome, with a Typem error prefixed by `[i]: ` |
| TypemEngine.RunElements | library/index.ts:222-229 | the array loop yields the first failing index's error, prefixed with `[i]: ` |
| TypemEngine.TryElement | library/index.ts:223-228 | one element's check yields that element's outcome, with a Typem error prefixed by `[i]: ` |
| TypemEngine.RunSetItems | library/index.ts:239-246 | the set loop yields the first failing item's error, prefixed with `Set[<item>]: ` |
| TypemEngine.TrySetItem | library/index.ts:240-245 | one item's check yields that item's outcome, with a Typem error prefixed by `Set[<item>]: ` |
| TypemEngine.RunRecordEntries | library/index.ts:260-264 | the record loop checks each entry's key and then its value; the first failure is raised unprefixed |
| TypemEngine.CheckEntry | library/index.ts:262-263 | one entry yields its key's failure, or else its value's outcome |
| TypemEngine.RunMapPairs | library/index.ts:277-281 | the map loop checks each pair's key and then its value; the first failure is raised unprefixed |
| TypemEngine.Validate | library/index.ts:45-52 | `validate` returns true iff `validateOrThrow` completes, and never throws |
| TypemEngine.ReturnOrThrow | library/index.ts:41-44 | `returnOrThrow` returns exactly its input when validation passes, and otherwise the error validation threw |
| Typem.Optional | library/index.ts:158 | `tOptional(t)` is a three-member union whose first member is `t` |
| Typem.FirstFailureIs | library/index.ts:39 | in a sequence of checks the first failing one decides, whatever follows it |
| Typem.FirstFailurePasses | library/index.ts:39 | a sequence of checks passes iff every check passes |
| Typem.UnionOfIs | library/index.ts:146-153 | the first member outcome that is not a Typem error decides the union |
| Typem.UnionOfAllFail | library/index.ts:155 | when every member throws a Typem error, the union throws the header followed by each member's message |
| Typem.UnionFromIs | library/index.ts:146-153 | from any point of the union loop, the first remaining outcome that is not a Typem error decides |
| Typem.UnionFromAllFail | library/index.ts:146-155 | when every remaining member throws a Typem error, the loop throws the collected messages followed by theirs |
| Typem.UnionFromStep | library/index.ts:147-153 | one turn of the union loop: a deciding outcome ends it, any other adds its message |
| Typem.UnionFromPassIff | library/index.ts:144-156 | the union loop passes iff some member passes after members that all threw Typem errors |
| TypemLaws.ComplainFails | library/index.ts:96-98 | a complaint always fails; it fails with a Typem error of the form before + `got(value)` + after unless rendering the value throws |
| TypemLaws.PrimAcceptsIff | library/index.ts:37-40 | a primitive accepts iff its base check admits the value and every refinement lets it through |
| TypemLaws.PrimBaseCheckFirst | library/index.ts:38 | a value the base check rejects gets the base error, whatever the refinements |
| TypemLaws.PrimFirstFailingRefinement | library/index.ts:39 | refinements run in the order supplied, and the first one that throws is the error raised |
| TypemLaws.RefinementsNarrow | library/index.ts:34-40 | adding refinements never widens what a primitive accepts |
| TypemLaws.RefinePassIff | library/index.ts:25-31 | a refinement passes exactly when its guard evaluates to true without throwing |
| TypemLaws.NumericRefinements | library/index.ts:319-333 | on numbers and bigints, `vGt` and `vLt` are strict, `vGte` and `vLte` non-strict, and `vRange` is the closed interval |
| TypemLaws.LengthRefinements | library/index.ts:338-350 | on strings and arrays, with a string's length counted in UTF-16 code units, `vLength` is exact, `vMinLength` and `vMaxLength` are inclusive, and `vLengthRange` is the closed interval |
| TypemLaws.PatternAcceptsIff | library/index.ts:369-371 | `vDateISO`, `vTimeISO` and `vDateTimeISO` accept a string exactly when it has the pattern's shape, a digit wherever the pattern has `\d` and the same character elsewhere |
| TypemLaws.DateISOAcceptsIff | library/index.ts:369 | `tString(vDateISO())` accepts exactly the ten-character strings of digits with `-` at positions 4 and 7 |
| TypemLaws.TimeISOAcceptsIff | library/index.ts:370 | `tString(vTimeISO())` accepts exactly the eight-character strings of digits with `:` at positions 2 and 5 |
| TypemLaws.SubstringRefinements | library/index.ts:352-360 | on strings, `vStartsWith`, `vEndsWith` and `vContains` accept iff the string has that prefix, suffix or substring |
| TypemLaws.ChainedBoundsAreRange | library/index.ts:328-333 | `tNumber(vLte(b), vGte(a))` accepts exactly what `tNumber(vRange(a, b))` accepts, which is the numbers in [a, b] |
| TypemLaws.SafeRefineNeverForeign | library/index.ts:319-360 | with the corrected rendering, a refinement attached to a kind whose values it can read never throws a foreign error: numeric bounds only on kinds that admit no symbol, length checks off null and undefined, substring checks on strings |
| TypemLaws.NumericRefinementsOnSymbols | library/index.ts:319-333 | `vGt`, `vGte`, `vLt`, `vLte` and `vRange` throw the comparison's TypeError on a symbol or an array holding one, whatever the revision |
| TypemLaws.UnknownBoundOnSymbolThrows | library/index.ts:144-156 | `tUnknown(vGt(0))` throws that TypeError on a symbol, and a union trying it first rethrows it although `tSymbol()` would accept |
| TypemLaws.UnionAcceptsIff | library/index.ts:144-156 | a union accepts iff some member accepts and every earlier member threw a Typem error |
| TypemLaws.UnionAcceptedByMember | library/index.ts:144-156 | a union that accepts does so through a member that accepts, after members that all threw Typem errors |
| TypemLaws.UnionAcceptsAt | library/index.ts:146-149 | a member that accepts after members that all threw Typem errors makes the union accept |
| TypemLaws.UnionWithoutForeign | library/index.ts:144-156 | when no member throws a foreign error, a union accepts iff some member accepts |
| TypemLaws.UnionAcceptsAnyAt | library/index.ts:144-156 | when no member throws a foreign error, any member that accepts makes the union accept |
| TypemLaws.UnionFromPassWithoutForeign | library/index.ts:144-156 | when no outcome is a foreign error, the union loop passes iff some outcome passes |
| TypemLaws.UnionAggregatesMessages | library/index.ts:155 | when every member rejects, the message is "No match with any of the union types:" followed by one tab-indented line per member message, in declared order |
| TypemLaws.UnionRethrowsForeign | library/index.ts:150-152 | a foreign error from a member tried before any accepting one is rethrown unchanged |
| TypemLaws.OptionalAccepts | library/index.ts:158 | `tOptional(t)` accepts what `t` accepts plus null and undefined |
| TypemLaws.UnfoldOptional | library/index.ts:158 | `tOptional(t)` tries `t`, then `tNull()`, then `tUndefined()` |
| TypemLaws.UnionOfThree | library/index.ts:144-156 | a three-member union without foreign errors passes iff one of its members passes |
| TypemLaws.NullishCheck | library/index.ts:125-130 | `tNull()` and `tUndefined()` accept exactly null and undefined respectively, and throw only Typem errors on values `got` can render |
| TypemLaws.PrimNeverForeign | library/index.ts:101-131 | a primitive without refinements throws only Typem errors on values `got` can render |
| TypemLaws.InstanceOfAcceptsIff | library/index.ts:289-294 | a `tInstanceOf(C)` accepts exactly the values whose prototype chain holds `C` |
| TypemLaws.EnumAcceptsIff | library/index.ts:300-305 | a `tEnum` accepts exactly the values strictly equal to one of its members |
| TypemLaws.ObjectRejectsNonObject | library/index.ts:179 | a non-object or null is rejected before any key is read |
| TypemLaws.ObjectFirstFailingKey | library/index.ts:180-187 | keys are checked in declaration order, and the first failing key raises `"<key>: <message>"` |
| TypemLaws.ObjectAcceptsIff | library/index.ts:176-189 | an object type accepts exactly the objects in which every declared key satisfies its type (corrected params step) |
| TypemLaws.TupleLengthFirst | library/index.ts:197-198 | a tuple of the wrong length is rejected with the length message before any element is checked |
| TypemLaws.TupleFirstFailingPosition | library/index.ts:199-206 | the first failing position raises `"[i]: <message>"` |
| TypemLaws.TupleAcceptsIff | library/index.ts:193-208 | a tuple type accepts exactly the arrays of its length in which every position satisfies its type |
| TypemLaws.ArrayFirstFailingIndex | library/index.ts:222-229 | the first failing index raises `"[i]: <message>"` |
| TypemLaws.ArrayAcceptsIff | library/index.ts:218-231 | an array type accepts exactly the arrays whose every element satisfies the element type, and in particular `[]` |
| TypemLaws.SetFirstFailingItem | library/index.ts:239-246 | the first failing item raises `"Set[<item>]: <message>"`, which shows the item rather than a position |
| TypemLaws.SetAcceptsIff | library/index.ts:235-248 | a set type accepts exactly the sets whose every item satisfies the element type |
| TypemLaws.RecordReadsTypedArray | library/index.ts:257-264 | a record type reads a class instance's own properties: `tRecord(tString(), tString())` rejects a `Uint8Array` holding 1 |
| TypemLaws.ObjectReadsInstanceFields | library/index.ts:180-187 | an object type reads a class instance's own fields: `tObject({ x: tNumber() })` accepts an instance whose own `x` is 1 |
| TypemLaws.RecordAcceptsIff | library/index.ts:254-267 | a record type accepts exactly the objects whose every own entry has a string key of the key type and a value of the value type |
| TypemLaws.RecordFirstFailingEntry | library/index.ts:260-264 | the first failing entry raises its key's error if the key fails and otherwise its value's error, without a prefix |
| TypemLaws.RecordNumberKeysRejectEntries | library/index.ts:260-262 | keys reach the key type as strings, so a record keyed by `tNumber()` rejects every object that has an entry |
| TypemLaws.MapAcceptsIff | library/index.ts:272-283 | a map type accepts exactly the maps whose every key and value satisfy their types |
| TypemLaws.MapFirstFailingPair | library/index.ts:277-281 | the first failing pair raises its key's error before its value's, without a prefix |
| TypemLaws.SymbolUnionAsWritten | library/index.ts:96-98 | as written, `tUnion(tString(), tSymbol())` throws a TypeError on a symbol, while the corrected rendering accepts it |
| TypemLaws.SetPrefixAsWritten | library/index.ts:243 | as written, `tSet(tArray(tString()))` throws a TypeError on `new Set([[1, Symbol()]])` from the `Set[...]` prefix, although `got()` never renders the symbol; corrected, it rejects with a Typem error |
| TypemLaws.CorrectedSafeNeverForeign | library/index.ts:96-98 | with the corrected rendering in `got()` and in `tSet`'s `Set[...]` prefix (library/index.ts:243), a schema whose refinements suit their kinds (no numeric bound on a kind that admits symbols) only ever throws Typem errors |
| TypemLaws.CorrectedUnionAcceptsIff | library/index.ts:144-156 | with the corrected rendering in `got()` and in the `Set[...]` prefix, a union of such schemas (no numeric bound on a kind that admits symbols) accepts iff some member accepts |
| TypemLaws.CorrectedOptionalAccepts | library/index.ts:158 | with the corrected rendering in `got()` and in the `Set[...]` prefix, `tOptional(t)` of such a schema (no numeric bound on a kind that admits symbols) accepts what `t` accepts plus null and undefined, symbols included |
| TypemLaws.ValidateKeyAsWritten | library/index.ts:70 | as written, an object type whose shape has a `validate` key accepts nothing, and throws a TypeError once every key has passed |
| TypemLaws.ValidateKeyExample | library/index.ts:70 | `tObject({ validate: tString() })` throws on `{ validate: "yes" }` as written and accepts it when corrected |
| TypemLaws.PutSpec | library/index.ts:213 | assigning one property keeps keys distinct, gives the key the new validator and leaves every other key alone |
| TypemLaws.PutKeys | library/index.ts:213 | after assigning one property, every key is the assigned key or one the target already had |
| TypemLaws.PutDistinct | library/index.ts:213 | assigning one property keeps the keys of a shape distinct |
| TypemLaws.PutFinds | library/index.ts:213 | after assigning one property, its key finds the new validator |
| TypemLaws.PutKeepsOther | library/index.ts:213 | assigning one property leaves what every other key finds unchanged |
| TypemLaws.AssignSpec | library/index.ts:213 | `Object.assign`: a key the source declares takes the source's validator, and every other key keeps the target's |
| TypemLaws.MergeShapesSpec | library/index.ts:213 | in the merged shape, every key finds the validator of the last shape that declares it |
| TypemLaws.IntersectionAcceptsIff | library/index.ts:212-213 | an intersection accepts exactly the objects in which each declared key satisfies the last declaring shape's validator |
| TypemLaws.OptionalIs | library/index.ts:139-142 | `tOptional(t).is(c)` holds exactly for tUnion, for `t`'s creator, for tNull and for tUndefined |
| TypemLaws.IntersectionIs | library/index.ts:84-86 | an intersection is a `tObject`, and nothing else |
| JsValue.EntriesReadBack | library/index.ts:260 | in an object or class instance with distinct keys, every entry `Object.entries` lists reads back through `value[key]`, so `tObject` and `tRecord` see the same properties |
| JsValue.Utf16Length | library/index.ts:338-350 | a string's `.length` counts UTF-16 code units: at least its number of characters and at most twice that |
| JsValue.Utf16LengthInBmp | library/index.ts:338-350 | a string within the Basic Multilingual Plane has one code unit per character |
| JsValue.Utf16LengthAppend | library/index.ts:338-350 | `.length` of a concatenation is the sum of the lengths |
| JsValue.ArrayEntriesReadBack | library/index.ts:260 | `Object.entries` of an array lists each index as a decimal key, and reading that key gives the element back |
| Field.Parse | library/field.ts:139-144 | `parse` returns the value unchanged iff the validator accepts it, and otherwise fails with "Invalid value" |
| Field.AllKeysHoldIff | library/field.ts:38-42 | the key loop returns true iff every declared key's validator accepts its property |
| Field.AllItemsHoldIff | library/field.ts:53-56 | the item loop returns true iff every item is accepted |
| Field.SomeHoldsIff | library/field.ts:66-70 | the union loop returns true iff some validator accepts |
| Field.AllHoldIff | library/field.ts:79-83 | the intersection loop returns true iff every validator accepts |
| Field.SomeStrictEqIff | library/field.ts:133-135 | the `oneOf` loop returns true iff some listed value is strictly equal to the input |
| Field.NullableIsUnionWithNull | library/field.ts:27-30 | `nullable(v)` accepts null plus exactly what `v` accepts; it is `union(literal(null), v)` |
| Field.ObjectIff | library/field.ts:32-45 | `object(validators)` is false for non-objects and null, and otherwise true iff every declared key's validator accepts |
| Field.ArrayOfIff | library/field.ts:47-60 | `array(v)` is true iff the input is an array whose every element satisfies `v`, and in particular for `[]` |
| Field.UnionIff | library/field.ts:62-73 | `union` is true iff some member accepts, so the empty union rejects everything |
| Field.IntersectionIff | library/field.ts:75-86 | `intersection` is true iff every member accepts, so the empty intersection accepts everything |
| Field.BoundsInclusive | library/field.ts:88-101 | on numbers, `min`, `max` and `range` require the inner validator and then apply inclusive bounds |
| Field.RangeIsMinOfMax | library/field.ts:98-101 | `range(v, a, b)` accepts exactly what `min(max(v, b), a)` accepts |
| Field.LengthBoundsInclusive | library/field.ts:103-121 | on strings and arrays, with a string's length counted in UTF-16 code units, the length bounds are inclusive, `length` is exact, and `lengthRange` is `minLength` of `maxLength` |
| Field.OneOfIsUnionOfLiterals | library/field.ts:129-137 | `oneOf(...xs)` accepts exactly what the union of `literal(x)` for each `x` accepts |
| Field.LiteralAcceptsOnlyEqual | library/field.ts:124-127 | `literal(x)` accepts only values strictly equal to `x` |
| Field.ParseIdempotent | library/field.ts:139-144 | parsing the output of a successful parse gives the same result |
| FieldAgreement.ArrayAgrees | library/field.ts:47-60 | `array(p)` and `tArray(t)` accept the same values when `p` and `t` agree |
| FieldAgreement.ObjectAgrees | library/field.ts:32-45 | `object(validators)` and `tObject(shape)` accept the same values when they declare the same keys with agreeing validators |
| FieldAgreement.UnionAgrees | library/field.ts:62-73 | `union(...ps)` and the corrected `tUnion(...ts)` accept the same values when their members agree |
| FieldAgreement.LiteralAgrees | library/field.ts:124-127 | `literal(x)` and `tLiteral(x)` accept the same values |
| FieldAgreement.OneOfAgrees | library/field.ts:129-137 | `oneOf(...xs)` and `tEnum(...xs)` accept the same values |
| FieldAgreement.NullableAgrees | library/field.ts:27-30 | `nullable(p)` and `tUnion(t, tNull())` accept the same values when `p` and `t` agree |
| MasterArray.ParseEach | library/array.ts:36 | mapping `field.parse` yields one parsed element per input element, in order, or the error of a failing element |
| MasterArray.ParseEachSucceeds | library/array.ts:36 | when every element parses, the mapping succeeds |
| MasterArray.ParseEachFirstFailure | library/array.ts:36 | the first element whose parse fails decides the error |
| MasterArray.ParserRejectsNonArrays | library/array.ts:31 | `parser` fails with "Value is not an array" on a non-array, before any length check |
| MasterArray.ParserLengthBounds | library/array.ts:32-35 | a set `min` rejects shorter arrays with its message, then a set `max` rejects longer ones with its message |
| MasterArray.ParserSuccess | library/array.ts:29-37 | a successful parse comes from an array within the set bounds and has its length, with element i being the element field's parse of element i |
| MasterArray.ParserAccepts | library/array.ts:29-37 | an array within the set bounds whose elements all parse is accepted, and an unset bound imposes no limit |
| MasterArray.ToJSONType | library/array.ts:19-22 | `toJSONType` keeps length and order and converts each element |
| MasterArray.FromJSONType | library/array.ts:24-27 | `fromJSONType` keeps length and order and converts each element |
| MasterArray.JSONRoundTrip | library/array.ts:19-27 | `fromJSONType(toJSONType(a)) == a` whenever the element field round-trips |
| StringField.ValidateBounds | library/fields/string.ts:21-26 | only strings are valid; with the length counted in UTF-16 code units, as `value.length` counts it, a set `minLength` is an inclusive lower bound and a set `maxLength` an inclusive upper bound, and without options every string is valid |
| StringField.BoundsCountCodeUnits | library/fields/string.ts:24-25 | an emoji outside the Basic Multilingual Plane is two code units long: `maxLength: 1` rejects it and `minLength: 2, maxLength: 2` accepts it |
| StringField.ValidateAgrees | library/fields/string.ts:21-26 | with both bounds set, the field accepts what `lengthRange(string, a, b)` and `tString(vLengthRange(a, b))` accept |
| StringField.JSONRoundTrip | library/fields/string.ts:11-19 | the JSON conversions are identities and round-trip |
| NumberField.ValidateBounds | library/fields/number.ts:21-26 | only numbers are valid, set bounds are inclusive, and without options every number is valid |
| NumberField.ValidateAgrees | library/fields/number.ts:21-26 | with both bounds set, the field accepts what `range(number, a, b)` and `tNumber(vRange(a, b))` accept |
| NumberField.MinAgrees | library/fields/number.ts:24 | with only `min` set, the field accepts what `min(number, a)` and `tNumber(vGte(a))` accept |
| NumberField.JSONRoundTrip | library/fields/number.ts:11-19 | the JSON conversions are identities and round-trip |
| BigIntField.ToJSONTypeCanonical | library/fields/bigint.ts:11-14 | `toJSONType` renders canonical decimal text, with a leading '-' exactly for negatives |
| BigIntField.JSONRoundTrip | library/fields/bigint.ts:11-19 | `fromJSONType(toJSONType(v)) == v` for every bigint |
| BigIntField.JSONRoundTripText | library/fields/bigint.ts:11-19 | on canonical decimal text, `toJSONType(fromJSONType(s)) == s` |
| BigIntField.ValidateBounds | library/fields/bigint.ts:21-26 | only bigints are valid, set bounds are inclusive, and without options every bigint is valid |
| BigIntField.ValidateAgrees | library/fields/bigint.ts:21-26 | with both bounds set, the field accepts what `tBigint(vRange(a, b))` accepts |
| BooleanField.ParserSpec | library/fields/boolean.ts:17-21 | `parser` fails with "Value is not a boolean" exactly on non-booleans, and returns a boolean unchanged |
| BooleanField.JSONRoundTrip | library/fields/boolean.ts:7-15 | the JSON conversions are identities and round-trip |
| Decimal.IntToString | library/fields/bigint.ts:13 | an integer's decimal text is canonical, with a leading '-' exactly for negatives |
| Decimal.NatToStringRoundTrip | library/fields/bigint.ts:11-19 | reading back the decimal text of a natural number gives the number |
| Decimal.CanonicalRoundTrip | library/fields/bigint.ts:11-19 | rendering the value of canonical decimal text gives the text back |

## Left out

- Numbers are integers. NaN, Infinity, fractions, `vFinite` and `Number.isInteger` on floats are not modelled, and `tInt` admits every number.
- Object identity is not modelled. `===` on two objects is false, so `tLiteral` and `literal` of an object accept nothing.
- Properties are own entries in insertion order. JavaScript's ordering of integer-like keys first, getters and inherited properties are not modelled. Arrays answer `length` and their indices.
- A value may list the same key twice, which no JavaScript object does: `value[key]` then reads the first entry while `Object.entries` lists both. JsValue.EntriesReadBack, which ties the two views together, is stated for distinct keys.
- The rendering of a value (`${value}`) is concrete for primitives and arrays. Functions render as "function" and other objects as "[object Object]", "[object Set]" and so on. Class instances render as "[object Object]": host-specific renderings, such as dates, function source and the joined elements of a typed array, and a user class's own `toString`, are abstracted.
- `instanceof` is membership of the class name in a value's prototype chain. Prototype objects and `Symbol.hasInstance` are not modelled.
- Subclass instances of Set, Map and Array are not modelled. `tSet` and `tMap` use `instanceof` and `tArray` and `tTuple` use `Array.isArray`, all of which accept such instances; the model tests the value's own kind, and a class instance (`Inst`) is never a set, map or array.
- A static `validate` on a class given to `tInstanceOf` is not modelled. The params step of `validateOrThrow` would call it with the value after the `instanceof` check passes, so its throw would propagate, and a non-function `validate` would raise a TypeError; the model takes constructors, and functions given to `tLiteral`, to have no `validate` property.
- Strings are sequences of Unicode scalar values. `.length` is computed from them in UTF-16 code units (`Utf16Length`), and prefix, suffix and substring tests on whole characters agree with JavaScript's on well-formed strings. A lone surrogate, which a JavaScript string may hold, cannot be represented.
- Foreign-error messages follow V8's wording (`Cannot read properties of null (reading 'length')`, `value.startsWith is not a function`); other engines word these TypeErrors differently.
- `vRegex`, `vEmail`, `vUrl` and `vUri` are not modelled, because they need a regular-expression engine. `vDateISO`, `vTimeISO` and `vDateTimeISO` are modelled as fixed digit-shape checks.
- Type-level inference (`InferType`, `_Helper`, mapped types, `ArrayToIntersection`) is not modelled: it has no runtime behaviour.
- `is()` compares creators as kind tags (`CreatorOf`), not as function identity.
- library/experiment.ts, library/struct.ts, library/utils.ts, library/test.ts and the examples directory are not part of this model. `MasterField`, the base class of the field classes, is not part of this model either, so each field method is modelled on its own.
- TypemLaws.NumericRefinements: stated for numbers and bigints only. A symbol, or an array holding one, throws the comparison's TypeError (TypemLaws.NumericRefinementsOnSymbols). JavaScript coerces every other operand of `<` and `>` to a number; that coercion is not modelled, and the model treats such operands as NaN, for which every guard passes.
- TypemLaws.LengthRefinements: stated for strings and arrays only. On null and undefined the model throws a foreign error. The model gives every other value no length, so every length guard but `vLength` passes; the arity of functions and the length of typed arrays and of objects with a `length` property are not modelled.
- TypemLaws.OptionalAccepts: requires that `t` throws no foreign error and that the value has no symbol; the as-written behaviour on symbols is the first finding.
- TypemLaws.ObjectAcceptsIff: requires the corrected params step or a shape without a `validate` key; the as-written behaviour is the second finding.
- Field.BoundsInclusive: stated for numbers only. Relational coercion of other values is not modelled; they fail every bound.
- Field.LengthBoundsInclusive: stated for strings and arrays only. In JavaScript, reading `.length` of null or undefined throws; the boolean model rejects those values instead.
- BigIntField.JSONRoundTripText: canonical text only. `BigInt`'s whitespace trimming and its `0x`, `0o` and `0b` forms are not modelled, and such text fails to parse in the model.
- Throwing validator closures in field.ts are not modelled: every validator is a total boolean function.

## Findings

| source | as written | input that shows it | evidently intended | confidence | as-written member | corrected member |
|---|---|---|---|---|---|---|
| library/index.ts:96-98 | `got()` renders the value with a template literal, which throws a TypeError on a symbol or an array holding one; a union rethrows that TypeError | `tUnion(tString(), tSymbol()).validateOrThrow(Symbol("s"))` throws a TypeError | the union accepts the symbol through its `tSymbol` member, because rendering the rejected value does not throw | high; not executed | TypemLaws.SymbolUnionAsWritten | TypemLaws.CorrectedUnionAcceptsIff |
| library/index.ts:243 | `tSet` prefixes an item's Typem error with `Set[${index}]`, a template literal that throws a TypeError when the item holds a symbol | `tSet(tArray(tString())).validateOrThrow(new Set([[1, Symbol("s")]]))` throws a TypeError instead of a Typem error | the item is rendered and the set is rejected with a Typem error, as with every other failing item | high; not executed | TypemLaws.SetPrefixAsWritten | TypemLaws.CorrectedSafeNeverForeign |
| library/index.ts:70 | `params.forEach(param => param?.validate?.(value))` calls the `validate` entry of a `tObject` shape, which is a type object and not a function | `tObject({ validate: tString() }).validateOrThrow({ validate: "yes" })` throws a TypeError | the params step is a no-op, and the object is accepted | high; not executed | TypemLaws.ValidateKeyAsWritten | TypemLaws.ObjectAcceptsIff |
