/** library/field.ts and library/index.ts are two iterations of one algebra: where a field.ts
    validator and an index.ts type decide the same children the same way, they accept the same values. */
module FieldAgreement {
  import opened JsValue
  import Field
  import opened Typem
  import TypemLaws

  /** `array(p)` and `tArray(t)` agree when `p` and `t` agree on every value. */
  lemma ArrayAgrees(rev: Revision, p: Field.Validator, t: Schema, v: Value)
    requires forall x :: p(x) == Valid(rev, t, x)
    ensures Field.ArrayOf(p)(v) == Valid(rev, TArray(t), v)
  {
    Field.ArrayOfIff(p, v);
    TypemLaws.ArrayAcceptsIff(rev, t, v);
  }

  /** `object(validators)` and `tObject(shape)` agree when they declare the same keys in the same
      order with agreeing validators (and, as written, the shape has no `validate` key). */
  lemma ObjectAgrees(rev: Revision, fs: seq<(string, Field.Validator)>, shape: seq<(string, Schema)>, v: Value)
    requires |fs| == |shape|
    requires forall i :: 0 <= i < |fs| ==> fs[i].0 == shape[i].0
    requires forall i, x :: 0 <= i < |fs| ==> fs[i].1(x) == Valid(rev, shape[i].1, x)
    requires rev == Corrected || !HasKey(shape, "validate")
    ensures Field.Object(fs)(v) == Valid(rev, TObject(shape), v)
  {
    Field.ObjectIff(fs, v);
    TypemLaws.ObjectAcceptsIff(rev, shape, v);
  }

  /** `union(...ps)` and the corrected `tUnion(...ts)` of safe members agree member by member. */
  lemma UnionAgrees(ps: seq<Field.Validator>, ts: seq<Schema>, v: Value)
    requires |ps| == |ts|
    requires forall i :: 0 <= i < |ts| ==> TypemLaws.Safe(ts[i])
    requires forall i, x :: 0 <= i < |ps| ==> ps[i](x) == Valid(Corrected, ts[i], x)
    ensures Field.Union(ps)(v) == Valid(Corrected, TUnion(ts), v)
  {
    Field.UnionIff(ps, v);
    TypemLaws.CorrectedUnionAcceptsIff(ts, v);
    if Field.Union(ps)(v) {
      var i :| 0 <= i < |ps| && ps[i](v);
      assert Valid(Corrected, ts[i], v);
    }
    if Valid(Corrected, TUnion(ts), v) {
      var i :| 0 <= i < |ts| && Valid(Corrected, ts[i], v);
      assert ps[i](v);
    }
  }

  /** `literal(x)` and `tLiteral(x)` accept the same values. */
  lemma LiteralAgrees(rev: Revision, x: Value, v: Value)
    ensures Field.Literal(x)(v) == Valid(rev, TLiteral(x), v)
  {
    if !StrictEq(v, x) && LiteralText(x).Success? {
      TypemLaws.ComplainFails(rev, v, "Expected literal " + LiteralText(x).value + ", got ", "");
    }
  }

  /** `oneOf(...xs)` and `tEnum(xs)` accept the same values. */
  lemma OneOfAgrees(rev: Revision, xs: seq<EnumMember>, v: Value)
    ensures Field.OneOf(xs)(v) == Valid(rev, TEnum(xs), v)
  {
    Field.SomeStrictEqIff(xs, v);
    TypemLaws.EnumAcceptsIff(rev, xs, v);
  }

  /** `nullable(p)` and `tUnion(t, tNull())` agree when `p` and `t` agree and `t` is safe. */
  lemma NullableAgrees(p: Field.Validator, t: Schema, v: Value)
    requires TypemLaws.Safe(t)
    requires forall x :: p(x) == Valid(Corrected, t, x)
    ensures Field.Nullable(p)(v) == Valid(Corrected, TUnion([t, TPrim(NullK, [])]), v)
  {
    var ts := [t, TPrim(NullK, [])];
    assert TypemLaws.Safe(ts[1]);
    TypemLaws.CorrectedUnionAcceptsIff(ts, v);
    TypemLaws.PrimAcceptsIff(Corrected, NullK, [], v);
    if v == Null { assert Valid(Corrected, ts[1], v); }
    if p(v) { assert Valid(Corrected, ts[0], v); }
  }
}
