/** Properties of the library/index.ts engine, proved about the specification in module Typem
    (and so, through the engine's postconditions, about the methods of TypemEngine). */
module TypemLaws {
  import opened Results
  import opened Seqs
  import opened Decimal
  import opened JsValue
  import opened Typem

  /** The check failed with a `Typem.Error`. */
  predicate Rejects(rev: Revision, s: Schema, v: Value) {
    var o := Check(rev, s, v); o.Fail? && o.err.TypemError?
  }

  predicate IsForeign(o: Outcome) {
    o.Fail? && o.err.Foreign?
  }

  /** Complaining always fails, with a Typem error unless rendering the value throws. */
  lemma ComplainFails(rev: Revision, v: Value, before: string, after: string)
    ensures Complain(rev, v, before, after).Fail?
    ensures rev == Corrected || !ContainsSymbol(v) ==> Complain(rev, v, before, after).err.TypemError?
    ensures rev == Corrected || !ContainsSymbol(v) ==>
              Got(rev, v).Success? && Complain(rev, v, before, after) == Fail(TypemError(before + Got(rev, v).value + after))
  {
  }

  // ---------------------------------------------------------------------------
  // Primitives and refinements (defineType)

  /** A primitive accepts exactly the values its base check admits and every refinement lets through. */
  lemma PrimAcceptsIff(rev: Revision, k: Kind, refinements: seq<Refinement>, v: Value)
    ensures Valid(rev, TPrim(k, refinements), v) <==>
            KindAdmits(k, v) && forall i :: 0 <= i < |refinements| ==> Refine(rev, refinements[i], v) == Pass
  {
    if KindAdmits(k, v) {
      var rs := RefinementOutcomes(rev, refinements, v);
      assert Check(rev, TPrim(k, refinements), v) == FirstFailure(rs);
      FirstFailurePasses(rs);
      assert forall i :: 0 <= i < |refinements| ==> rs[i] == Refine(rev, refinements[i], v);
    } else {
      ComplainFails(rev, v, "Expected " + KindName(k) + ", got ", "");
    }
  }

  /** The base check runs first: a value it rejects gets the base error, whatever the refinements. */
  lemma PrimBaseCheckFirst(rev: Revision, k: Kind, refinements: seq<Refinement>, v: Value)
    requires !KindAdmits(k, v)
    ensures Check(rev, TPrim(k, refinements), v) == Check(rev, TPrim(k, []), v)
    ensures !Valid(rev, TPrim(k, refinements), v)
  {
    var c := Complain(rev, v, "Expected " + KindName(k) + ", got ", "");
    assert Check(rev, TPrim(k, refinements), v) == c;
    assert Check(rev, TPrim(k, []), v) == c;
    ComplainFails(rev, v, "Expected " + KindName(k) + ", got ", "");
  }

  /** Refinements run in the order supplied and the first one that throws is the error raised. */
  lemma PrimFirstFailingRefinement(rev: Revision, k: Kind, refinements: seq<Refinement>, v: Value, i: nat)
    requires KindAdmits(k, v)
    requires i < |refinements| && Refine(rev, refinements[i], v).Fail?
    requires forall j :: 0 <= j < i ==> Refine(rev, refinements[j], v) == Pass
    ensures Check(rev, TPrim(k, refinements), v) == Refine(rev, refinements[i], v)
  {
    var rs := RefinementOutcomes(rev, refinements, v);
    FirstFailureIs(rs, i);
  }

  /** A refinement narrows what a primitive accepts; it never widens it. */
  lemma RefinementsNarrow(rev: Revision, k: Kind, refinements: seq<Refinement>, more: seq<Refinement>, v: Value)
    ensures Valid(rev, TPrim(k, refinements + more), v) ==> Valid(rev, TPrim(k, refinements), v)
  {
    PrimAcceptsIff(rev, k, refinements + more, v);
    PrimAcceptsIff(rev, k, refinements, v);
    if Valid(rev, TPrim(k, refinements + more), v) {
      forall i | 0 <= i < |refinements| ensures Refine(rev, refinements[i], v) == Pass {
        assert (refinements + more)[i] == refinements[i];
      }
    }
  }

  /** Numeric refinements on a number or bigint: strict `vGt`/`vLt`, non-strict `vGte`/`vLte`,
      and the closed interval for `vRange`. */
  lemma NumericRefinements(rev: Revision, v: Value, b: int, lo: int, hi: int)
    requires v.Num? || v.Big?
    ensures Refine(rev, Gt(b), v) == Pass <==> v.n > b
    ensures Refine(rev, Gte(b), v) == Pass <==> v.n >= b
    ensures Refine(rev, Lt(b), v) == Pass <==> v.n < b
    ensures Refine(rev, Lte(b), v) == Pass <==> v.n <= b
    ensures Refine(rev, Range(lo, hi), v) == Pass <==> lo <= v.n <= hi
  {
  }

  /** A numeric bound on a symbol, or on an array holding one, throws the TypeError of the
      comparison, whatever the primitive it refines. */
  lemma NumericRefinementsOnSymbols(rev: Revision, v: Value, b: int, lo: int, hi: int)
    requires ContainsSymbol(v)
    ensures Refine(rev, Gt(b), v) == Fail(SymbolComparison(v))
    ensures Refine(rev, Gte(b), v) == Fail(SymbolComparison(v))
    ensures Refine(rev, Lt(b), v) == Fail(SymbolComparison(v))
    ensures Refine(rev, Lte(b), v) == Fail(SymbolComparison(v))
    ensures Refine(rev, Range(lo, hi), v) == Fail(SymbolComparison(v))
    ensures v.Sym? ==> IsForeign(Refine(rev, Gt(b), v)) && Refine(rev, Gt(b), v).err.message == SymbolToNumber
  {
  }

  /** `tUnknown(vGt(0))` throws on a symbol, so a union trying it first rethrows that
      TypeError instead of reaching `tSymbol()`, whichever rendering `got` uses. */
  lemma UnknownBoundOnSymbolThrows(rev: Revision, id: nat, d: string)
    ensures Check(rev, TPrim(UnknownK, [Gt(0)]), Sym(id, d)) == Fail(Foreign(SymbolToNumber))
    ensures Check(rev, TUnion([TPrim(UnknownK, [Gt(0)]), TPrim(SymbolK, [])]), Sym(id, d)) == Fail(Foreign(SymbolToNumber))
  {
    var v := Sym(id, d);
    var t := TPrim(UnknownK, [Gt(0)]);
    NumericRefinementsOnSymbols(rev, v, 0, 0, 0);
    PrimFirstFailingRefinement(rev, UnknownK, [Gt(0)], v, 0);
    UnionRethrowsForeign(rev, [t, TPrim(SymbolK, [])], v, 0);
  }

  /** Length refinements on a string or array: `vLength` is exact, the others inclusive. */
  lemma LengthRefinements(rev: Revision, v: Value, n: int, lo: int, hi: int)
    requires v.Str? || v.Arr?
    ensures var len := if v.Str? then Utf16Length(v.s) else |v.items|;
      && (Refine(rev, Length(n), v) == Pass <==> len == n)
      && (Refine(rev, MinLength(n), v) == Pass <==> len >= n)
      && (Refine(rev, MaxLength(n), v) == Pass <==> len <= n)
      && (Refine(rev, LengthRange(lo, hi), v) == Pass <==> lo <= len <= hi)
  {
    RefinePassIff(rev, Length(n), v);
    RefinePassIff(rev, MinLength(n), v);
    RefinePassIff(rev, MaxLength(n), v);
    RefinePassIff(rev, LengthRange(lo, hi), v);
  }

  /** `HasPrefix` is Dafny's prefix relation. */
  lemma PrefixIff(s: string, p: string)
    ensures HasPrefix(s, p) <==> p <= s
  {
  }

  /** `HasSuffix` holds iff the string ends with the pattern. */
  lemma SuffixIff(s: string, p: string)
    ensures HasSuffix(s, p) <==> exists a :: s == a + p
  {
    if HasSuffix(s, p) {
      assert s == s[..|s| - |p|] + p;
    }
    if exists a :: s == a + p {
      var a :| s == a + p;
      assert s[|s| - |p|..] == p;
    }
  }

  /** `HasSubstring` holds iff the pattern occurs somewhere in the string. */
  lemma SubstringIff(s: string, p: string)
    ensures HasSubstring(s, p) <==> exists a, b :: s == a + p + b
  {
    if HasSubstring(s, p) {
      var i :| 0 <= i <= |s| && HasPrefix(s[i..], p);
      assert s == s[..i] + p + s[i + |p|..];
    }
    if exists a, b :: s == a + p + b {
      var a, b :| s == a + p + b;
      assert s[|a|..] == p + b;
      assert HasPrefix(s[|a|..], p);
    }
  }

  /** A refinement lets a value through exactly when its guard evaluates to true without throwing. */
  lemma RefinePassIff(rev: Revision, r: Refinement, v: Value)
    ensures Refine(rev, r, v) == Pass <==> Admits(r, v) == Success(true)
  {
    ComplainFails(rev, v, "Expected ", " " + Requirement(r));
  }

  /** Substring refinements on a string: prefix, suffix, and occurrence anywhere. */
  lemma SubstringRefinements(rev: Revision, s: string, p: string)
    ensures Refine(rev, StartsWith(p), Str(s)) == Pass <==> p <= s
    ensures Refine(rev, EndsWith(p), Str(s)) == Pass <==> exists a :: s == a + p
    ensures Refine(rev, Contains(p), Str(s)) == Pass <==> exists a, b :: s == a + p + b
  {
    StartsWithIff(rev, s, p);
    EndsWithIff(rev, s, p);
    ContainsIff(rev, s, p);
  }

  /** A string satisfies `vDateISO`, `vTimeISO` or `vDateTimeISO` exactly when it has the
      pattern's fixed shape, character for character. */
  lemma PatternAcceptsIff(rev: Revision, r: Refinement, s: string)
    requires r.DateISO? || r.TimeISO? || r.DateTimeISO?
    ensures Valid(rev, TPrim(StringK, [r]), Str(s)) <==> MatchesShape(s, PatternShape(r))
  {
    PrimAcceptsIff(rev, StringK, [r], Str(s));
    RefinePassIff(rev, r, Str(s));
  }

  /** `tString(vDateISO())` accepts exactly the ten-character strings dddd-dd-dd. */
  lemma DateISOAcceptsIff(rev: Revision, s: string)
    ensures Valid(rev, TPrim(StringK, [DateISO]), Str(s)) <==>
            |s| == 10 && s[4] == '-' && s[7] == '-' &&
            forall i :: 0 <= i < 10 && i != 4 && i != 7 ==> IsDigit(s[i])
  {
    PatternAcceptsIff(rev, DateISO, s);
    var shape := PatternShape(DateISO);
    assert forall i :: 0 <= i < 10 ==> (shape[i] == 'd' <==> i != 4 && i != 7);
  }

  /** `tString(vTimeISO())` accepts exactly the eight-character strings dd:dd:dd. */
  lemma TimeISOAcceptsIff(rev: Revision, s: string)
    ensures Valid(rev, TPrim(StringK, [TimeISO]), Str(s)) <==>
            |s| == 8 && s[2] == ':' && s[5] == ':' &&
            forall i :: 0 <= i < 8 && i != 2 && i != 5 ==> IsDigit(s[i])
  {
    PatternAcceptsIff(rev, TimeISO, s);
    var shape := PatternShape(TimeISO);
    assert forall i :: 0 <= i < 8 ==> (shape[i] == 'd' <==> i != 2 && i != 5);
  }

  lemma StartsWithIff(rev: Revision, s: string, p: string)
    ensures Refine(rev, StartsWith(p), Str(s)) == Pass <==> p <= s
  {
    RefinePassIff(rev, StartsWith(p), Str(s));
    assert Admits(StartsWith(p), Str(s)) == Success(HasPrefix(s, p));
    PrefixIff(s, p);
  }

  lemma EndsWithIff(rev: Revision, s: string, p: string)
    ensures Refine(rev, EndsWith(p), Str(s)) == Pass <==> exists a :: s == a + p
  {
    RefinePassIff(rev, EndsWith(p), Str(s));
    assert Admits(EndsWith(p), Str(s)) == Success(HasSuffix(s, p));
    SuffixIff(s, p);
  }

  lemma ContainsIff(rev: Revision, s: string, p: string)
    ensures Refine(rev, Contains(p), Str(s)) == Pass <==> exists a, b :: s == a + p + b
  {
    RefinePassIff(rev, Contains(p), Str(s));
    assert Admits(Contains(p), Str(s)) == Success(HasSubstring(s, p));
    SubstringIff(s, p);
  }

  /** Chaining `vLte(b)` and `vGte(a)` on a number accepts exactly what `vRange(a, b)` accepts:
      the closed interval [a, b]. */
  lemma ChainedBoundsAreRange(rev: Revision, a: int, b: int, v: Value)
    ensures Valid(rev, TPrim(NumberK, [Lte(b), Gte(a)]), v) <==> Valid(rev, TPrim(NumberK, [Range(a, b)]), v)
    ensures Valid(rev, TPrim(NumberK, [Range(a, b)]), v) <==> v.Num? && a <= v.n <= b
  {
    PrimAcceptsIff(rev, NumberK, [Lte(b), Gte(a)], v);
    PrimAcceptsIff(rev, NumberK, [Range(a, b)], v);
    RefinePassIff(rev, Lte(b), v);
    RefinePassIff(rev, Gte(a), v);
    RefinePassIff(rev, Range(a, b), v);
    var chained := [Lte(b), Gte(a)];
    assert chained[0] == Lte(b) && chained[1] == Gte(a);
    assert [Range(a, b)][0] == Range(a, b);
  }

  // ---------------------------------------------------------------------------
  // One step of validateOrThrow per combinator

  lemma UnfoldUnion(rev: Revision, ms: seq<Schema>, v: Value)
    ensures Check(rev, TUnion(ms), v) == UnionOf(MemberOutcomes(rev, TUnion(ms), v))
    ensures |MemberOutcomes(rev, TUnion(ms), v)| == |ms|
    ensures forall i :: 0 <= i < |ms| ==> MemberOutcomes(rev, TUnion(ms), v)[i] == Check(rev, ms[i], v)
  {
  }

  lemma UnfoldObject(rev: Revision, shape: seq<(string, Schema)>, v: Value)
    requires IsObjectLike(v)
    ensures Check(rev, TObject(shape), v) ==
            var r := FirstFailure(FieldOutcomes(rev, TObject(shape), v)); if r.Fail? then r else ParamStep(rev, shape)
    ensures |FieldOutcomes(rev, TObject(shape), v)| == |shape|
    ensures forall i :: 0 <= i < |shape| ==>
              FieldOutcomes(rev, TObject(shape), v)[i] == Within(shape[i].0 + ": ", Check(rev, shape[i].1, Get(v, shape[i].0)))
  {
  }

  lemma UnfoldTuple(rev: Revision, ts: seq<Schema>, xs: seq<Value>)
    requires |xs| == |ts|
    ensures Check(rev, TTuple(ts), Arr(xs)) == FirstFailure(PositionOutcomes(rev, TTuple(ts), xs))
    ensures |PositionOutcomes(rev, TTuple(ts), xs)| == |ts|
    ensures forall i :: 0 <= i < |ts| ==>
              PositionOutcomes(rev, TTuple(ts), xs)[i] == Within(IndexPrefix(i), Check(rev, ts[i], xs[i]))
  {
  }

  lemma UnfoldArray(rev: Revision, t: Schema, xs: seq<Value>)
    ensures Check(rev, TArray(t), Arr(xs)) == FirstFailure(ElementOutcomes(rev, TArray(t), xs))
    ensures |ElementOutcomes(rev, TArray(t), xs)| == |xs|
    ensures forall i :: 0 <= i < |xs| ==>
              ElementOutcomes(rev, TArray(t), xs)[i] == Within(IndexPrefix(i), Check(rev, t, xs[i]))
  {
  }

  lemma UnfoldSet(rev: Revision, t: Schema, xs: seq<Value>)
    ensures Check(rev, TSet(t), SetV(xs)) == FirstFailure(SetOutcomes(rev, TSet(t), xs))
    ensures |SetOutcomes(rev, TSet(t), xs)| == |xs|
    ensures forall i :: 0 <= i < |xs| ==>
              SetOutcomes(rev, TSet(t), xs)[i] == SetItemOutcome(rev, xs[i], Check(rev, t, xs[i]))
  {
  }

  lemma UnfoldRecord(rev: Revision, kt: Schema, vt: Schema, v: Value)
    requires IsObjectLike(v)
    ensures Check(rev, TRecord(kt, vt), v) == FirstFailure(RecordOutcomes(rev, TRecord(kt, vt), OwnEntries(v)))
    ensures |RecordOutcomes(rev, TRecord(kt, vt), OwnEntries(v))| == |OwnEntries(v)|
    ensures forall i :: 0 <= i < |OwnEntries(v)| ==>
              RecordOutcomes(rev, TRecord(kt, vt), OwnEntries(v))[i] ==
              (var k := Check(rev, kt, Str(OwnEntries(v)[i].0)); if k.Fail? then k else Check(rev, vt, OwnEntries(v)[i].1))
  {
  }

  lemma UnfoldMap(rev: Revision, kt: Schema, vt: Schema, pairs: seq<(Value, Value)>)
    ensures Check(rev, TMap(kt, vt), MapV(pairs)) == FirstFailure(MapOutcomes(rev, TMap(kt, vt), pairs))
    ensures |MapOutcomes(rev, TMap(kt, vt), pairs)| == |pairs|
    ensures forall i :: 0 <= i < |pairs| ==>
              MapOutcomes(rev, TMap(kt, vt), pairs)[i] ==
              (var k := Check(rev, kt, pairs[i].0); if k.Fail? then k else Check(rev, vt, pairs[i].1))
  {
  }

  // ---------------------------------------------------------------------------
  // tUnion and tOptional

  /** A union accepts iff some member accepts and every member tried before it failed with a
      Typem error (a foreign error from an earlier member is rethrown). */
  lemma UnionAcceptsIff(rev: Revision, ms: seq<Schema>, v: Value)
    ensures Valid(rev, TUnion(ms), v) <==>
            exists i :: 0 <= i < |ms| && Valid(rev, ms[i], v) && forall j :: 0 <= j < i ==> Rejects(rev, ms[j], v)
  {
    if Valid(rev, TUnion(ms), v) {
      UnionAcceptedByMember(rev, ms, v);
    } else if exists i :: 0 <= i < |ms| && Valid(rev, ms[i], v) && forall j :: 0 <= j < i ==> Rejects(rev, ms[j], v) {
      var i :| 0 <= i < |ms| && Valid(rev, ms[i], v) && forall j :: 0 <= j < i ==> Rejects(rev, ms[j], v);
      UnionAcceptsAt(rev, ms, v, i);
    }
  }

  /** A union that accepts was decided by a member that accepts, after members that all
      failed with a Typem error. */
  lemma UnionAcceptedByMember(rev: Revision, ms: seq<Schema>, v: Value)
    requires Valid(rev, TUnion(ms), v)
    ensures exists i :: 0 <= i < |ms| && Valid(rev, ms[i], v) && forall j :: 0 <= j < i ==> Rejects(rev, ms[j], v)
  {
    UnfoldUnion(rev, ms, v);
    var rs := MemberOutcomes(rev, TUnion(ms), v);
    UnionFromPassIff(rs, []);
    var i :| 0 <= i < |rs| && rs[i].Pass? && forall j :: 0 <= j < i ==> !Decides(rs[j]);
    assert Valid(rev, ms[i], v);
    forall j | 0 <= j < i ensures Rejects(rev, ms[j], v) { assert !Decides(rs[j]); }
  }

  /** A member that accepts, tried after members that all failed with a Typem error,
      makes the union accept. */
  lemma UnionAcceptsAt(rev: Revision, ms: seq<Schema>, v: Value, i: nat)
    requires i < |ms| && Valid(rev, ms[i], v)
    requires forall j :: 0 <= j < i ==> Rejects(rev, ms[j], v)
    ensures Valid(rev, TUnion(ms), v)
  {
    UnfoldUnion(rev, ms, v);
    var rs := MemberOutcomes(rev, TUnion(ms), v);
    forall j | 0 <= j < i ensures !Decides(rs[j]) { assert Rejects(rev, ms[j], v); }
    UnionOfIs(rs, i);
  }

  /** When no member raises a foreign error, a union accepts iff some member accepts. */
  lemma UnionWithoutForeign(rev: Revision, ms: seq<Schema>, v: Value)
    requires forall i :: 0 <= i < |ms| ==> !IsForeign(Check(rev, ms[i], v))
    ensures Valid(rev, TUnion(ms), v) <==> exists i :: 0 <= i < |ms| && Valid(rev, ms[i], v)
  {
    if Valid(rev, TUnion(ms), v) {
      UnionAcceptedByMember(rev, ms, v);
    } else if exists i :: 0 <= i < |ms| && Valid(rev, ms[i], v) {
      var i :| 0 <= i < |ms| && Valid(rev, ms[i], v);
      UnionAcceptsAnyAt(rev, ms, v, i);
    }
  }

  /** Without foreign errors, any accepting member makes the union accept. */
  lemma UnionAcceptsAnyAt(rev: Revision, ms: seq<Schema>, v: Value, i: nat)
    requires forall j :: 0 <= j < |ms| ==> !IsForeign(Check(rev, ms[j], v))
    requires i < |ms| && Valid(rev, ms[i], v)
    ensures Valid(rev, TUnion(ms), v)
  {
    UnfoldUnion(rev, ms, v);
    var rs := MemberOutcomes(rev, TUnion(ms), v);
    UnionFromPassWithoutForeign(rs, []);
    assert rs[i].Pass?;
  }

  /** Without foreign errors, the union loop passes iff some member outcome passes. */
  lemma {:induction false} UnionFromPassWithoutForeign(rs: seq<Outcome>, errors: seq<string>)
    requires forall i :: 0 <= i < |rs| ==> !IsForeign(rs[i])
    ensures UnionFrom(rs, errors).Pass? <==> exists i :: 0 <= i < |rs| && rs[i].Pass?
    decreases |rs|
  {
    if rs != [] {
      var tail := rs[1..];
      if Decides(rs[0]) {
        assert !IsForeign(rs[0]);
      } else {
        assert forall i :: 0 <= i < |tail| ==> tail[i] == rs[i + 1];
        UnionFromPassWithoutForeign(tail, errors + [MessageOf(rs[0])]);
        if exists i :: 0 <= i < |rs| && rs[i].Pass? {
          var i :| 0 <= i < |rs| && rs[i].Pass?;
          assert tail[i - 1] == rs[i];
        }
      }
    }
  }

  /** When every member rejects, the union's message is the header followed by one
      tab-indented line per member message, in declared order. */
  lemma UnionAggregatesMessages(rev: Revision, ms: seq<Schema>, v: Value)
    requires forall i :: 0 <= i < |ms| ==> Rejects(rev, ms[i], v)
    ensures Check(rev, TUnion(ms), v) ==
            Fail(TypemError("No match with any of the union types:\n" +
              Join("\n", seq(|ms|, i requires 0 <= i < |ms| => "\t" + MessageOf(Check(rev, ms[i], v))))))
  {
    UnfoldUnion(rev, ms, v);
    var rs := MemberOutcomes(rev, TUnion(ms), v);
    UnionOfAllFail(rs);
    var msgs := seq(|rs|, i requires 0 <= i < |rs| => MessageOf(rs[i]));
    assert seq(|msgs|, i requires 0 <= i < |msgs| => "\t" + msgs[i])
        == seq(|ms|, i requires 0 <= i < |ms| => "\t" + MessageOf(Check(rev, ms[i], v)));
  }

  /** A foreign error from a member tried before any accepting one is rethrown unchanged. */
  lemma UnionRethrowsForeign(rev: Revision, ms: seq<Schema>, v: Value, k: nat)
    requires k < |ms| && IsForeign(Check(rev, ms[k], v))
    requires forall j :: 0 <= j < k ==> Rejects(rev, ms[j], v)
    ensures Check(rev, TUnion(ms), v) == Check(rev, ms[k], v)
  {
    UnfoldUnion(rev, ms, v);
    var rs := MemberOutcomes(rev, TUnion(ms), v);
    UnionOfIs(rs, k);
  }

  /** `tOptional(t)` accepts what `t` accepts plus null and undefined (when `t` raises no
      foreign error and the null/undefined checks can render the value). */
  lemma OptionalAccepts(rev: Revision, t: Schema, v: Value)
    requires rev == Corrected || !ContainsSymbol(v)
    requires !IsForeign(Check(rev, t, v))
    ensures Valid(rev, Optional(t), v) <==> Valid(rev, t, v) || v == Null || v == Undef
  {
    UnfoldOptional(rev, t, v);
    NullishCheck(rev, NullK, v);
    NullishCheck(rev, UndefinedK, v);
    UnionOfThree(Check(rev, t, v), Check(rev, TPrim(NullK, []), v), Check(rev, TPrim(UndefinedK, []), v));
  }

  /** `tOptional(t)` tries `t`, then `tNull()`, then `tUndefined()`. */
  lemma UnfoldOptional(rev: Revision, t: Schema, v: Value)
    ensures Check(rev, Optional(t), v) ==
            UnionOf([Check(rev, t, v), Check(rev, TPrim(NullK, []), v), Check(rev, TPrim(UndefinedK, []), v)])
  {
    var ms := Optional(t).members;
    UnfoldUnion(rev, ms, v);
    assert MemberOutcomes(rev, TUnion(ms), v) == [Check(rev, ms[0], v), Check(rev, ms[1], v), Check(rev, ms[2], v)];
  }

  /** A union of three members that raise no foreign error passes iff one of them passes. */
  lemma UnionOfThree(a: Outcome, b: Outcome, c: Outcome)
    requires !IsForeign(a) && !IsForeign(b) && !IsForeign(c)
    ensures UnionOf([a, b, c]).Pass? <==> a.Pass? || b.Pass? || c.Pass?
  {
    UnionFromPassWithoutForeign([a, b, c], []);
    var rs := [a, b, c];
    assert rs[0] == a && rs[1] == b && rs[2] == c;
  }

  /** `tNull()` and `tUndefined()` accept exactly their one value and raise no foreign error. */
  lemma NullishCheck(rev: Revision, k: Kind, v: Value)
    requires k == NullK || k == UndefinedK
    requires rev == Corrected || !ContainsSymbol(v)
    ensures !IsForeign(Check(rev, TPrim(k, []), v))
    ensures Valid(rev, TPrim(k, []), v) <==> v == (if k == NullK then Null else Undef)
  {
    PrimNeverForeign(rev, k, v);
    PrimAcceptsIff(rev, k, [], v);
  }

  /** A primitive without refinements raises no foreign error when the value can be rendered. */
  lemma PrimNeverForeign(rev: Revision, k: Kind, v: Value)
    requires rev == Corrected || !ContainsSymbol(v)
    ensures !IsForeign(Check(rev, TPrim(k, []), v))
  {
    if !KindAdmits(k, v) {
      ComplainFails(rev, v, "Expected " + KindName(k) + ", got ", "");
    } else {
      FirstFailurePasses(RefinementOutcomes(rev, [], v));
    }
  }

  // ---------------------------------------------------------------------------
  // tInstanceOf

  /** An instance-of type accepts exactly the values whose prototype chain holds the class. */
  lemma InstanceOfAcceptsIff(rev: Revision, c: string, v: Value)
    ensures Valid(rev, TInstanceOf(c), v) <==> c in Chain(v)
  {
    if c !in Chain(v) {
      ComplainFails(rev, v, "Expected instance of " + c + ", got ", "");
    }
  }

  // ---------------------------------------------------------------------------
  // tEnum

  /** An enum type accepts exactly the values strictly equal to one of its members. */
  lemma EnumAcceptsIff(rev: Revision, xs: seq<EnumMember>, v: Value)
    ensures Valid(rev, TEnum(xs), v) <==> exists i :: 0 <= i < |xs| && StrictEq(xs[i], v)
  {
    var c := Complain(rev, v, "Expected one of [" + EnumText(xs) + "], got ", "");
    assert Check(rev, TEnum(xs), v) == if exists i :: 0 <= i < |xs| && StrictEq(xs[i], v) then Pass else c;
    ComplainFails(rev, v, "Expected one of [" + EnumText(xs) + "], got ", "");
  }

  // ---------------------------------------------------------------------------
  // tObject

  /** A non-object (or null) is rejected before any key is looked at. */
  lemma ObjectRejectsNonObject(rev: Revision, shape: seq<(string, Schema)>, v: Value)
    requires !IsObjectLike(v)
    ensures Check(rev, TObject(shape), v) == Check(rev, TObject([]), v)
    ensures rev == Corrected || !ContainsSymbol(v) ==> Rejects(rev, TObject(shape), v)
  {
    ComplainFails(rev, v, "Expected object, got ", "");
  }

  /** The first failing key decides: its Typem error is raised as `"<key>: <message>"` and the
      keys after it are not consulted. */
  lemma ObjectFirstFailingKey(rev: Revision, shape: seq<(string, Schema)>, v: Value, k: nat, m: string)
    requires IsObjectLike(v)
    requires k < |shape| && Check(rev, shape[k].1, Get(v, shape[k].0)) == Fail(TypemError(m))
    requires forall j :: 0 <= j < k ==> Valid(rev, shape[j].1, Get(v, shape[j].0))
    ensures Check(rev, TObject(shape), v) == Fail(TypemError(shape[k].0 + ": " + m))
  {
    UnfoldObject(rev, shape, v);
    var rs := FieldOutcomes(rev, TObject(shape), v);
    FirstFailureIs(rs, k);
  }

  /** An object type accepts exactly the objects whose every declared key satisfies its type. */
  lemma ObjectAcceptsIff(rev: Revision, shape: seq<(string, Schema)>, v: Value)
    requires rev == Corrected || !HasKey(shape, "validate")
    ensures Valid(rev, TObject(shape), v) <==>
            IsObjectLike(v) && forall i :: 0 <= i < |shape| ==> Valid(rev, shape[i].1, Get(v, shape[i].0))
  {
    if IsObjectLike(v) {
      UnfoldObject(rev, shape, v);
      var rs := FieldOutcomes(rev, TObject(shape), v);
      FirstFailurePasses(rs);
    } else {
      ComplainFails(rev, v, "Expected object, got ", "");
    }
  }

  // ---------------------------------------------------------------------------
  // tTuple, tArray, tSet

  /** A tuple of the wrong length is rejected with the length message before any element is checked. */
  lemma TupleLengthFirst(rev: Revision, ts: seq<Schema>, xs: seq<Value>)
    requires |xs| != |ts|
    requires rev == Corrected || !ContainsSymbol(Arr(xs))
    ensures Got(rev, Arr(xs)).Success?
    ensures Check(rev, TTuple(ts), Arr(xs)) ==
            Fail(TypemError(("Expected tuple of length " + NatToString(|ts|) + ", got ") +
                            Got(rev, Arr(xs)).value + (" with length " + NatToString(|xs|))))
  {
    var before := "Expected tuple of length " + NatToString(|ts|) + ", got ";
    var after := " with length " + NatToString(|xs|);
    assert Check(rev, TTuple(ts), Arr(xs)) == Complain(rev, Arr(xs), before, after);
    ComplainFails(rev, Arr(xs), before, after);
  }

  /** The first failing position decides, raised as `"[i]: <message>"`. */
  lemma TupleFirstFailingPosition(rev: Revision, ts: seq<Schema>, xs: seq<Value>, k: nat, m: string)
    requires |xs| == |ts|
    requires k < |ts| && Check(rev, ts[k], xs[k]) == Fail(TypemError(m))
    requires forall j :: 0 <= j < k ==> Valid(rev, ts[j], xs[j])
    ensures Check(rev, TTuple(ts), Arr(xs)) == Fail(TypemError("[" + NatToString(k) + "]: " + m))
  {
    UnfoldTuple(rev, ts, xs);
    var rs := PositionOutcomes(rev, TTuple(ts), xs);
    FirstFailureIs(rs, k);
  }

  /** A tuple type accepts exactly the arrays of its length whose every position satisfies its type. */
  lemma TupleAcceptsIff(rev: Revision, ts: seq<Schema>, v: Value)
    ensures Valid(rev, TTuple(ts), v) <==>
            v.Arr? && |v.items| == |ts| && forall i :: 0 <= i < |ts| ==> Valid(rev, ts[i], v.items[i])
  {
    if v.Arr? && |v.items| == |ts| {
      UnfoldTuple(rev, ts, v.items);
      var rs := PositionOutcomes(rev, TTuple(ts), v.items);
      FirstFailurePasses(rs);
    } else if v.Arr? {
      ComplainFails(rev, v, "Expected tuple of length " + NatToString(|ts|) + ", got ",
                    " with length " + NatToString(|v.items|));
    } else {
      ComplainFails(rev, v, "Expected a tuple array, got ", "");
    }
  }

  /** The first failing index decides, raised as `"[i]: <message>"`. */
  lemma ArrayFirstFailingIndex(rev: Revision, t: Schema, xs: seq<Value>, k: nat, m: string)
    requires k < |xs| && Check(rev, t, xs[k]) == Fail(TypemError(m))
    requires forall j :: 0 <= j < k ==> Valid(rev, t, xs[j])
    ensures Check(rev, TArray(t), Arr(xs)) == Fail(TypemError("[" + NatToString(k) + "]: " + m))
  {
    UnfoldArray(rev, t, xs);
    var rs := ElementOutcomes(rev, TArray(t), xs);
    FirstFailureIs(rs, k);
  }

  /** An array type accepts exactly the arrays whose every element satisfies the element type;
      in particular the empty array. */
  lemma ArrayAcceptsIff(rev: Revision, t: Schema, v: Value)
    ensures Valid(rev, TArray(t), v) <==> v.Arr? && forall i :: 0 <= i < |v.items| ==> Valid(rev, t, v.items[i])
    ensures Valid(rev, TArray(t), Arr([]))
  {
    if v.Arr? {
      UnfoldArray(rev, t, v.items);
      var rs := ElementOutcomes(rev, TArray(t), v.items);
      FirstFailurePasses(rs);
    } else {
      ComplainFails(rev, v, "Expected array, got ", "");
    }
    UnfoldArray(rev, t, []);
    FirstFailurePasses(ElementOutcomes(rev, TArray(t), []));
  }

  /** A set's first failing item decides; the prefix shows the item, not a position. */
  lemma SetFirstFailingItem(rev: Revision, t: Schema, xs: seq<Value>, k: nat, m: string)
    requires k < |xs| && Check(rev, t, xs[k]) == Fail(TypemError(m))
    requires forall j :: 0 <= j < k ==> Valid(rev, t, xs[j])
    requires rev == Corrected || !ContainsSymbol(xs[k])
    ensures Check(rev, TSet(t), SetV(xs)) == Fail(TypemError("Set[" + Show(xs[k]) + "]: " + m))
  {
    UnfoldSet(rev, t, xs);
    var rs := SetOutcomes(rev, TSet(t), xs);
    FirstFailureIs(rs, k);
  }

  /** A set type accepts exactly the sets whose every item satisfies the element type. */
  lemma SetAcceptsIff(rev: Revision, t: Schema, v: Value)
    ensures Valid(rev, TSet(t), v) <==> v.SetV? && forall i :: 0 <= i < |v.members| ==> Valid(rev, t, v.members[i])
  {
    if v.SetV? {
      UnfoldSet(rev, t, v.members);
      var rs := SetOutcomes(rev, TSet(t), v.members);
      FirstFailurePasses(rs);
      forall i | 0 <= i < |v.members| ensures rs[i] == Pass <==> Valid(rev, t, v.members[i]) {
        assert Template(rev, v.members[i]).Failure? || Template(rev, v.members[i]).Success?;
      }
    } else {
      ComplainFails(rev, v, "Expected Set, got ", "");
    }
  }

  // ---------------------------------------------------------------------------
  // tRecord and tMap

  /** A record type accepts exactly the objects whose every own entry has a key (as a string) of
      the key type and a value of the value type. */
  lemma RecordAcceptsIff(rev: Revision, kt: Schema, vt: Schema, v: Value)
    ensures Valid(rev, TRecord(kt, vt), v) <==>
            IsObjectLike(v) && forall i :: 0 <= i < |OwnEntries(v)| ==>
              Valid(rev, kt, Str(OwnEntries(v)[i].0)) && Valid(rev, vt, OwnEntries(v)[i].1)
  {
    if IsObjectLike(v) {
      UnfoldRecord(rev, kt, vt, v);
      var rs := RecordOutcomes(rev, TRecord(kt, vt), OwnEntries(v));
      FirstFailurePasses(rs);
    } else {
      ComplainFails(rev, v, "Expected object, got ", "");
    }
  }

  /** The first failing entry decides, with its key's error if the key fails and otherwise its
      value's error, in both cases without a path prefix. */
  lemma RecordFirstFailingEntry(rev: Revision, kt: Schema, vt: Schema, v: Value, k: nat)
    requires IsObjectLike(v)
    requires k < |OwnEntries(v)|
    requires forall j :: 0 <= j < k ==>
               Valid(rev, kt, Str(OwnEntries(v)[j].0)) && Valid(rev, vt, OwnEntries(v)[j].1)
    requires !Valid(rev, kt, Str(OwnEntries(v)[k].0)) || !Valid(rev, vt, OwnEntries(v)[k].1)
    ensures Check(rev, TRecord(kt, vt), v) ==
            if !Valid(rev, kt, Str(OwnEntries(v)[k].0)) then Check(rev, kt, Str(OwnEntries(v)[k].0))
            else Check(rev, vt, OwnEntries(v)[k].1)
  {
    UnfoldRecord(rev, kt, vt, v);
    var rs := RecordOutcomes(rev, TRecord(kt, vt), OwnEntries(v));
    FirstFailureIs(rs, k);
  }

  /** Keys reach the key type as strings, so a record keyed by numbers rejects every object that
      has an own entry, even an array. */
  lemma RecordNumberKeysRejectEntries(rev: Revision, vt: Schema, v: Value)
    requires IsObjectLike(v) && |OwnEntries(v)| > 0
    ensures !Valid(rev, TRecord(TPrim(NumberK, []), vt), v)
  {
    RecordAcceptsIff(rev, TPrim(NumberK, []), vt, v);
    PrimAcceptsIff(rev, NumberK, [], Str(OwnEntries(v)[0].0));
  }

  /** Class instances are read through their own properties: a record type checks the
      indices of a typed array. */
  lemma RecordReadsTypedArray(rev: Revision)
    ensures !Valid(rev, TRecord(TPrim(StringK, []), TPrim(StringK, [])),
                   Inst(["Uint8Array", "TypedArray", "Object"], [("0", Num(1))]))
  {
    var bytes := Inst(["Uint8Array", "TypedArray", "Object"], [("0", Num(1))]);
    RecordAcceptsIff(rev, TPrim(StringK, []), TPrim(StringK, []), bytes);
    PrimAcceptsIff(rev, StringK, [], Num(1));
  }

  /** An object type reads a user class's own fields. */
  lemma ObjectReadsInstanceFields(rev: Revision)
    ensures Valid(rev, TObject([("x", TPrim(NumberK, []))]), Inst(["Point", "Object"], [("x", Num(1))]))
  {
    var point := Inst(["Point", "Object"], [("x", Num(1))]);
    ObjectAcceptsIff(rev, [("x", TPrim(NumberK, []))], point);
    PrimAcceptsIff(rev, NumberK, [], Num(1));
  }

  /** A map type accepts exactly the maps whose every key and value satisfy their types. */
  lemma MapAcceptsIff(rev: Revision, kt: Schema, vt: Schema, v: Value)
    ensures Valid(rev, TMap(kt, vt), v) <==>
            v.MapV? && forall i :: 0 <= i < |v.pairs| ==> Valid(rev, kt, v.pairs[i].0) && Valid(rev, vt, v.pairs[i].1)
  {
    if v.MapV? {
      UnfoldMap(rev, kt, vt, v.pairs);
      var rs := MapOutcomes(rev, TMap(kt, vt), v.pairs);
      FirstFailurePasses(rs);
    } else {
      ComplainFails(rev, v, "Expected Map, got ", "");
    }
  }

  /** The first failing pair decides, key before value, without a path prefix. */
  lemma MapFirstFailingPair(rev: Revision, kt: Schema, vt: Schema, pairs: seq<(Value, Value)>, k: nat)
    requires k < |pairs|
    requires forall j :: 0 <= j < k ==> Valid(rev, kt, pairs[j].0) && Valid(rev, vt, pairs[j].1)
    requires !Valid(rev, kt, pairs[k].0) || !Valid(rev, vt, pairs[k].1)
    ensures Check(rev, TMap(kt, vt), MapV(pairs)) ==
            if !Valid(rev, kt, pairs[k].0) then Check(rev, kt, pairs[k].0) else Check(rev, vt, pairs[k].1)
  {
    UnfoldMap(rev, kt, vt, pairs);
    var rs := MapOutcomes(rev, TMap(kt, vt), pairs);
    FirstFailureIs(rs, k);
  }

  // ---------------------------------------------------------------------------
  // Finding: got() renders with a template literal, which throws on symbols

  /** As written, `tUnion(tString(), tSymbol())` throws a TypeError on a symbol instead of accepting
      it: the string member's complaint renders the symbol, and the union rethrows that error.
      The symbol member alone accepts it, and the corrected rendering lets the union accept it. */
  lemma SymbolUnionAsWritten(id: nat, description: string)
    ensures Check(AsWritten, TPrim(SymbolK, []), Sym(id, description)) == Pass
    ensures Check(AsWritten, TUnion([TPrim(StringK, []), TPrim(SymbolK, [])]), Sym(id, description))
            == Fail(Foreign(SymbolConversion))
    ensures Check(Corrected, TUnion([TPrim(StringK, []), TPrim(SymbolK, [])]), Sym(id, description)) == Pass
  {
    var sym := Sym(id, description);
    var ms := [TPrim(StringK, []), TPrim(SymbolK, [])];
    PrimAcceptsIff(AsWritten, SymbolK, [], sym);
    PrimAcceptsIff(Corrected, SymbolK, [], sym);
    assert Check(AsWritten, ms[0], sym) == Fail(Foreign(SymbolConversion));
    UnionRethrowsForeign(AsWritten, ms, sym, 0);
    PrimNeverForeign(Corrected, StringK, sym);
    PrimAcceptsIff(Corrected, StringK, [], sym);
    assert Rejects(Corrected, ms[0], sym);
    UnfoldUnion(Corrected, ms, sym);
    UnionOfIs(MemberOutcomes(Corrected, TUnion(ms), sym), 1);
  }

  /** The `Set[${index}]` prefix is a template literal too: as written, an item holding a symbol
      turns the item's Typem error into a TypeError even where `got()` never meets the symbol,
      as for `tSet(tArray(tString()))` on `new Set([[1, Symbol()]])`; corrected, it is rejected. */
  lemma SetPrefixAsWritten(id: nat, description: string)
    ensures Check(AsWritten, TSet(TArray(TPrim(StringK, []))), SetV([Arr([Num(1), Sym(id, description)])]))
            == Fail(Foreign(SymbolConversion))
    ensures Rejects(Corrected, TSet(TArray(TPrim(StringK, []))), SetV([Arr([Num(1), Sym(id, description)])]))
  {
    var item := Arr([Num(1), Sym(id, description)]);
    var t := TArray(TPrim(StringK, []));
    assert ContainsSymbol(item) by { assert ContainsSymbol(item.items[1]); }
    forall rev: Revision ensures Rejects(rev, t, item) {
      PrimAcceptsIff(rev, StringK, [], Num(1));
      PrimNeverForeign(rev, StringK, Num(1));
      ArrayFirstFailingIndex(rev, TPrim(StringK, []), item.items, 0, Check(rev, TPrim(StringK, []), Num(1)).err.message);
    }
    UnfoldSet(AsWritten, t, [item]);
    FirstFailureIs(SetOutcomes(AsWritten, TSet(t), [item]), 0);
    SetFirstFailingItem(Corrected, t, [item], 0, Check(Corrected, t, item).err.message);
  }

  /** A refinement that cannot throw on any value its primitive's base check admits: numeric
      bounds and date/time patterns on kinds that admit no symbol, length checks off null and
      undefined, substring checks on strings only. */
  predicate RefinementSafe(k: Kind, r: Refinement) {
    match r
    case Gt(_) => k != SymbolK && k != UnknownK
    case Gte(_) => k != SymbolK && k != UnknownK
    case Lt(_) => k != SymbolK && k != UnknownK
    case Lte(_) => k != SymbolK && k != UnknownK
    case Range(_, _) => k != SymbolK && k != UnknownK
    case Length(_) => k != NullK && k != UndefinedK && k != UnknownK
    case MinLength(_) => k != NullK && k != UndefinedK && k != UnknownK
    case MaxLength(_) => k != NullK && k != UndefinedK && k != UnknownK
    case LengthRange(_, _) => k != NullK && k != UndefinedK && k != UnknownK
    case StartsWith(_) => k == StringK
    case EndsWith(_) => k == StringK
    case Contains(_) => k == StringK
    case _ => k != SymbolK && k != UnknownK
  }

  /** A schema none of whose parts throws anything but a Typem error by design. */
  predicate Safe(s: Schema) {
    match s
    case TPrim(k, refinements) => forall i :: 0 <= i < |refinements| ==> RefinementSafe(k, refinements[i])
    case TUnion(ms) => forall i :: 0 <= i < |ms| ==> Safe(ms[i])
    case TObject(shape) => forall i :: 0 <= i < |shape| ==> Safe(shape[i].1)
    case TTuple(ts) => forall i :: 0 <= i < |ts| ==> Safe(ts[i])
    case TArray(t) => Safe(t)
    case TSet(t) => Safe(t)
    case TRecord(kt, vt) => Safe(kt) && Safe(vt)
    case TMap(kt, vt) => Safe(kt) && Safe(vt)
    case TInstanceOf(_) => true
    case TEnum(_) => true
    case TLiteral(lit) => !(lit.Arr? && ContainsSymbol(lit))
  }

  /** With the corrected rendering, a safe refinement of a value its base check admits
      passes or fails with a Typem error. */
  lemma SafeRefineNeverForeign(k: Kind, r: Refinement, v: Value)
    requires KindAdmits(k, v) && RefinementSafe(k, r)
    ensures !IsForeign(Refine(Corrected, r, v))
  {
    assert Admits(r, v).Success?;
    ComplainFails(Corrected, v, "Expected ", " " + Requirement(r));
  }

  lemma {:induction false} FirstFailureNeverForeign(rs: seq<Outcome>)
    requires forall i :: 0 <= i < |rs| ==> !IsForeign(rs[i])
    ensures !IsForeign(FirstFailure(rs))
    decreases |rs|
  {
    if rs != [] && rs[0].Pass? {
      assert forall i :: 0 <= i < |rs| - 1 ==> rs[1..][i] == rs[i + 1];
      FirstFailureNeverForeign(rs[1..]);
    }
  }

  lemma UnionOfNeverForeign(rs: seq<Outcome>)
    requires forall i :: 0 <= i < |rs| ==> !IsForeign(rs[i])
    ensures !IsForeign(UnionOf(rs))
  {
    UnionFromNeverForeign(rs, []);
  }

  lemma {:induction false} UnionFromNeverForeign(rs: seq<Outcome>, errors: seq<string>)
    requires forall i :: 0 <= i < |rs| ==> !IsForeign(rs[i])
    ensures !IsForeign(UnionFrom(rs, errors))
    decreases |rs|
  {
    if rs != [] && !Decides(rs[0]) {
      assert forall i :: 0 <= i < |rs| - 1 ==> rs[1..][i] == rs[i + 1];
      UnionFromNeverForeign(rs[1..], errors + [MessageOf(rs[0])]);
    }
  }

  // One combinator step each: if no child raises a foreign error, neither does the combinator.

  lemma PrimNeverForeignCorrected(k: Kind, refinements: seq<Refinement>, v: Value)
    requires forall i :: 0 <= i < |refinements| ==> RefinementSafe(k, refinements[i])
    ensures !IsForeign(Check(Corrected, TPrim(k, refinements), v))
  {
    if !KindAdmits(k, v) {
      ComplainFails(Corrected, v, "Expected " + KindName(k) + ", got ", "");
    } else {
      var rs := RefinementOutcomes(Corrected, refinements, v);
      forall i | 0 <= i < |rs| ensures !IsForeign(rs[i]) {
        SafeRefineNeverForeign(k, refinements[i], v);
      }
      FirstFailureNeverForeign(rs);
    }
  }

  lemma UnionStepNeverForeign(ms: seq<Schema>, v: Value)
    requires forall i :: 0 <= i < |ms| ==> !IsForeign(Check(Corrected, ms[i], v))
    ensures !IsForeign(Check(Corrected, TUnion(ms), v))
  {
    UnfoldUnion(Corrected, ms, v);
    UnionOfNeverForeign(MemberOutcomes(Corrected, TUnion(ms), v));
  }

  lemma ObjectStepNeverForeign(shape: seq<(string, Schema)>, v: Value)
    requires IsObjectLike(v) ==> forall i :: 0 <= i < |shape| ==> !IsForeign(Check(Corrected, shape[i].1, Get(v, shape[i].0)))
    ensures !IsForeign(Check(Corrected, TObject(shape), v))
  {
    if !IsObjectLike(v) {
      ComplainFails(Corrected, v, "Expected object, got ", "");
    } else {
      UnfoldObject(Corrected, shape, v);
      FirstFailureNeverForeign(FieldOutcomes(Corrected, TObject(shape), v));
    }
  }

  lemma TupleStepNeverForeign(ts: seq<Schema>, v: Value)
    requires v.Arr? && |v.items| == |ts| ==> forall i :: 0 <= i < |ts| ==> !IsForeign(Check(Corrected, ts[i], v.items[i]))
    ensures !IsForeign(Check(Corrected, TTuple(ts), v))
  {
    if !v.Arr? {
      ComplainFails(Corrected, v, "Expected a tuple array, got ", "");
    } else if |v.items| != |ts| {
      ComplainFails(Corrected, v, "Expected tuple of length " + NatToString(|ts|) + ", got ",
                    " with length " + NatToString(|v.items|));
    } else {
      UnfoldTuple(Corrected, ts, v.items);
      FirstFailureNeverForeign(PositionOutcomes(Corrected, TTuple(ts), v.items));
    }
  }

  lemma ArrayStepNeverForeign(t: Schema, v: Value)
    requires v.Arr? ==> forall i :: 0 <= i < |v.items| ==> !IsForeign(Check(Corrected, t, v.items[i]))
    ensures !IsForeign(Check(Corrected, TArray(t), v))
  {
    if !v.Arr? {
      ComplainFails(Corrected, v, "Expected array, got ", "");
    } else {
      UnfoldArray(Corrected, t, v.items);
      FirstFailureNeverForeign(ElementOutcomes(Corrected, TArray(t), v.items));
    }
  }

  lemma SetStepNeverForeign(t: Schema, v: Value)
    requires v.SetV? ==> forall i :: 0 <= i < |v.members| ==> !IsForeign(Check(Corrected, t, v.members[i]))
    ensures !IsForeign(Check(Corrected, TSet(t), v))
  {
    if !v.SetV? {
      ComplainFails(Corrected, v, "Expected Set, got ", "");
    } else {
      UnfoldSet(Corrected, t, v.members);
      FirstFailureNeverForeign(SetOutcomes(Corrected, TSet(t), v.members));
    }
  }

  lemma RecordStepNeverForeign(kt: Schema, vt: Schema, v: Value)
    requires IsObjectLike(v) ==> forall i :: 0 <= i < |OwnEntries(v)| ==>
               !IsForeign(Check(Corrected, kt, Str(OwnEntries(v)[i].0))) && !IsForeign(Check(Corrected, vt, OwnEntries(v)[i].1))
    ensures !IsForeign(Check(Corrected, TRecord(kt, vt), v))
  {
    if !IsObjectLike(v) {
      ComplainFails(Corrected, v, "Expected object, got ", "");
    } else {
      UnfoldRecord(Corrected, kt, vt, v);
      FirstFailureNeverForeign(RecordOutcomes(Corrected, TRecord(kt, vt), OwnEntries(v)));
    }
  }

  lemma MapStepNeverForeign(kt: Schema, vt: Schema, v: Value)
    requires v.MapV? ==> forall i :: 0 <= i < |v.pairs| ==>
               !IsForeign(Check(Corrected, kt, v.pairs[i].0)) && !IsForeign(Check(Corrected, vt, v.pairs[i].1))
    ensures !IsForeign(Check(Corrected, TMap(kt, vt), v))
  {
    if !v.MapV? {
      ComplainFails(Corrected, v, "Expected Map, got ", "");
    } else {
      UnfoldMap(Corrected, kt, vt, v.pairs);
      FirstFailureNeverForeign(MapOutcomes(Corrected, TMap(kt, vt), v.pairs));
    }
  }

  lemma LeafNeverForeign(s: Schema, v: Value)
    requires s.TInstanceOf? || s.TEnum? || (s.TLiteral? && !(s.literal.Arr? && ContainsSymbol(s.literal)))
    ensures !IsForeign(Check(Corrected, s, v))
  {
    match s
    case TInstanceOf(c) =>
      ComplainFails(Corrected, v, "Expected instance of " + c + ", got ", "");
    case TEnum(values) =>
      ComplainFails(Corrected, v, "Expected one of [" + EnumText(values) + "], got ", "");
    case TLiteral(lit) =>
      if !StrictEq(v, lit) {
        ComplainFails(Corrected, v, "Expected literal " + LiteralText(lit).value + ", got ", "");
      }
  }

  /** With the corrected rendering, a safe schema only ever fails with a Typem error. */
  lemma {:induction false} CorrectedSafeNeverForeign(s: Schema, v: Value)
    requires Safe(s)
    ensures !IsForeign(Check(Corrected, s, v))
    decreases s
  {
    match s
    case TPrim(k, refinements) =>
      PrimNeverForeignCorrected(k, refinements, v);
    case TUnion(ms) =>
      forall i | 0 <= i < |ms| ensures !IsForeign(Check(Corrected, ms[i], v)) {
        CorrectedSafeNeverForeign(ms[i], v);
      }
      UnionStepNeverForeign(ms, v);
    case TObject(shape) =>
      forall i | 0 <= i < |shape| ensures !IsForeign(Check(Corrected, shape[i].1, Get(v, shape[i].0))) {
        assert shape[i] in shape;
        CorrectedSafeNeverForeign(shape[i].1, Get(v, shape[i].0));
      }
      ObjectStepNeverForeign(shape, v);
    case TTuple(ts) =>
      if v.Arr? && |v.items| == |ts| {
        forall i | 0 <= i < |ts| ensures !IsForeign(Check(Corrected, ts[i], v.items[i])) {
          CorrectedSafeNeverForeign(ts[i], v.items[i]);
        }
      }
      TupleStepNeverForeign(ts, v);
    case TArray(t) =>
      if v.Arr? {
        forall i | 0 <= i < |v.items| ensures !IsForeign(Check(Corrected, t, v.items[i])) {
          CorrectedSafeNeverForeign(t, v.items[i]);
        }
      }
      ArrayStepNeverForeign(t, v);
    case TSet(t) =>
      if v.SetV? {
        forall i | 0 <= i < |v.members| ensures !IsForeign(Check(Corrected, t, v.members[i])) {
          CorrectedSafeNeverForeign(t, v.members[i]);
        }
      }
      SetStepNeverForeign(t, v);
    case TRecord(kt, vt) =>
      forall i | 0 <= i < |OwnEntries(v)|
        ensures !IsForeign(Check(Corrected, kt, Str(OwnEntries(v)[i].0))) && !IsForeign(Check(Corrected, vt, OwnEntries(v)[i].1))
      {
        CorrectedSafeNeverForeign(kt, Str(OwnEntries(v)[i].0));
        CorrectedSafeNeverForeign(vt, OwnEntries(v)[i].1);
      }
      RecordStepNeverForeign(kt, vt, v);
    case TMap(kt, vt) =>
      if v.MapV? {
        forall i | 0 <= i < |v.pairs|
          ensures !IsForeign(Check(Corrected, kt, v.pairs[i].0)) && !IsForeign(Check(Corrected, vt, v.pairs[i].1))
        {
          CorrectedSafeNeverForeign(kt, v.pairs[i].0);
          CorrectedSafeNeverForeign(vt, v.pairs[i].1);
        }
      }
      MapStepNeverForeign(kt, vt, v);
    case TInstanceOf(_) =>
      LeafNeverForeign(s, v);
    case TEnum(_) =>
      LeafNeverForeign(s, v);
    case TLiteral(_) =>
      LeafNeverForeign(s, v);
  }

  /** With the corrected rendering, a union of safe members accepts exactly what some member accepts. */
  lemma CorrectedUnionAcceptsIff(ms: seq<Schema>, v: Value)
    requires forall i :: 0 <= i < |ms| ==> Safe(ms[i])
    ensures Valid(Corrected, TUnion(ms), v) <==> exists i :: 0 <= i < |ms| && Valid(Corrected, ms[i], v)
  {
    forall i | 0 <= i < |ms| ensures !IsForeign(Check(Corrected, ms[i], v)) {
      CorrectedSafeNeverForeign(ms[i], v);
    }
    UnionWithoutForeign(Corrected, ms, v);
  }

  /** With the corrected rendering, `tOptional(t)` of a safe `t` accepts what `t` accepts plus
      null and undefined, for every value, symbols included. */
  lemma CorrectedOptionalAccepts(t: Schema, v: Value)
    requires Safe(t)
    ensures Valid(Corrected, Optional(t), v) <==> Valid(Corrected, t, v) || v == Null || v == Undef
  {
    CorrectedSafeNeverForeign(t, v);
    OptionalAccepts(Corrected, t, v);
  }

  // ---------------------------------------------------------------------------
  // Finding: params.forEach(param => param?.validate?.(value)) calls a shape's "validate" key

  /** As written, an object type whose shape declares a `validate` key accepts nothing: after
      every key has passed, the shape's `validate` entry (a type object) is called and throws. */
  lemma ValidateKeyAsWritten(shape: seq<(string, Schema)>, v: Value)
    requires HasKey(shape, "validate")
    ensures !Valid(AsWritten, TObject(shape), v)
    ensures IsObjectLike(v) && (forall i :: 0 <= i < |shape| ==> Valid(AsWritten, shape[i].1, Get(v, shape[i].0))) ==>
            Check(AsWritten, TObject(shape), v) == Fail(Foreign(ValidateNotAFunction))
  {
    if IsObjectLike(v) {
      UnfoldObject(AsWritten, shape, v);
      FirstFailurePasses(FieldOutcomes(AsWritten, TObject(shape), v));
    } else {
      ComplainFails(AsWritten, v, "Expected object, got ", "");
    }
  }

  /** The concrete case: `tObject({ validate: tString() })` on `{ validate: "yes" }` throws as written
      and passes once the params step is a no-op. */
  lemma ValidateKeyExample()
    ensures Check(AsWritten, TObject([("validate", TPrim(StringK, []))]), Obj([("validate", Str("yes"))]))
            == Fail(Foreign(ValidateNotAFunction))
    ensures Valid(Corrected, TObject([("validate", TPrim(StringK, []))]), Obj([("validate", Str("yes"))]))
  {
    var shape := [("validate", TPrim(StringK, []))];
    var v := Obj([("validate", Str("yes"))]);
    assert Get(v, "validate") == Str("yes");
    PrimAcceptsIff(AsWritten, StringK, [], Str("yes"));
    PrimAcceptsIff(Corrected, StringK, [], Str("yes"));
    assert shape[0].0 == "validate";
    ValidateKeyAsWritten(shape, v);
    ObjectAcceptsIff(Corrected, shape, v);
  }

  // ---------------------------------------------------------------------------
  // tIntersection: Object.assign semantics

  /** The validator a shape gives a key: that of its last entry with the key (later entries of an
      object literal override earlier ones). */
  function LastIn(shape: seq<(string, Schema)>, key: string): Option<Schema> {
    if shape == [] then None
    else match LastIn(shape[1..], key)
      case Some(t) => Some(t)
      case None => if shape[0].0 == key then Some(shape[0].1) else None
  }

  /** The validator the last of several shapes declaring a key gives it. */
  function LastFor(shapes: seq<seq<(string, Schema)>>, key: string): Option<Schema>
    decreases |shapes|
  {
    if shapes == [] then None
    else match LastIn(shapes[|shapes| - 1], key)
      case Some(t) => Some(t)
      case None => LastFor(shapes[..|shapes| - 1], key)
  }

  predicate DistinctKeys(shape: seq<(string, Schema)>) {
    forall i, j :: 0 <= i < j < |shape| ==> shape[i].0 != shape[j].0
  }

  /** In a shape with distinct keys, each entry is the one its key finds. */
  lemma {:induction false} LastInDistinct(shape: seq<(string, Schema)>, i: nat)
    requires DistinctKeys(shape) && i < |shape|
    ensures LastIn(shape, shape[i].0) == Some(shape[i].1)
    decreases |shape|
  {
    if i == 0 {
      LastInAbsent(shape[1..], shape[0].0);
    } else {
      LastInDistinct(shape[1..], i - 1);
    }
  }

  lemma {:induction false} LastInAbsent(shape: seq<(string, Schema)>, key: string)
    requires forall i :: 0 <= i < |shape| ==> shape[i].0 != key
    ensures LastIn(shape, key) == None
    decreases |shape|
  {
    if shape != [] {
      LastInAbsent(shape[1..], key);
    }
  }

  /** What a key finds is an entry of the shape. */
  lemma {:induction false} LastInFound(shape: seq<(string, Schema)>, key: string)
    requires LastIn(shape, key).Some?
    ensures exists i :: 0 <= i < |shape| && shape[i] == (key, LastIn(shape, key).value)
    decreases |shape|
  {
    if LastIn(shape[1..], key).Some? {
      LastInFound(shape[1..], key);
      var i :| 0 <= i < |shape[1..]| && shape[1..][i] == (key, LastIn(shape[1..], key).value);
      assert shape[i + 1] == shape[1..][i];
    } else {
      assert shape[0] == (key, LastIn(shape, key).value);
    }
  }

  /** `Put` keeps keys distinct, gives the key the new validator and leaves every other key alone. */
  lemma PutSpec(target: seq<(string, Schema)>, key: string, t: Schema)
    requires DistinctKeys(target)
    ensures DistinctKeys(Put(target, key, t))
    ensures LastIn(Put(target, key, t), key) == Some(t)
    ensures forall other :: other != key ==> LastIn(Put(target, key, t), other) == LastIn(target, other)
    ensures forall i :: 0 <= i < |Put(target, key, t)| ==>
              Put(target, key, t)[i].0 == key || exists j :: 0 <= j < |target| && target[j].0 == Put(target, key, t)[i].0
  {
    PutKeys(target, key, t);
    PutDistinct(target, key, t);
    PutFinds(target, key, t);
    forall other | other != key ensures LastIn(Put(target, key, t), other) == LastIn(target, other) {
      PutKeepsOther(target, key, t, other);
    }
  }

  /** Every key `Put` leaves is the assigned key or one the target already had. */
  lemma {:induction false} PutKeys(target: seq<(string, Schema)>, key: string, t: Schema)
    ensures forall i :: 0 <= i < |Put(target, key, t)| ==>
              Put(target, key, t)[i].0 == key || exists j :: 0 <= j < |target| && target[j].0 == Put(target, key, t)[i].0
    decreases |target|
  {
    var r := Put(target, key, t);
    if target != [] && target[0].0 == key {
      forall i | 0 <= i < |r| ensures r[i].0 == key || exists j :: 0 <= j < |target| && target[j].0 == r[i].0 {
        if i > 0 { assert r[i] == target[i]; }
      }
    } else if target != [] {
      var tail := Put(target[1..], key, t);
      PutKeys(target[1..], key, t);
      assert r == [target[0]] + tail;
      forall i | 0 <= i < |r| ensures r[i].0 == key || exists j :: 0 <= j < |target| && target[j].0 == r[i].0 {
        if i == 0 {
          assert target[0].0 == r[0].0;
        } else {
          assert r[i] == tail[i - 1];
          if tail[i - 1].0 != key {
            var j :| 0 <= j < |target[1..]| && target[1..][j].0 == tail[i - 1].0;
            assert target[j + 1].0 == r[i].0;
          }
        }
      }
    }
  }

  /** `Put` keeps the keys of a shape distinct. */
  lemma {:induction false} PutDistinct(target: seq<(string, Schema)>, key: string, t: Schema)
    requires DistinctKeys(target)
    ensures DistinctKeys(Put(target, key, t))
    decreases |target|
  {
    var r := Put(target, key, t);
    if target != [] && target[0].0 == key {
      assert r[1..] == target[1..];
    } else if target != [] {
      var tail := Put(target[1..], key, t);
      PutDistinct(target[1..], key, t);
      PutKeys(target[1..], key, t);
      assert r == [target[0]] + tail;
      forall i, j | 0 <= i < j < |r| ensures r[i].0 != r[j].0 {
        if i == 0 {
          assert r[j] == tail[j - 1];
          if tail[j - 1].0 != key {
            var m :| 0 <= m < |target[1..]| && target[1..][m].0 == tail[j - 1].0;
            assert target[m + 1].0 == r[j].0;
          }
        } else {
          assert r[i] == tail[i - 1] && r[j] == tail[j - 1];
        }
      }
    }
  }

  /** After `Put`, the key finds the new validator. */
  lemma {:induction false} PutFinds(target: seq<(string, Schema)>, key: string, t: Schema)
    requires DistinctKeys(target)
    ensures LastIn(Put(target, key, t), key) == Some(t)
    decreases |target|
  {
    var r := Put(target, key, t);
    if target != [] && target[0].0 == key {
      assert r[1..] == target[1..];
      LastInAbsent(target[1..], key);
    } else if target != [] {
      PutFinds(target[1..], key, t);
      assert r[1..] == Put(target[1..], key, t);
    }
  }

  /** `Put` leaves what every other key finds unchanged. */
  lemma {:induction false} PutKeepsOther(target: seq<(string, Schema)>, key: string, t: Schema, other: string)
    requires other != key
    ensures LastIn(Put(target, key, t), other) == LastIn(target, other)
    decreases |target|
  {
    var r := Put(target, key, t);
    if target != [] && target[0].0 == key {
      assert r[1..] == target[1..];
    } else if target != [] {
      PutKeepsOther(target[1..], key, t, other);
      assert r[1..] == Put(target[1..], key, t);
    } else {
      assert LastIn(r[1..], other) == None;
    }
  }


  /** `Object.assign(target, source)`: a key the source declares takes the source's validator,
      every other key keeps the target's, and keys stay distinct. */
  lemma {:induction false} AssignSpec(target: seq<(string, Schema)>, source: seq<(string, Schema)>)
    requires DistinctKeys(target)
    ensures DistinctKeys(Assign(target, source))
    ensures forall key :: LastIn(Assign(target, source), key) ==
              if LastIn(source, key).Some? then LastIn(source, key) else LastIn(target, key)
    decreases |source|
  {
    if source != [] {
      var next := Put(target, source[0].0, source[0].1);
      PutSpec(target, source[0].0, source[0].1);
      AssignSpec(next, source[1..]);
    }
  }

  /** `Object.assign({}, ...shapes)`: every key finds the validator of the last shape declaring it. */
  lemma {:induction false} MergeShapesSpec(shapes: seq<seq<(string, Schema)>>)
    ensures DistinctKeys(MergeShapes(shapes))
    ensures forall key :: LastIn(MergeShapes(shapes), key) == LastFor(shapes, key)
    decreases |shapes|
  {
    if shapes != [] {
      MergeShapesSpec(shapes[..|shapes| - 1]);
      AssignSpec(MergeShapes(shapes[..|shapes| - 1]), shapes[|shapes| - 1]);
    }
  }

  /** An intersection accepts exactly the objects in which each key declared by any of the shapes
      satisfies the validator of the last shape declaring it. */
  lemma IntersectionAcceptsIff(rev: Revision, shapes: seq<seq<(string, Schema)>>, v: Value)
    requires rev == Corrected || !HasKey(MergeShapes(shapes), "validate")
    ensures Valid(rev, Intersection(shapes), v) <==>
            IsObjectLike(v) && forall key :: LastFor(shapes, key).Some? ==> Valid(rev, LastFor(shapes, key).value, Get(v, key))
  {
    var merged := MergeShapes(shapes);
    MergeShapesSpec(shapes);
    ObjectAcceptsIff(rev, merged, v);
    if IsObjectLike(v) {
      if forall i :: 0 <= i < |merged| ==> Valid(rev, merged[i].1, Get(v, merged[i].0)) {
        forall key | LastFor(shapes, key).Some? ensures Valid(rev, LastFor(shapes, key).value, Get(v, key)) {
          LastInFound(merged, key);
        }
      }
      if forall key :: LastFor(shapes, key).Some? ==> Valid(rev, LastFor(shapes, key).value, Get(v, key)) {
        forall i | 0 <= i < |merged| ensures Valid(rev, merged[i].1, Get(v, merged[i].0)) {
          LastInDistinct(merged, i);
        }
      }
    }
  }

  // ---------------------------------------------------------------------------
  // is(creator)

  /** An optional type answers `is` for tUnion, for the wrapped type's creator, for tNull and for
      tUndefined, and for nothing else. */
  lemma OptionalIs(t: Schema, c: Creator)
    ensures Is(Optional(t), c) <==>
            c == UnionCreator || c == CreatorOf(t) || c == PrimCreator(NullK) || c == PrimCreator(UndefinedK)
  {
    var ms := Optional(t).members;
    assert ms == [t, TPrim(NullK, []), TPrim(UndefinedK, [])];
    assert CreatorOf(ms[0]) == CreatorOf(t);
    assert CreatorOf(ms[1]) == PrimCreator(NullK);
    assert CreatorOf(ms[2]) == PrimCreator(UndefinedK);
  }

  /** An intersection is an object type and nothing else. */
  lemma IntersectionIs(shapes: seq<seq<(string, Schema)>>, c: Creator)
    ensures Is(Intersection(shapes), c) <==> c == ObjectCreator
  {
  }
}
