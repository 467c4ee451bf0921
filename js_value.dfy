/** The JavaScript values a validator can be handed, and the few operations of the
    language that the validators rely on: `typeof`, `instanceof`, property reads,
    `Object.entries`, strict equality, `.length` and string conversion. */
module JsValue {
  import opened Results
  import opened Seqs
  import opened Decimal

  /** Numbers are modelled as integers; symbols and functions carry an identity.
      `Obj` lists an object's own enumerable properties in enumeration order; a JavaScript
      object never has two with the same key (`DistinctEntries`).
      `Inst` is an instance of some other class (a Date, a Uint8Array, a user class),
      described by the constructor names along its prototype chain and by its own
      enumerable properties (a typed array's indices, a user class's fields). */
  datatype Value =
    | Str(s: string)
    | Num(n: int)
    | Big(n: int)
    | Bool(b: bool)
    | Null
    | Undef
    | Sym(id: nat, description: string)
    | Func(id: nat)
    | Arr(items: seq<Value>)
    | Obj(entries: seq<(string, Value)>)
    | SetV(members: seq<Value>)
    | MapV(pairs: seq<(Value, Value)>)
    | Inst(chain: seq<string>, entries: seq<(string, Value)>)

  /** `typeof value` */
  function TypeOf(v: Value): string {
    match v
    case Str(_) => "string"
    case Num(_) => "number"
    case Big(_) => "bigint"
    case Bool(_) => "boolean"
    case Undef => "undefined"
    case Sym(_, _) => "symbol"
    case Func(_) => "function"
    case _ => "object"
  }

  /** `typeof value === "object" && value !== null` */
  predicate IsObjectLike(v: Value) {
    TypeOf(v) == "object" && !v.Null?
  }

  /** Constructor names on the prototype chain: `value instanceof C` holds iff C is among them. */
  function Chain(v: Value): seq<string> {
    match v
    case Func(_) => ["Function", "Object"]
    case Arr(_) => ["Array", "Object"]
    case Obj(_) => ["Object"]
    case SetV(_) => ["Set", "Object"]
    case MapV(_) => ["Map", "Object"]
    case Inst(chain, _) => chain
    case _ => []
  }

  /** `a === b`. Primitives, symbols and functions compare by value or identity;
      two object values are never the same reference in this model. */
  predicate StrictEq(a: Value, b: Value) {
    match a
    case Arr(_) => false
    case Obj(_) => false
    case SetV(_) => false
    case MapV(_) => false
    case Inst(_, _) => false
    case _ => a == b
  }

  /** The array index a property key denotes, if it is a canonical decimal string. */
  function ArrayIndex(key: string): Option<nat> {
    if Canonical(key) then Some(DigitsValue(key)) else None
  }

  /** First own entry with the given key. */
  function Lookup(entries: seq<(string, Value)>, key: string): Value {
    if entries == [] then Undef
    else if entries[0].0 == key then entries[0].1
    else Lookup(entries[1..], key)
  }

  /** `value[key]` for an object-like value: own properties of plain objects and class
      instances, indices and `length` of arrays; anything else reads as `undefined`. */
  function Get(v: Value, key: string): Value {
    match v
    case Obj(entries) => Lookup(entries, key)
    case Inst(_, entries) => Lookup(entries, key)
    case Arr(items) =>
      if key == "length" then Num(|items|)
      else (match ArrayIndex(key)
            case Some(i) => if i < |items| then items[i] else Undef
            case None => Undef)
    case _ => Undef
  }

  /** `Object.entries(value)` */
  function OwnEntries(v: Value): seq<(string, Value)> {
    match v
    case Obj(entries) => entries
    case Inst(_, entries) => entries
    case Arr(items) => seq(|items|, i requires 0 <= i < |items| => (NatToString(i), items[i]))
    case _ => []
  }

  /** Every own entry of an array reads back through a property access. */
  lemma ArrayEntriesReadBack(items: seq<Value>, i: nat)
    requires i < |items|
    ensures OwnEntries(Arr(items))[i].0 == NatToString(i)
    ensures Get(Arr(items), NatToString(i)) == items[i]
  {
    var key := NatToString(i);
    assert key != "length" by {
      assert IsDigit(key[0]) && !IsDigit("length"[0]);
    }
    NatToStringRoundTrip(i);
    assert ArrayIndex(key) == Some(i);
  }

  /** No two own properties share a key, as in every JavaScript object. */
  predicate DistinctEntries(entries: seq<(string, Value)>) {
    forall i, j :: 0 <= i < j < |entries| ==> entries[i].0 != entries[j].0
  }

  /** With distinct keys, looking a key up finds the one entry that carries it. */
  lemma {:induction false} LookupFindsEntry(entries: seq<(string, Value)>, i: nat)
    requires DistinctEntries(entries)
    requires i < |entries|
    ensures Lookup(entries, entries[i].0) == entries[i].1
  {
    if i > 0 {
      assert entries[0].0 != entries[i].0;
      assert entries[1..][i - 1] == entries[i];
      LookupFindsEntry(entries[1..], i - 1);
    }
  }

  /** Every own entry of an object or class instance reads back through a property
      access, so `Object.entries` and `value[key]` see the same object. */
  lemma EntriesReadBack(v: Value, i: nat)
    requires v.Obj? || v.Inst?
    requires DistinctEntries(OwnEntries(v))
    requires i < |OwnEntries(v)|
    ensures Get(v, OwnEntries(v)[i].0) == OwnEntries(v)[i].1
  {
    LookupFindsEntry(v.entries, i);
  }

  /** Does the string conversion of `v` meet a symbol? `String(v)` and template
      literals throw a TypeError for a symbol, also one inside an array being joined. */
  predicate ContainsSymbol(v: Value) {
    match v
    case Sym(_, _) => true
    case Arr(items) => exists i :: 0 <= i < |items| && ContainsSymbol(items[i])
    case _ => false
  }

  /** The text JavaScript's string conversion gives, with symbols rendered as
      `Symbol(description)`; host-specific renderings (dates, function source) are abstracted. */
  function Show(v: Value): string {
    match v
    case Str(s) => s
    case Num(n) => IntToString(n)
    case Big(n) => IntToString(n)
    case Bool(b) => if b then "true" else "false"
    case Null => "null"
    case Undef => "undefined"
    case Sym(_, d) => "Symbol(" + d + ")"
    case Func(_) => "function"
    case Arr(items) =>
      Join(",", seq(|items|, i requires 0 <= i < |items| =>
        if items[i].Null? || items[i].Undef? then "" else Show(items[i])))
    case Obj(_) => "[object Object]"
    case SetV(_) => "[object Set]"
    case MapV(_) => "[object Map]"
    case Inst(_, _) => "[object Object]"
  }

  /** `.length` of a string. A JavaScript string is a sequence of UTF-16 code units, so a
      character outside the Basic Multilingual Plane (above U+FFFF) counts as two. */
  function Utf16Length(s: string): (n: nat)
    ensures |s| <= n <= 2 * |s|
  {
    if s == [] then 0 else (if s[0] as int > 0xFFFF then 2 else 1) + Utf16Length(s[1..])
  }

  /** Within the Basic Multilingual Plane a string's `.length` is its number of characters. */
  lemma {:induction false} Utf16LengthInBmp(s: string)
    requires forall i :: 0 <= i < |s| ==> s[i] as int <= 0xFFFF
    ensures Utf16Length(s) == |s|
  {
    if s != [] {
      assert forall i :: 0 <= i < |s[1..]| ==> s[1..][i] == s[i + 1];
      Utf16LengthInBmp(s[1..]);
    }
  }

  /** `.length` adds up over concatenation. */
  lemma {:induction false} Utf16LengthAppend(s: string, t: string)
    ensures Utf16Length(s + t) == Utf16Length(s) + Utf16Length(t)
  {
    if s == [] {
      assert s + t == t;
    } else {
      assert (s + t)[1..] == s[1..] + t;
      Utf16LengthAppend(s[1..], t);
    }
  }

  /** Result of reading `.length`: the length of a string (in UTF-16 code units) or array, `None` for
      values whose `length` is `undefined`. (Reading it on null or undefined throws;
      callers decide that case before asking.) */
  function LengthOf(v: Value): Option<int> {
    match v
    case Str(s) => Some(Utf16Length(s))
    case Arr(items) => Some(|items|)
    case _ => None
  }

  /** The numeric value seen by `<`, `<=`, `>`, `>=` for numbers and bigints; any other
      value compares like NaN (every comparison is false). */
  function NumericOf(v: Value): Option<int> {
    match v
    case Num(n) => Some(n)
    case Big(n) => Some(n)
    case _ => None
  }
}
