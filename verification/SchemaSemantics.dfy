/** What acceptance means: on well-formed schemas the walk accepts exactly the instances of
    which every member of the schema holds, in the sense of the keyword it is under. */
module SchemaSemantics {
  import opened Common
  import opened KeyedSort
  import opened Json
  import opened Dicts
  import opened SchemaWalk
  import opened SchemaShapes

  /* ---------- Python's equality ---------- */

  /** The value with True as 1 and False as 0. */
  function AsNumbers(v: Json): Json {
    match v
    case Bool(b) => Int(if b then 1 else 0)
    case Arr(items) => Arr(ItemsAsNumbers(items))
    case Obj(members) => Obj(ValuesAsNumbers(members))
    case _ => v
  }

  function ItemsAsNumbers(items: seq<Json>): (r: seq<Json>)
    ensures |r| == |items| && forall i :: 0 <= i < |items| ==> r[i] == AsNumbers(items[i])
  {
    if items == [] then [] else [AsNumbers(items[0])] + ItemsAsNumbers(items[1..])
  }

  function ValuesAsNumbers(members: seq<Member>): (r: seq<Member>)
    ensures |r| == |members|
    ensures forall i :: 0 <= i < |members| ==> r[i] == Keyed(members[i].key, AsNumbers(members[i].value))
  {
    if members == [] then []
    else [Keyed(members[0].key, AsNumbers(members[0].value))] + ValuesAsNumbers(members[1..])
  }

  /** Equality of JSON values, with booleans as numbers. */
  ghost predicate Same(v: Json, w: Json) { JsonEq(AsNumbers(v), AsNumbers(w)) }

  lemma {:induction false} PyEqIffSame(v: Json, w: Json)
    requires IsDict(w)
    ensures PyEq(v, w) <==> Same(v, w)
    decreases v
  {
    match (v, w)
    case (Arr(xs), Arr(ys)) =>
      forall i | 0 <= i < |xs| && i < |ys| ensures PyEq(xs[i], ys[i]) <==> Same(xs[i], ys[i]) {
        PyEqIffSame(xs[i], ys[i]);
      }
    case (Obj(a), Obj(b)) => DictsEqIffSame(a, b);
    case (_, _) =>
  }

  /** The member has an equal one of the same key. */
  ghost predicate HasSame(b: seq<Member>, m: Member) {
    exists j :: 0 <= j < |b| && b[j].key == m.key && Same(m.value, b[j].value)
  }

  lemma {:induction false} DictsEqIffSame(a: seq<Member>, b: seq<Member>)
    requires IsDict(Obj(b))
    ensures PyEq(Obj(a), Obj(b)) <==> Same(Obj(a), Obj(b))
    decreases a
  {
    forall i | 0 <= i < |a|
      ensures (Has(b, a[i].key) && PyEq(a[i].value, Value(b, a[i].key))) <==> HasSame(b, a[i])
    {
      if Has(b, a[i].key) {
        PyEqIffSame(a[i].value, Value(b, a[i].key));
        assert b[IndexOf(b, a[i].key)].key == a[i].key;
      }
    }
    var p, q := ValuesAsNumbers(a), ValuesAsNumbers(b);
    forall i | 0 <= i < |a|
      ensures HasSame(b, a[i]) <==>
                exists j :: 0 <= j < |q| && q[j].key == p[i].key && JsonEq(p[i].value, q[j].value)
    {
      if HasSame(b, a[i]) {
        var j :| 0 <= j < |b| && b[j].key == a[i].key && Same(a[i].value, b[j].value);
        assert q[j].key == p[i].key && JsonEq(p[i].value, q[j].value);
      }
    }
    assert JsonEq(Obj(p), Obj(q)) <==> |a| == |b| && forall i :: 0 <= i < |a| ==> HasSame(b, a[i]);
  }

  /* ---------- what each keyword says ---------- */

  const CHECKED := {
    "type", "enum", "const", "minLength", "pattern", "format", "minItems",
    "required", "properties", "additionalProperties", "items", "anyOf"
  }

  const IGNORED := {
    "title", "description", "$schema", "$id", "$comment", "default", "examples",
    "deprecated", "readOnly", "writeOnly"
  }

  /** The type names of a value: an integer is also a number. */
  predicate HasType(x: Json, name: string) {
    match x
    case Null => name == "null"
    case Bool(_) => name == "boolean"
    case Int(_) => name == "integer" || name == "number"
    case Str(_) => name == "string"
    case Arr(_) => name == "array"
    case Obj(_) => name == "object"
  }

  predicate NamedIn(members: seq<Member>, key: string) { exists i :: 0 <= i < |members| && members[i].key == key }

  /** The name is declared under "properties". */
  predicate IsProperty(schema: seq<Member>, key: string) {
    exists i :: 0 <= i < |schema| && schema[i].key == "properties" && schema[i].value.Obj?
                && NamedIn(schema[i].value.members, key)
  }

  /** Every member of the schema holds of the instance. */
  ghost predicate Satisfies(t: Tests, x: Json, s: Json)
    decreases s, 0
  {
    s.Obj? && forall i :: 0 <= i < |s.members| ==> Holds(t, x, s.members, s.members[i].key, s.members[i].value)
  }

  ghost predicate Holds(t: Tests, x: Json, schema: seq<Member>, key: string, v: Json)
    decreases v, 1
  {
    match key
    case "type" =>
      || (v.Str? && HasType(x, v.s))
      || (v.Arr? && exists i :: 0 <= i < |v.items| && v.items[i].Str? && HasType(x, v.items[i].s))
    case "enum" => v.Arr? && exists i :: 0 <= i < |v.items| && Same(x, v.items[i])
    case "const" => Same(x, v)
    case "minLength" => x.Str? ==> AsNumbers(v).Int? && AsNumbers(v).n <= |x.s|
    case "minItems" => x.Arr? ==> AsNumbers(v).Int? && AsNumbers(v).n <= |x.items|
    case "pattern" => x.Str? ==> v.Str? && t.search(v.s, x.s)
    case "format" =>
      x.Str? ==> (v == Str("uri") ==> t.hasUriScheme(x.s)) && (v == Str("date-time") ==> t.isDateTime(x.s))
    case "required" =>
      x.Obj? ==> v.Arr? && forall i :: 0 <= i < |v.items| ==> v.items[i].Str? && NamedIn(x.members, v.items[i].s)
    case "properties" =>
      x.Obj? ==> v.Obj? && forall i, j :: 0 <= i < |v.members| && 0 <= j < |x.members|
                                          && x.members[j].key == v.members[i].key ==>
                   Satisfies(t, x.members[j].value, v.members[i].value)
    case "additionalProperties" =>
      x.Obj? ==> forall j :: 0 <= j < |x.members| && !IsProperty(schema, x.members[j].key) ==>
                   v != Bool(false) && (v.Obj? ==> Satisfies(t, x.members[j].value, v))
    case "items" => x.Arr? ==> forall j :: 0 <= j < |x.items| ==> Satisfies(t, x.items[j], v)
    case "anyOf" => v.Arr? && exists i :: 0 <= i < |v.items| && Satisfies(t, x, v.items[i])
    case _ => true
  }

  /* ---------- unknown keywords ---------- */

  /** A schema with any other keyword is refused, whatever the instance. */
  lemma {:induction false} OtherKeywordsRefused(t: Tests, x: Json, schema: seq<Member>)
    ensures AllSupported(schema) <==> forall i :: 0 <= i < |schema| ==> schema[i].key in CHECKED + IGNORED
    ensures !AllSupported(schema) ==> Walk(t, x, Obj(schema)) == Unsupported
  {
    assert SUPPORTED_KEYWORDS == CHECKED + IGNORED;
  }

  /* ---------- members and look-ups ---------- */

  /** In a dict a member is what is looked up under its key. */
  lemma {:induction false} LookupIsMember(members: seq<Member>, key: string)
    requires DistinctKeys(members)
    ensures Has(members, key) <==> NamedIn(members, key)
    ensures forall i :: 0 <= i < |members| && members[i].key == key ==>
              Has(members, key) && members[i].value == Value(members, key)
  {
  }

  /** The keyword's value, if it is there, holds. */
  ghost predicate HoldsUnder(t: Tests, x: Json, schema: seq<Member>, key: string) {
    Has(schema, key) ==> Holds(t, x, schema, key, Value(schema, key))
  }

  lemma {:induction false} SatisfiesByKeyword(t: Tests, x: Json, schema: seq<Member>)
    requires DistinctKeys(schema)
    ensures Satisfies(t, x, Obj(schema)) <==> forall key :: key in CHECKED ==> HoldsUnder(t, x, schema, key)
  {
    forall key ensures Has(schema, key) <==> NamedIn(schema, key) { LookupIsMember(schema, key); }
    if forall key :: key in CHECKED ==> HoldsUnder(t, x, schema, key) {
      forall i | 0 <= i < |schema| ensures Holds(t, x, schema, schema[i].key, schema[i].value) {
        LookupIsMember(schema, schema[i].key);
        if schema[i].key in CHECKED { assert HoldsUnder(t, x, schema, schema[i].key); }
      }
    }
    if Satisfies(t, x, Obj(schema)) {
      forall key | key in CHECKED ensures HoldsUnder(t, x, schema, key) {
        if Has(schema, key) { assert schema[IndexOf(schema, key)].key == key; }
      }
    }
  }

  /* ---------- keyword by keyword ---------- */

  lemma {:induction false} TypeHolds(x: Json, name: Json)
    requires TypeName(name)
    ensures MatchesType(x, name).Accepts? <==> HasType(x, name.s)
    ensures Decides(MatchesType(x, name))
  {
  }

  lemma {:induction false} SomeTypeHolds(x: Json, names: seq<Json>)
    requires forall i :: 0 <= i < |names| ==> TypeName(names[i])
    ensures MatchesAny(x, names).Accepts? <==>
              exists i :: 0 <= i < |names| && names[i].Str? && HasType(x, names[i].s)
  {
    if names != [] {
      TypeHolds(x, names[0]);
      SomeTypeHolds(x, names[1..]);
      assert forall i :: 0 <= i < |names[1..]| ==> names[1..][i] == names[i + 1];
      if exists i :: 0 <= i < |names| && HasType(x, names[i].s) {
        var i :| 0 <= i < |names| && HasType(x, names[i].s);
        if i > 0 { assert names[1..][i - 1] == names[i]; }
      }
    }
  }

  lemma {:induction false} TypeKeyword(t: Tests, x: Json, s: Json)
    requires WellFormed(s) && Has(s.members, "type")
    ensures CheckType(x, Value(s.members, "type")).Accepts? <==> HoldsUnder(t, x, s.members, "type")
  {
    KeywordOf(s, "type");
    var v := Value(s.members, "type");
    if v.Arr? { SomeTypeHolds(x, v.items); } else { TypeHolds(x, v); }
  }

  lemma {:induction false} EqualityKeywords(t: Tests, x: Json, s: Json)
    requires WellFormed(s) && IsDict(s)
    ensures Has(s.members, "enum") ==>
              (CheckEnum(x, Value(s.members, "enum")).Accepts? <==> HoldsUnder(t, x, s.members, "enum"))
    ensures Has(s.members, "const") ==>
              (PyEq(x, Value(s.members, "const")) <==> HoldsUnder(t, x, s.members, "const"))
  {
    if Has(s.members, "enum") {
      KeywordOf(s, "enum");
      var v := Value(s.members, "enum");
      assert IsDict(v);
      forall i | 0 <= i < |v.items| ensures PyEq(x, v.items[i]) <==> Same(x, v.items[i]) {
        PyEqIffSame(x, v.items[i]);
      }
    }
    if Has(s.members, "const") {
      assert IsDict(Value(s.members, "const"));
      PyEqIffSame(x, Value(s.members, "const"));
    }
  }

  lemma {:induction false} ValueKeywords(t: Tests, x: Json, s: Json)
    requires WellFormed(s) && IsDict(s)
    ensures CheckValue(x, s.members).Accepts? <==>
              && HoldsUnder(t, x, s.members, "type")
              && HoldsUnder(t, x, s.members, "enum")
              && HoldsUnder(t, x, s.members, "const")
  {
    if Has(s.members, "type") { TypeKeyword(t, x, s); }
    EqualityKeywords(t, x, s);
  }

  lemma {:induction false} LengthKeyword(t: Tests, x: Json, s: Json, key: string, length: nat)
    requires WellFormed(s) && Has(s.members, key)
    requires (key == "minLength" && x.Str? && length == |x.s|) || (key == "minItems" && x.Arr? && length == |x.items|)
    ensures CheckAtLeast(length, Value(s.members, key)).Accepts? <==> HoldsUnder(t, x, s.members, key)
  {
    KeywordOf(s, key);
  }

  lemma {:induction false} TextKeywords(t: Tests, x: Json, s: Json)
    requires WellFormed(s) && x.Str?
    ensures Has(s.members, "pattern") ==>
              (CheckPattern(t, x.s, Value(s.members, "pattern")).Accepts? <==> HoldsUnder(t, x, s.members, "pattern"))
    ensures Has(s.members, "format") ==>
              (CheckFormat(t, x.s, Value(s.members, "format")).Accepts? <==> HoldsUnder(t, x, s.members, "format"))
  {
    if Has(s.members, "pattern") { KeywordOf(s, "pattern"); }
    if Has(s.members, "format") { KeywordOf(s, "format"); }
  }

  lemma {:induction false} StringKeywords(t: Tests, x: Json, s: Json)
    requires WellFormed(s) && x.Str?
    ensures CheckString(t, x.s, s.members).Accepts? <==>
              && HoldsUnder(t, x, s.members, "minLength")
              && HoldsUnder(t, x, s.members, "pattern")
              && HoldsUnder(t, x, s.members, "format")
  {
    if Has(s.members, "minLength") { LengthKeyword(t, x, s, "minLength", |x.s|); }
    TextKeywords(t, x, s);
  }

  lemma {:induction false} RequiredHolds(x: seq<Member>, names: seq<Json>)
    requires DistinctKeys(x) && forall i :: 0 <= i < |names| ==> names[i].Str?
    ensures CheckRequiredNames(x, names).Accepts? <==> forall i :: 0 <= i < |names| ==> NamedIn(x, names[i].s)
  {
    if names != [] {
      LookupIsMember(x, names[0].s);
      RequiredHolds(x, names[1..]);
      assert forall i :: 0 <= i < |names[1..]| ==> names[1..][i] == names[i + 1];
      if CheckRequiredNames(x, names).Accepts? {
        forall i | 0 <= i < |names| ensures NamedIn(x, names[i].s) {
          if i > 0 { assert names[1..][i - 1] == names[i]; }
        }
      }
    }
  }

  lemma {:induction false} RequiredKeyword(t: Tests, x: Json, s: Json)
    requires WellFormed(s) && Has(s.members, "required") && x.Obj? && IsDict(x)
    ensures CheckRequired(x.members, Value(s.members, "required")).Accepts? <==>
              HoldsUnder(t, x, s.members, "required")
  {
    KeywordOf(s, "required");
    RequiredHolds(x.members, Value(s.members, "required").items);
  }

  /* ---------- keywords with subschemas ---------- */

  /** The walk accepts exactly what satisfies the schema. */
  lemma {:induction false} AcceptsIffSatisfies(t: Tests, x: Json, s: Json)
    requires WellFormed(s) && IsDict(s) && IsDict(x)
    ensures Walk(t, x, s).Accepts? <==> Satisfies(t, x, s)
    decreases s, 6
  {
    ValueKeywords(t, x, s);
    AnyOfKeyword(t, x, s);
    KindKeywords(t, x, s);
    WalkInParts(t, x, s);
    AllHoldIff(t, x, s.members);
  }

  lemma {:induction false} WalkInParts(t: Tests, x: Json, s: Json)
    requires WellFormed(s)
    ensures Walk(t, x, s).Accepts? <==>
              && CheckValue(x, s.members).Accepts?
              && (Has(s.members, "anyOf") ==> WalkAnyOf(t, x, Value(s.members, "anyOf")).Accepts?)
              && WalkKind(t, x, s.members).Accepts?
  {
    ChecksDecide(x, s);
  }

  lemma {:induction false} AllHoldIff(t: Tests, x: Json, schema: seq<Member>)
    requires DistinctKeys(schema)
    ensures Satisfies(t, x, Obj(schema)) <==> AllHold(t, x, schema)
  {
    SatisfiesByKeyword(t, x, schema);
  }

  /** The keywords one by one. */
  ghost predicate AllHold(t: Tests, x: Json, schema: seq<Member>) {
    && HoldsUnder(t, x, schema, "type") && HoldsUnder(t, x, schema, "enum") && HoldsUnder(t, x, schema, "const")
    && HoldsUnder(t, x, schema, "anyOf")
    && KindHolds(t, x, schema)
  }

  ghost predicate KindHolds(t: Tests, x: Json, schema: seq<Member>) {
    && HoldsUnder(t, x, schema, "minLength") && HoldsUnder(t, x, schema, "pattern")
    && HoldsUnder(t, x, schema, "format")
    && HoldsUnder(t, x, schema, "required") && HoldsUnder(t, x, schema, "properties")
    && HoldsUnder(t, x, schema, "additionalProperties")
    && HoldsUnder(t, x, schema, "minItems") && HoldsUnder(t, x, schema, "items")
  }

  lemma {:induction false} AnyOfKeyword(t: Tests, x: Json, s: Json)
    requires WellFormed(s) && IsDict(s) && IsDict(x)
    ensures Has(s.members, "anyOf") ==>
              (WalkAnyOf(t, x, Value(s.members, "anyOf")).Accepts? <==> HoldsUnder(t, x, s.members, "anyOf"))
    decreases s, 5
  {
    if Has(s.members, "anyOf") {
      KeywordOf(s, "anyOf");
      assert IsDict(Value(s.members, "anyOf"));
      SomeBranchAccepts(t, x, Value(s.members, "anyOf").items);
    }
  }

  lemma {:induction false} SomeBranchAccepts(t: Tests, x: Json, branches: seq<Json>)
    requires IsDict(x) && forall i :: 0 <= i < |branches| ==> WellFormed(branches[i]) && IsDict(branches[i])
    ensures WalkBranches(t, x, branches).Accepts? <==>
              exists i :: 0 <= i < |branches| && Satisfies(t, x, branches[i])
    decreases branches, 0
  {
    if branches != [] {
      var rest := branches[1..];
      AcceptsIffSatisfies(t, x, branches[0]);
      WalkDecides(t, x, branches[0]);
      SomeBranchAccepts(t, x, rest);
      assert forall i :: 0 <= i < |rest| ==> rest[i] == branches[i + 1];
      if exists i :: 0 <= i < |branches| && Satisfies(t, x, branches[i]) {
        var i :| 0 <= i < |branches| && Satisfies(t, x, branches[i]);
        if i > 0 { assert rest[i - 1] == branches[i]; }
      }
    }
  }

  lemma {:induction false} KindKeywords(t: Tests, x: Json, s: Json)
    requires WellFormed(s) && IsDict(s) && IsDict(x)
    ensures WalkKind(t, x, s.members).Accepts? <==> KindHolds(t, x, s.members)
    decreases s, 5
  {
    OtherKindsHold(t, x, s.members);
    match x
    case Str(_) => StringKeywords(t, x, s);
    case Obj(_) => ObjectKeywords(t, x, s);
    case Arr(_) => ArrayKeywords(t, x, s);
    case _ =>
  }

  /** The keywords of one kind of value hold of every other kind. */
  lemma {:induction false} OtherKindsHold(t: Tests, x: Json, schema: seq<Member>)
    ensures !x.Str? ==> HoldsUnder(t, x, schema, "minLength") && HoldsUnder(t, x, schema, "pattern")
                        && HoldsUnder(t, x, schema, "format")
    ensures !x.Obj? ==> HoldsUnder(t, x, schema, "required") && HoldsUnder(t, x, schema, "properties")
                        && HoldsUnder(t, x, schema, "additionalProperties")
    ensures !x.Arr? ==> HoldsUnder(t, x, schema, "minItems") && HoldsUnder(t, x, schema, "items")
  {
  }

  lemma {:induction false} ArrayKeywords(t: Tests, x: Json, s: Json)
    requires WellFormed(s) && IsDict(s) && x.Arr? && IsDict(x)
    ensures WalkArray(t, x.items, s.members).Accepts? <==>
              HoldsUnder(t, x, s.members, "minItems") && HoldsUnder(t, x, s.members, "items")
    decreases s, 4
  {
    if Has(s.members, "minItems") { LengthKeyword(t, x, s, "minItems", |x.items|); }
    if Has(s.members, "items") {
      KeywordOf(s, "items");
      assert IsDict(Value(s.members, "items"));
      AllItemsAccept(t, x.items, Value(s.members, "items"));
    }
  }

  lemma {:induction false} AllItemsAccept(t: Tests, items: seq<Json>, sub: Json)
    requires WellFormed(sub) && IsDict(sub) && forall j :: 0 <= j < |items| ==> IsDict(items[j])
    ensures WalkItems(t, items, sub).Accepts? <==> forall j :: 0 <= j < |items| ==> Satisfies(t, items[j], sub)
    decreases sub, 7, |items|
  {
    if items != [] {
      var rest := items[1..];
      AcceptsIffSatisfies(t, items[0], sub);
      AllItemsAccept(t, rest, sub);
      assert forall j :: 0 <= j < |rest| ==> rest[j] == items[j + 1];
      if WalkItems(t, items, sub).Accepts? {
        forall j | 0 <= j < |items| ensures Satisfies(t, items[j], sub) {
          if j > 0 { assert rest[j - 1] == items[j]; }
        }
      }
    }
  }

  lemma {:induction false} ObjectKeywords(t: Tests, x: Json, s: Json)
    requires WellFormed(s) && IsDict(s) && x.Obj? && IsDict(x)
    ensures WalkObject(t, x.members, s.members).Accepts? <==>
              && HoldsUnder(t, x, s.members, "required")
              && HoldsUnder(t, x, s.members, "properties")
              && HoldsUnder(t, x, s.members, "additionalProperties")
    decreases s, 4
  {
    if Has(s.members, "required") { RequiredKeyword(t, x, s); }
    PropertiesKeyword(t, x, s);
    AdditionalKeyword(t, x, s);
  }

  lemma {:induction false} PropertiesKeyword(t: Tests, x: Json, s: Json)
    requires WellFormed(s) && IsDict(s) && x.Obj? && IsDict(x)
    ensures Has(s.members, "properties") ==>
              (WalkProperties(t, x.members, Value(s.members, "properties")).Accepts? <==>
                 HoldsUnder(t, x, s.members, "properties"))
    decreases s, 3
  {
    if Has(s.members, "properties") {
      KeywordOf(s, "properties");
      assert IsDict(Value(s.members, "properties"));
      AllNamedSatisfy(t, x.members, Value(s.members, "properties").members);
    }
  }

  /** The values that the subschema of a name governs satisfy it. */
  ghost predicate GovernedSatisfy(t: Tests, x: seq<Member>, sub: Member) {
    forall j :: 0 <= j < |x| && x[j].key == sub.key ==> Satisfies(t, x[j].value, sub.value)
  }

  lemma {:induction false} AllNamedSatisfy(t: Tests, x: seq<Member>, subs: seq<Member>)
    requires DistinctKeys(x) && forall j :: 0 <= j < |x| ==> IsDict(x[j].value)
    requires forall i :: 0 <= i < |subs| ==> WellFormed(subs[i].value) && IsDict(subs[i].value)
    ensures WalkNamed(t, x, subs).Accepts? <==> forall i :: 0 <= i < |subs| ==> GovernedSatisfy(t, x, subs[i])
    decreases subs, 0
  {
    if subs != [] {
      var rest := subs[1..];
      LookupIsMember(x, subs[0].key);
      if Has(x, subs[0].key) { AcceptsIffSatisfies(t, Value(x, subs[0].key), subs[0].value); }
      AllNamedSatisfy(t, x, rest);
      assert forall i :: 0 <= i < |rest| ==> rest[i] == subs[i + 1];
      if WalkNamed(t, x, subs).Accepts? {
        forall i | 0 <= i < |subs| ensures GovernedSatisfy(t, x, subs[i]) {
          if i > 0 { assert rest[i - 1] == subs[i]; }
        }
      }
    }
  }

  lemma {:induction false} AdditionalKeyword(t: Tests, x: Json, s: Json)
    requires WellFormed(s) && IsDict(s) && x.Obj? && IsDict(x)
    ensures Has(s.members, "additionalProperties") ==>
              (WalkAdditional(t, x.members, Declared(s.members), Value(s.members, "additionalProperties")).Accepts? <==>
                 HoldsUnder(t, x, s.members, "additionalProperties"))
    decreases s, 3
  {
    if Has(s.members, "additionalProperties") {
      var v := Value(s.members, "additionalProperties");
      KeywordOf(s, "additionalProperties");
      assert IsDict(v);
      AllOthersSatisfy(t, x.members, Declared(s.members), v);
      forall key ensures key in Declared(s.members) <==> IsProperty(s.members, key) {
        DeclaredIsProperty(s.members, key);
      }
    }
  }

  lemma {:induction false} DeclaredIsProperty(schema: seq<Member>, key: string)
    requires DistinctKeys(schema)
    ensures key in Declared(schema) <==> IsProperty(schema, key)
  {
    LookupIsMember(schema, "properties");
    if key in Declared(schema) {
      var subs := Value(schema, "properties").members;
      var m :| m in subs && m.key == key;
      var i :| 0 <= i < |subs| && subs[i] == m;
      assert schema[IndexOf(schema, "properties")].key == "properties";
    }
  }

  /** A member outside the declared names passes "additionalProperties". */
  ghost predicate OtherSatisfies(t: Tests, m: Member, declared: set<string>, sub: Json) {
    m.key !in declared ==> sub != Bool(false) && (sub.Obj? ==> Satisfies(t, m.value, sub))
  }

  lemma {:induction false} AllOthersSatisfy(t: Tests, x: seq<Member>, declared: set<string>, sub: Json)
    requires (sub.Obj? ==> WellFormed(sub)) && IsDict(sub) && forall j :: 0 <= j < |x| ==> IsDict(x[j].value)
    ensures WalkAdditional(t, x, declared, sub).Accepts? <==>
              forall j :: 0 <= j < |x| ==> OtherSatisfies(t, x[j], declared, sub)
    decreases sub, 7, |x|
  {
    if x != [] {
      var rest := x[1..];
      if sub.Obj? { AcceptsIffSatisfies(t, x[0].value, sub); }
      AllOthersSatisfy(t, rest, declared, sub);
      assert forall j :: 0 <= j < |rest| ==> rest[j] == x[j + 1];
      if WalkAdditional(t, x, declared, sub).Accepts? {
        forall j | 0 <= j < |x| ensures OtherSatisfies(t, x[j], declared, sub) {
          if j > 0 { assert rest[j - 1] == x[j]; }
        }
      }
    }
  }
}
