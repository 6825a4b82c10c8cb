/** The dependency-free JSON-Schema subset validator: a recursive walk over instance
    and schema that stops at the first error. */
module SchemaWalk {
  import opened Common
  import opened Json
  import opened Dicts

  /** The tests left to libraries: regular expressions, URIs and date-times. */
  datatype Tests = Tests(search: (string, string) -> bool, hasUriScheme: string -> bool, isDateTime: string -> bool)

  /** How a walk ends: normally, with ValidationError, with NotImplementedError, or with
      another Python error because a keyword has a value of the wrong shape. */
  datatype Outcome = Accepts | Rejects | Unsupported | Malformed

  const SUPPORTED_KEYWORDS := {
    "type", "required", "properties", "additionalProperties", "enum", "const", "pattern",
    "minLength", "minItems", "items", "anyOf", "format",
    "title", "description", "$schema", "$id", "$comment", "default", "examples",
    "deprecated", "readOnly", "writeOnly"
  }

  const TYPE_NAMES := {"string", "integer", "number", "boolean", "object", "array", "null"}

  /** The first error decides. */
  function Then(first: Outcome, second: Outcome): Outcome {
    if first.Accepts? then second else first
  }

  function Check(ok: bool): Outcome { if ok then Accepts else Rejects }

  /* ---------- equality ---------- */

  /** Python's ==, in which True equals 1 and False equals 0. */
  predicate PyEq(v: Json, w: Json) {
    match (v, w)
    case (Bool(b), Int(n)) => n == if b then 1 else 0
    case (Int(n), Bool(b)) => n == if b then 1 else 0
    case (Arr(xs), Arr(ys)) => |xs| == |ys| && forall i | 0 <= i < |xs| :: PyEq(xs[i], ys[i])
    case (Obj(a), Obj(b)) =>
      |a| == |b| && forall i | 0 <= i < |a| :: Has(b, a[i].key) && PyEq(a[i].value, Value(b, a[i].key))
    case (_, _) => v == w
  }

  /* ---------- keyword by keyword ---------- */

  function MatchesType(x: Json, name: Json): Outcome {
    if !name.Str? then Unsupported
    else match name.s
      case "string" => Check(x.Str?)
      case "integer" => Check(x.Int?)
      case "number" => Check(x.Int?)
      case "boolean" => Check(x.Bool?)
      case "object" => Check(x.Obj?)
      case "array" => Check(x.Arr?)
      case "null" => Check(x.Null?)
      case _ => Unsupported
  }

  /** any(...) over a list of type names: stops at the first match or error. */
  function MatchesAny(x: Json, names: seq<Json>): Outcome {
    if names == [] then Rejects
    else
      var o := MatchesType(x, names[0]);
      if o.Rejects? then MatchesAny(x, names[1..]) else o
  }

  function CheckType(x: Json, spec: Json): Outcome {
    if spec.Arr? then MatchesAny(x, spec.items) else MatchesType(x, spec)
  }

  predicate IsSubstring(a: string, b: string) { a <= b || (b != "" && IsSubstring(a, b[1..])) }

  /** "not in" over a list, over the text of a string, or over the keys of a dict. */
  function CheckEnum(x: Json, values: Json): Outcome {
    match values
    case Arr(items) => Check(exists i | 0 <= i < |items| :: PyEq(x, items[i]))
    case Str(text) => if x.Str? then Check(IsSubstring(x.s, text)) else Malformed
    case Obj(members) => if x.Arr? || x.Obj? then Malformed else Check(x.Str? && Has(members, x.s))
    case _ => Malformed
  }

  function CheckFormat(t: Tests, s: string, format: Json): Outcome {
    match format
    case Str("uri") => Check(t.hasUriScheme(s))
    case Str("date-time") => Check(t.isDateTime(s))
    case Arr(_) => Malformed
    case Obj(_) => Malformed
    case _ => Accepts
  }

  function CheckAtLeast(length: nat, minimum: Json): Outcome {
    match minimum
    case Int(n) => Check(n <= length)
    case Bool(b) => Check((if b then 1 else 0) <= length)
    case _ => Malformed
  }

  function CheckPattern(t: Tests, s: string, pattern: Json): Outcome {
    if !pattern.Str? then Malformed else Check(t.search(pattern.s, s))
  }

  function CheckString(t: Tests, s: string, schema: seq<Member>): Outcome {
    Then(if Has(schema, "minLength") then CheckAtLeast(|s|, Value(schema, "minLength")) else Accepts,
    Then(if Has(schema, "pattern") then CheckPattern(t, s, Value(schema, "pattern")) else Accepts,
         if Has(schema, "format") then CheckFormat(t, s, Value(schema, "format")) else Accepts))
  }

  function CheckRequiredNames(x: seq<Member>, names: seq<Json>): Outcome {
    if names == [] then Accepts
    else if names[0].Arr? || names[0].Obj? then Malformed
    else Then(Check(names[0].Str? && Has(x, names[0].s)), CheckRequiredNames(x, names[1..]))
  }

  /** The items of a list, the characters of a string, or the keys of a dict. */
  function Iterated(v: Json): Option<seq<Json>> {
    match v
    case Arr(items) => Some(items)
    case Str(text) => Some(seq(|text|, i requires 0 <= i < |text| => Str([text[i]])))
    case Obj(members) => Some(seq(|members|, i requires 0 <= i < |members| => Str(members[i].key)))
    case _ => None
  }

  function CheckRequired(x: seq<Member>, names: Json): Outcome {
    match Iterated(names)
    case None => Malformed
    case Some(keys) => CheckRequiredNames(x, keys)
  }

  /** The keyword scan over the items of a list that stands where a schema should. */
  function ScanKeys(items: seq<Json>): Outcome {
    if items == [] then Accepts
    else match items[0]
      case Str(key) => if key in SUPPORTED_KEYWORDS then ScanKeys(items[1..]) else Unsupported
      case Arr(_) => Malformed
      case Obj(_) => Malformed
      case _ => Unsupported
  }

  predicate Names(items: seq<Json>, keywords: set<string>) {
    exists i | 0 <= i < |items| :: items[i].Str? && items[i].s in keywords
  }

  const ALWAYS_READ := {"type", "enum", "const", "anyOf"}
  const STRING_KEYWORDS := {"minLength", "pattern", "format"}
  const OBJECT_KEYWORDS := {"required", "properties", "additionalProperties"}

  /** A list of supported keywords accepts until one that applies to the instance is read;
      "items" is read once per item. */
  function WalkList(x: Json, items: seq<Json>): Outcome {
    Then(ScanKeys(items),
         if Names(items, ALWAYS_READ) || (x.Str? && Names(items, STRING_KEYWORDS))
            || (x.Obj? && Names(items, OBJECT_KEYWORDS)) || (x.Arr? && Names(items, {"minItems"}))
            || (x.Arr? && x.items != [] && Names(items, {"items"}))
         then Malformed else Accepts)
  }

  predicate AllSupported(schema: seq<Member>) {
    forall i | 0 <= i < |schema| :: schema[i].key in SUPPORTED_KEYWORDS
  }

  /** The checks that every instance meets first. */
  function CheckValue(x: Json, schema: seq<Member>): Outcome {
    Then(if Has(schema, "type") then CheckType(x, Value(schema, "type")) else Accepts,
    Then(if Has(schema, "enum") then CheckEnum(x, Value(schema, "enum")) else Accepts,
         if Has(schema, "const") then Check(PyEq(x, Value(schema, "const"))) else Accepts))
  }

  /* ---------- the walk ---------- */

  /** A string has its characters for keywords, so only the empty one accepts. */
  function Walk(t: Tests, x: Json, s: Json): Outcome
    decreases s, 0
  {
    if s.Arr? then WalkList(x, s.items)
    else if s.Str? then (if s.s == "" then Accepts else Unsupported)
    else if !s.Obj? then Malformed
    else if !AllSupported(s.members) then Unsupported
    else
      var schema := s.members;
      Then(CheckValue(x, schema),
      Then(if Has(schema, "anyOf") then WalkAnyOf(t, x, Value(schema, "anyOf")) else Accepts,
           WalkKind(t, x, schema)))
  }

  /** The checks for the kind of the instance. */
  function WalkKind(t: Tests, x: Json, schema: seq<Member>): Outcome
    decreases schema, 4
  {
    match x
    case Str(s) => CheckString(t, s, schema)
    case Obj(members) => WalkObject(t, members, schema)
    case Arr(items) => WalkArray(t, items, schema)
    case _ => Accepts
  }

  function WalkObject(t: Tests, x: seq<Member>, schema: seq<Member>): Outcome
    decreases schema, 3
  {
    Then(if Has(schema, "required") then CheckRequired(x, Value(schema, "required")) else Accepts,
    Then(if Has(schema, "properties") then WalkProperties(t, x, Value(schema, "properties")) else Accepts,
         if Has(schema, "additionalProperties")
         then WalkAdditional(t, x, Declared(schema), Value(schema, "additionalProperties")) else Accepts))
  }

  function WalkArray(t: Tests, items: seq<Json>, schema: seq<Member>): Outcome
    decreases schema, 3
  {
    Then(if Has(schema, "minItems") then CheckAtLeast(|items|, Value(schema, "minItems")) else Accepts,
         if Has(schema, "items") then WalkItems(t, items, Value(schema, "items")) else Accepts)
  }

  function WalkAnyOf(t: Tests, x: Json, branches: Json): Outcome
    decreases branches, 2
  {
    if !branches.Arr? then Rejects else WalkBranches(t, x, branches.items)
  }

  /** The first branch that accepts; ValidationError moves on, any other error ends the walk. */
  function WalkBranches(t: Tests, x: Json, branches: seq<Json>): Outcome
    decreases branches, 1
  {
    if branches == [] then Rejects
    else
      var o := Walk(t, x, branches[0]);
      if o.Rejects? then WalkBranches(t, x, branches[1..]) else o
  }

  function WalkProperties(t: Tests, x: seq<Member>, properties: Json): Outcome
    decreases properties, 2
  {
    if !properties.Obj? then Malformed else WalkNamed(t, x, properties.members)
  }

  function WalkNamed(t: Tests, x: seq<Member>, subs: seq<Member>): Outcome
    decreases subs, 1
  {
    if subs == [] then Accepts
    else Then(if Has(x, subs[0].key) then Walk(t, Value(x, subs[0].key), subs[0].value) else Accepts,
              WalkNamed(t, x, subs[1..]))
  }

  /** The names that "properties" declares. */
  function Declared(schema: seq<Member>): (names: set<string>) {
    if Has(schema, "properties") && Value(schema, "properties").Obj?
    then set m | m in Value(schema, "properties").members :: m.key
    else {}
  }

  function WalkAdditional(t: Tests, x: seq<Member>, declared: set<string>, sub: Json): Outcome
    decreases sub, 1, |x|
  {
    if x == [] then Accepts
    else Then(if x[0].key in declared then Accepts
              else if sub == Bool(false) then Rejects
              else if sub.Obj? then Walk(t, x[0].value, sub)
              else Accepts,
              WalkAdditional(t, x[1..], declared, sub))
  }

  function WalkItems(t: Tests, items: seq<Json>, sub: Json): Outcome
    decreases sub, 1, |items|
  {
    if items == [] then Accepts
    else Then(Walk(t, items[0], sub), WalkItems(t, items[1..], sub))
  }

  /* ---------- the loops of the source ---------- */

  method WalkSteps(t: Tests, x: Json, s: Json) returns (o: Outcome)
    ensures o == Walk(t, x, s)
    decreases s, 0
  {
    if s.Arr? { return WalkList(x, s.items); }
    if s.Str? { return if s.s == "" then Accepts else Unsupported; }
    if !s.Obj? { return Malformed; }
    var schema := s.members;
    for i := 0 to |schema|
      invariant forall k :: 0 <= k < i ==> schema[k].key in SUPPORTED_KEYWORDS
    {
      if schema[i].key !in SUPPORTED_KEYWORDS { return Unsupported; }
    }
    if Has(schema, "type") {
      o := CheckType(x, Value(schema, "type"));
      if !o.Accepts? { return; }
    }
    if Has(schema, "enum") {
      o := CheckEnum(x, Value(schema, "enum"));
      if !o.Accepts? { return; }
    }
    if Has(schema, "const") && !PyEq(x, Value(schema, "const")) { return Rejects; }
    if Has(schema, "anyOf") {
      o := WalkAnyOfSteps(t, x, Value(schema, "anyOf"));
      if !o.Accepts? { return; }
    }
    assert Walk(t, x, s) == WalkKind(t, x, schema);
    if x.Str? {
      o := CheckString(t, x.s, schema);
      if !o.Accepts? { return; }
    }
    if x.Obj? {
      o := WalkObjectSteps(t, x.members, schema);
      if !o.Accepts? { return; }
    }
    if x.Arr? {
      assert WalkKind(t, x, schema) == WalkArray(t, x.items, schema);
      if Has(schema, "minItems") {
        o := CheckAtLeast(|x.items|, Value(schema, "minItems"));
        if !o.Accepts? { return; }
      }
      if Has(schema, "items") {
        o := WalkItemsSteps(t, x.items, Value(schema, "items"));
        return;
      }
    }
    return Accepts;
  }

  /** At least one branch must validate. */
  method WalkAnyOfSteps(t: Tests, x: Json, anyOf: Json) returns (o: Outcome)
    ensures o == WalkAnyOf(t, x, anyOf)
    decreases anyOf, 1
  {
    if !anyOf.Arr? || anyOf.items == [] { return Rejects; }
    var branches := anyOf.items;
    var matched := false;
    for idx := 0 to |branches|
      invariant !matched
      invariant WalkBranches(t, x, branches) == WalkBranches(t, x, branches[idx..])
    {
      assert branches[idx..][1..] == branches[idx + 1..];
      o := WalkSteps(t, x, branches[idx]);
      if o.Accepts? {
        matched := true;
        break;
      }
      if !o.Rejects? { return; }
    }
    return if matched then Accepts else Rejects;
  }

  method WalkItemsSteps(t: Tests, items: seq<Json>, sub: Json) returns (o: Outcome)
    ensures o == WalkItems(t, items, sub)
    decreases sub, 1
  {
    for idx := 0 to |items|
      invariant WalkItems(t, items, sub) == WalkItems(t, items[idx..], sub)
    {
      assert items[idx..][1..] == items[idx + 1..];
      o := WalkSteps(t, items[idx], sub);
      if !o.Accepts? { return; }
    }
    return Accepts;
  }

  method WalkObjectSteps(t: Tests, x: seq<Member>, schema: seq<Member>) returns (o: Outcome)
    ensures o == WalkObject(t, x, schema)
    decreases schema, 1
  {
    if Has(schema, "required") {
      o := CheckRequired(x, Value(schema, "required"));
      if !o.Accepts? { return; }
    }
    if Has(schema, "properties") {
      if !Value(schema, "properties").Obj? { return Malformed; }
      var subs := Value(schema, "properties").members;
      for k := 0 to |subs|
        invariant WalkNamed(t, x, subs) == WalkNamed(t, x, subs[k..])
      {
        assert subs[k..][1..] == subs[k + 1..];
        if Has(x, subs[k].key) {
          o := WalkSteps(t, Value(x, subs[k].key), subs[k].value);
          if !o.Accepts? { return; }
        }
      }
    }
    if Has(schema, "additionalProperties") {
      o := WalkAdditionalSteps(t, x, Declared(schema), Value(schema, "additionalProperties"));
      return;
    }
    return Accepts;
  }

  method WalkAdditionalSteps(t: Tests, x: seq<Member>, declared: set<string>, ap: Json) returns (o: Outcome)
    ensures o == WalkAdditional(t, x, declared, ap)
    decreases ap, 1
  {
    for k := 0 to |x|
      invariant WalkAdditional(t, x, declared, ap) == WalkAdditional(t, x[k..], declared, ap)
    {
      assert x[k..][1..] == x[k + 1..];
      if x[k].key in declared { continue; }
      if ap == Bool(false) { return Rejects; }
      if ap.Obj? {
        o := WalkSteps(t, x[k].value, ap);
        if !o.Accepts? { return; }
      }
    }
    return Accepts;
  }
}
