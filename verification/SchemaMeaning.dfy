/** What stripping annotations does to the meaning of a schema: for which documents every
    instance ends the walk the same way, and for which it does not. */
module SchemaMeaning {
  import opened KeyedSort
  import opened Json
  import opened Dicts
  import opened SchemaStrip
  import opened SchemaWalk
  import opened SchemaShapes

  /* ---------- the schema positions of a document ---------- */

  /** Some object at a schema position of the document has the property. */
  ghost predicate Somewhere(p: seq<Member> -> bool, s: Json)
    decreases s, 0
  {
    s.Obj? && (p(s.members) || exists i :: 0 <= i < |s.members| && Below(p, s.members[i].key, s.members[i].value))
  }

  /** In a subschema under the keyword. */
  ghost predicate Below(p: seq<Member> -> bool, key: string, v: Json)
    decreases v, 1
  {
    match key
    case "items" => Somewhere(p, v)
    case "additionalProperties" => Somewhere(p, v)
    case "anyOf" => v.Arr? && exists i :: 0 <= i < |v.items| && Somewhere(p, v.items[i])
    case "properties" => v.Obj? && exists i :: 0 <= i < |v.members| && Somewhere(p, v.members[i].value)
    case _ => false
  }

  /** A member that the walk does not support and stripping removes: a licence header. */
  predicate Licensed(members: seq<Member>) {
    exists i | 0 <= i < |members| :: Dropped(members[i]) && members[i].key !in SUPPORTED_KEYWORDS
  }

  /** A "required" that is a dict with an annotation among its members. */
  predicate RequiresAnnotation(members: seq<Member>) {
    && Has(members, "required")
    && var v := Value(members, "required");
       v.Obj? && exists i | 0 <= i < |v.members| :: Dropped(v.members[i])
  }

  lemma {:induction false} BelowKeyword(p: seq<Member> -> bool, s: Json, key: string)
    requires s.Obj? && Has(s.members, key)
    ensures Below(p, key, Value(s.members, key)) ==> Somewhere(p, s)
  {
  }

  /** A licence header can only be an SPDX member with a string value. */
  lemma {:induction false} LicensedIffSpdx(members: seq<Member>)
    ensures Licensed(members) <==>
              exists i :: 0 <= i < |members| && SPDX_PREFIX <= members[i].key && members[i].value.Str?
  {
    forall key | SPDX_PREFIX <= key ensures key !in SUPPORTED_KEYWORDS && key !in INSTANCE_DATA_KEYWORDS {
      assert key[0] == 'x';
    }
  }

  /* ---------- stripping, looked up by keyword ---------- */

  /** A sufficient test that a keyword is no annotation: neither "description" nor "x-spdx-". */
  predicate PlainKeyword(key: string) { key != "" && key[0] != 'd' && key[0] != 'x' }

  lemma {:induction false} StripLookup(members: seq<Member>, key: string)
    requires PlainKeyword(key)
    ensures Has(StripMembers(members), key) == Has(members, key)
    ensures Has(members, key) ==> Value(StripMembers(members), key) == StripValue(key, Value(members, key))
  {
    if members != [] {
      StripLookup(members[1..], key);
      if !Dropped(members[0]) {
        var kept := Keyed(members[0].key, StripValue(members[0].key, members[0].value));
        assert ([kept] + StripMembers(members[1..]))[1..] == StripMembers(members[1..]);
      }
    }
  }

  lemma {:induction false} StripSupported(members: seq<Member>)
    ensures AllSupported(members) ==> AllSupported(StripMembers(members))
    ensures !AllSupported(members) && AllSupported(StripMembers(members)) ==> Licensed(members)
  {
    if members != [] {
      var rest := members[1..];
      StripSupported(rest);
      assert forall i :: 0 <= i < |rest| ==> rest[i] == members[i + 1];
      if !Dropped(members[0]) {
        var kept := Keyed(members[0].key, StripValue(members[0].key, members[0].value));
        var stripped := [kept] + StripMembers(rest);
        assert stripped[0] == kept;
        assert forall i :: 0 <= i < |StripMembers(rest)| ==> stripped[i + 1] == StripMembers(rest)[i];
      }
    }
  }

  lemma {:induction false} StripKeepsKind(v: Json)
    ensures !v.Arr? && !v.Obj? ==> Strip(v) == v
    ensures Strip(v).Arr? == v.Arr? && Strip(v).Obj? == v.Obj? && Strip(v).Str? == v.Str?
  {
  }

  lemma {:induction false} StripKeepsNames(members: seq<Member>)
    requires forall i :: 0 <= i < |members| ==> !Dropped(members[i])
    ensures |StripMembers(members)| == |members|
    ensures forall i :: 0 <= i < |members| ==> StripMembers(members)[i].key == members[i].key
  {
    if members != [] { StripKeepsNames(members[1..]); }
  }

  /* ---------- the checks that have no subschema ---------- */

  lemma {:induction false} StripKeepsType(x: Json, v: Json)
    ensures CheckType(x, Strip(v)) == CheckType(x, v)
  {
    if v.Arr? { StripKeepsTypes(x, v.items); }
  }

  lemma {:induction false} StripKeepsTypes(x: Json, names: seq<Json>)
    ensures MatchesAny(x, StripItems(names)) == MatchesAny(x, names)
  {
    if names != [] {
      StripKeepsTypes(x, names[1..]);
      assert StripItems(names)[1..] == StripItems(names[1..]);
      StripKeepsKind(names[0]);
    }
  }

  lemma {:induction false} StripKeepsChecks(x: Json, ms: seq<Member>)
    ensures CheckValue(x, StripMembers(ms)) == CheckValue(x, ms)
  {
    StripLookup(ms, "type");
    StripLookup(ms, "enum");
    StripLookup(ms, "const");
    if Has(ms, "type") { StripKeepsType(x, Value(ms, "type")); }
  }

  lemma {:induction false} StripKeepsString(t: Tests, s: string, ms: seq<Member>)
    ensures CheckString(t, s, StripMembers(ms)) == CheckString(t, s, ms)
  {
    StripLookup(ms, "minLength");
    StripLookup(ms, "pattern");
    StripLookup(ms, "format");
    if Has(ms, "minLength") { StripKeepsKind(Value(ms, "minLength")); }
    if Has(ms, "pattern") { StripKeepsKind(Value(ms, "pattern")); }
    if Has(ms, "format") { StripKeepsKind(Value(ms, "format")); }
  }

  lemma {:induction false} StripKeepsRequiredNames(x: seq<Member>, names: seq<Json>)
    ensures CheckRequiredNames(x, StripItems(names)) == CheckRequiredNames(x, names)
  {
    if names != [] {
      StripKeepsRequiredNames(x, names[1..]);
      assert StripItems(names)[1..] == StripItems(names[1..]);
      StripKeepsKind(names[0]);
    }
  }

  lemma {:induction false} StripKeepsRequired(x: seq<Member>, ms: seq<Member>)
    requires !RequiresAnnotation(ms)
    ensures var ns := StripMembers(ms);
            && Has(ns, "required") == Has(ms, "required")
            && (Has(ms, "required") ==>
                  CheckRequired(x, Value(ns, "required")) == CheckRequired(x, Value(ms, "required")))
  {
    StripLookup(ms, "required");
    if Has(ms, "required") {
      var v := Value(ms, "required");
      StripKeepsKind(v);
      match v
      case Arr(names) => StripKeepsRequiredNames(x, names);
      case Obj(members) =>
        StripKeepsNames(members);
        assert Iterated(Obj(StripMembers(members))).value == Iterated(v).value;
      case _ =>
    }
  }

  /* ---------- lists in the place of schemas ---------- */

  lemma {:induction false} StripKeepsScan(items: seq<Json>)
    ensures ScanKeys(StripItems(items)) == ScanKeys(items)
  {
    if items != [] {
      StripKeepsScan(items[1..]);
      assert StripItems(items)[1..] == StripItems(items[1..]);
      StripKeepsKind(items[0]);
    }
  }

  lemma {:induction false} StripKeepsList(x: Json, items: seq<Json>)
    ensures WalkList(x, StripItems(items)) == WalkList(x, items)
  {
    StripKeepsScan(items);
    forall i | 0 <= i < |items|
      ensures StripItems(items)[i].Str? == items[i].Str? && (items[i].Str? ==> StripItems(items)[i] == items[i])
    {
      StripKeepsKind(items[i]);
    }
    forall keywords ensures Names(StripItems(items), keywords) == Names(items, keywords) {}
  }

  /* ---------- the walk ---------- */

  /** The outcome is kept, or it was that of an unsupported keyword. */
  predicate Kept(before: Outcome, after: Outcome, licensed: bool) {
    after == before || (before.Unsupported? && licensed)
  }

  /** No dict under "required" at a schema position has an annotation among its members. */
  ghost predicate Regular(s: Json) { !Somewhere(RequiresAnnotation, s) }

  /** A licence header stands at a schema position. */
  ghost predicate HasLicence(s: Json) { Somewhere(Licensed, s) }

  lemma {:induction false} StripKeepsRegular(t: Tests, x: Json, s: Json)
    requires Regular(s)
    ensures Kept(Walk(t, x, s), Walk(t, x, Strip(s)), HasLicence(s))
    decreases s, 4
  {
    if s.Arr? {
      StripKeepsList(x, s.items);
    } else if s.Obj? {
      var ms := s.members;
      StripSupported(ms);
      if AllSupported(ms) {
        StripKeepsChecks(x, ms);
        StripKeepsAnyOf(t, x, s);
        if x.Str? { StripKeepsString(t, x.s, ms); }
        if x.Obj? { StripKeepsObject(t, x.members, s); }
        if x.Arr? { StripKeepsArray(t, x.items, s); }
      }
    }
  }

  lemma {:induction false} StripKeepsAnyOf(t: Tests, x: Json, s: Json)
    requires s.Obj? && Regular(s)
    ensures var ms, ns := s.members, StripMembers(s.members);
            && (Has(ns, "anyOf") == Has(ms, "anyOf"))
            && (Has(ms, "anyOf") ==>
                  Kept(WalkAnyOf(t, x, Value(ms, "anyOf")), WalkAnyOf(t, x, Value(ns, "anyOf")), HasLicence(s)))
    decreases s, 3
  {
    StripLookup(s.members, "anyOf");
    if Has(s.members, "anyOf") {
      var v := Value(s.members, "anyOf");
      StripKeepsKind(v);
      BelowKeyword(RequiresAnnotation, s, "anyOf");
      BelowKeyword(Licensed, s, "anyOf");
      if v.Arr? { StripKeepsBranches(t, x, v.items); }
    }
  }

  ghost predicate AnyLicence(items: seq<Json>) { exists i :: 0 <= i < |items| && HasLicence(items[i]) }

  lemma {:induction false} StripKeepsBranches(t: Tests, x: Json, branches: seq<Json>)
    requires forall i :: 0 <= i < |branches| ==> Regular(branches[i])
    ensures Kept(WalkBranches(t, x, branches), WalkBranches(t, x, StripItems(branches)), AnyLicence(branches))
    decreases branches, 0
  {
    if branches != [] {
      var rest := branches[1..];
      StripKeepsRegular(t, x, branches[0]);
      StripKeepsBranches(t, x, rest);
      assert StripItems(branches)[1..] == StripItems(rest);
      assert forall i :: 0 <= i < |rest| ==> rest[i] == branches[i + 1];
    }
  }

  lemma {:induction false} StripKeepsArray(t: Tests, items: seq<Json>, s: Json)
    requires s.Obj? && Regular(s)
    ensures Kept(WalkArray(t, items, s.members), WalkArray(t, items, StripMembers(s.members)), HasLicence(s))
    decreases s, 3
  {
    var ms := s.members;
    StripLookup(ms, "minItems");
    StripLookup(ms, "items");
    if Has(ms, "minItems") { StripKeepsKind(Value(ms, "minItems")); }
    if Has(ms, "items") {
      BelowKeyword(RequiresAnnotation, s, "items");
      BelowKeyword(Licensed, s, "items");
      StripKeepsItems(t, items, Value(ms, "items"));
    }
  }

  lemma {:induction false} StripKeepsItems(t: Tests, items: seq<Json>, sub: Json)
    requires Regular(sub)
    ensures Kept(WalkItems(t, items, sub), WalkItems(t, items, Strip(sub)), HasLicence(sub))
    decreases sub, 5, |items|
  {
    if items != [] {
      StripKeepsRegular(t, items[0], sub);
      StripKeepsItems(t, items[1..], sub);
    }
  }

  lemma {:induction false} StripKeepsObject(t: Tests, x: seq<Member>, s: Json)
    requires s.Obj? && Regular(s)
    ensures Kept(WalkObject(t, x, s.members), WalkObject(t, x, StripMembers(s.members)), HasLicence(s))
    decreases s, 3
  {
    var ms := s.members;
    StripKeepsRequired(x, ms);
    StripKeepsProperties(t, x, s);
    StripLookup(ms, "additionalProperties");
    if Has(ms, "additionalProperties") {
      BelowKeyword(RequiresAnnotation, s, "additionalProperties");
      BelowKeyword(Licensed, s, "additionalProperties");
      StripKeepsAdditional(t, x, Declared(ms), Value(ms, "additionalProperties"));
    }
  }

  lemma {:induction false} StripKeepsProperties(t: Tests, x: seq<Member>, s: Json)
    requires s.Obj? && Regular(s)
    ensures var ms, ns := s.members, StripMembers(s.members);
            && (Has(ns, "properties") == Has(ms, "properties"))
            && (Has(ms, "properties") ==>
                  Kept(WalkProperties(t, x, Value(ms, "properties")),
                       WalkProperties(t, x, Value(ns, "properties")), HasLicence(s)))
            && Declared(ns) == Declared(ms)
    decreases s, 2
  {
    var ms := s.members;
    StripLookup(ms, "properties");
    if Has(ms, "properties") {
      var v := Value(ms, "properties");
      StripKeepsKind(v);
      BelowKeyword(RequiresAnnotation, s, "properties");
      BelowKeyword(Licensed, s, "properties");
      if v.Obj? {
        StripKeepsNamed(t, x, v.members);
        SameNames(v.members, StripValues(v.members));
      }
    }
  }

  lemma {:induction false} SameNames(xs: seq<Member>, ys: seq<Member>)
    requires |xs| == |ys| && forall i :: 0 <= i < |xs| ==> xs[i].key == ys[i].key
    ensures (set m | m in xs :: m.key) == (set m | m in ys :: m.key)
  {
    var a, b := set m | m in xs :: m.key, set m | m in ys :: m.key;
    forall k ensures k in a <==> k in b {
      if k in a { var i :| 0 <= i < |xs| && xs[i].key == k; assert ys[i] in ys; }
      if k in b { var i :| 0 <= i < |ys| && ys[i].key == k; assert xs[i] in xs; }
    }
  }

  ghost predicate AnyNamedLicence(subs: seq<Member>) { exists i :: 0 <= i < |subs| && HasLicence(subs[i].value) }

  lemma {:induction false} StripKeepsNamed(t: Tests, x: seq<Member>, subs: seq<Member>)
    requires forall i :: 0 <= i < |subs| ==> Regular(subs[i].value)
    ensures Kept(WalkNamed(t, x, subs), WalkNamed(t, x, StripValues(subs)), AnyNamedLicence(subs))
    decreases subs, 0
  {
    if subs != [] {
      var rest := subs[1..];
      if Has(x, subs[0].key) { StripKeepsRegular(t, Value(x, subs[0].key), subs[0].value); }
      StripKeepsNamed(t, x, rest);
      assert StripValues(subs)[1..] == StripValues(rest);
      assert forall i :: 0 <= i < |rest| ==> rest[i] == subs[i + 1];
    }
  }

  lemma {:induction false} StripKeepsAdditional(t: Tests, x: seq<Member>, declared: set<string>, sub: Json)
    requires Regular(sub)
    ensures Kept(WalkAdditional(t, x, declared, sub), WalkAdditional(t, x, declared, Strip(sub)), HasLicence(sub))
    decreases sub, 5, |x|
  {
    StripKeepsKind(sub);
    if x != [] {
      if sub.Obj? { StripKeepsRegular(t, x[0].value, sub); }
      StripKeepsAdditional(t, x[1..], declared, sub);
    }
  }

  /* ---------- the main results ---------- */

  /** For every document and every instance: the walk ends the same way before and after
      stripping, unless the document refuses as unsupported and carries a licence header,
      or some "required" is a dict from which stripping takes a name. */
  lemma {:induction false} StripOutcome(t: Tests, x: Json, s: Json)
    ensures Walk(t, x, Strip(s)) == Walk(t, x, s) || (Walk(t, x, s).Unsupported? && HasLicence(s)) || !Regular(s)
  {
    if Regular(s) { StripKeepsRegular(t, x, s); }
  }

  /** Hence, with no such dict, outcomes differ exactly when the walk refuses the document
      as unsupported and does not refuse the stripped one; a licence header is then there. */
  lemma {:induction false} StripDiffersIff(t: Tests, x: Json, s: Json)
    requires Regular(s)
    ensures Walk(t, x, Strip(s)) != Walk(t, x, s) <==> Walk(t, x, s).Unsupported? && !Walk(t, x, Strip(s)).Unsupported?
    ensures Walk(t, x, Strip(s)) != Walk(t, x, s) ==> HasLicence(s)
  {
    StripOutcome(t, x, s);
  }

  lemma {:induction false} WellFormedIsRegular(s: Json)
    requires WellFormed(s)
    ensures Regular(s)
    decreases s, 0
  {
    var ms := s.members;
    if Has(ms, "required") { KeywordOf(s, "required"); }
    forall i | 0 <= i < |ms| ensures !Below(RequiresAnnotation, ms[i].key, ms[i].value) {
      assert WellFormedKeyword(ms[i].key, ms[i].value);
      WellFormedBelow(ms[i].key, ms[i].value);
    }
  }

  lemma {:induction false} WellFormedBelow(key: string, v: Json)
    requires WellFormedKeyword(key, v)
    ensures !Below(RequiresAnnotation, key, v)
    decreases v, 1
  {
    if key == "items" || (key == "additionalProperties" && v.Obj?) {
      WellFormedIsRegular(v);
    } else if key == "anyOf" {
      forall i | 0 <= i < |v.items| ensures Regular(v.items[i]) { WellFormedIsRegular(v.items[i]); }
    } else if key == "properties" {
      forall i | 0 <= i < |v.members| ensures Regular(v.members[i].value) { WellFormedIsRegular(v.members[i].value); }
    }
  }

  /** For every well-formed schema and every instance, the walk ends the same way before
      and after stripping. */
  lemma {:induction false} StripKeepsWalk(t: Tests, x: Json, s: Json)
    requires WellFormed(s)
    ensures Walk(t, x, Strip(s)) == Walk(t, x, s)
  {
    WellFormedIsRegular(s);
    StripOutcome(t, x, s);
    WalkDecides(t, x, s);
  }

  /** A licence header on a schema that is otherwise well-formed: every instance is refused
      as unsupported before stripping, and decided after it. */
  lemma {:induction false} LicenceHeaderChangesOutcome(t: Tests, x: Json, s: Json)
    requires s.Obj? && Licensed(s.members) && WellFormed(Strip(s))
    ensures Walk(t, x, s) == Unsupported && Decides(Walk(t, x, Strip(s)))
  {
    WalkDecides(t, x, Strip(s));
  }

  /* ---------- licence headers below the root ---------- */

  /** A schema position of a schema that has no other keyword. */
  datatype Position = ItemsOf | AdditionalOf(name: string) | BranchOf | PropertyOf(name: string)

  /** The schema with its only subschema at the position. */
  function Around(at: Position, s: Json): Json {
    match at
    case ItemsOf => Obj([Keyed("items", s)])
    case AdditionalOf(_) => Obj([Keyed("additionalProperties", s)])
    case BranchOf => Obj([Keyed("anyOf", Arr([s]))])
    case PropertyOf(name) => Obj([Keyed("properties", Obj([Keyed(name, s)]))])
  }

  /** The instance on which that schema puts x before its subschema. */
  function Holding(at: Position, x: Json): Json {
    match at
    case ItemsOf => Arr([x])
    case AdditionalOf(name) => Obj([Keyed(name, x)])
    case BranchOf => x
    case PropertyOf(name) => Obj([Keyed(name, x)])
  }

  function Nest(path: seq<Position>, s: Json): Json {
    if path == [] then s else Around(path[0], Nest(path[1..], s))
  }

  function Reach(path: seq<Position>, x: Json): Json {
    if path == [] then x else Holding(path[0], Reach(path[1..], x))
  }

  lemma {:induction false} OnlyKeyword(key: string, v: Json)
    ensures forall k :: Has([Keyed(key, v)], k) <==> k == key
    ensures Value([Keyed(key, v)], key) == v
  {
    assert [Keyed(key, v)][1..] == [];
  }

  lemma {:induction false} OneKeywordWalks(t: Tests, y: Json, key: string, v: Json)
    requires key in {"items", "additionalProperties", "anyOf", "properties"}
    ensures Walk(t, y, Obj([Keyed(key, v)])) ==
              if key == "anyOf" then Then(WalkAnyOf(t, y, v), WalkKind(t, y, [Keyed(key, v)]))
              else WalkKind(t, y, [Keyed(key, v)])
  {
    OnlyKeyword(key, v);
  }

  lemma {:induction false} AroundWalks(t: Tests, x: Json, at: Position, s: Json)
    requires s.Obj?
    ensures Walk(t, Holding(at, x), Around(at, s)) == Walk(t, x, s)
  {
    var m := Around(at, s).members[0];
    OnlyKeyword(m.key, m.value);
    OneKeywordWalks(t, Holding(at, x), m.key, m.value);
    match at
    case ItemsOf =>
      assert WalkItems(t, [x], s) == Walk(t, x, s);
    case AdditionalOf(name) =>
      assert WalkAdditional(t, [Keyed(name, x)], {}, s) == Walk(t, x, s);
    case BranchOf =>
      assert [s][1..] == [] && WalkBranches(t, x, [s]) == Walk(t, x, s);
      assert WalkKind(t, x, [m]) == Accepts;
    case PropertyOf(name) =>
      OnlyKeyword(name, x);
      var held := [Keyed(name, x)];
      assert WalkNamed(t, held, [Keyed(name, s)]) == Walk(t, x, s);
      assert WalkObject(t, held, [m]) == WalkProperties(t, held, m.value);
      assert WalkKind(t, Obj(held), [m]) == WalkObject(t, held, [m]);
  }

  lemma {:induction false} StripAround(at: Position, s: Json)
    requires s.Obj?
    ensures Strip(Around(at, s)) == Around(at, Strip(s))
  {
    var members := Around(at, s).members;
    assert members[1..] == [] && !Dropped(members[0]);
    assert StripItems([s]) == [Strip(s)];
    assert StripMembers(members) == [Keyed(members[0].key, StripValue(members[0].key, members[0].value))];
    if at.PropertyOf? { assert StripValues([Keyed(at.name, s)]) == [Keyed(at.name, Strip(s))]; }
  }

  /** However deep the schema positions are nested, the instance that reaches the schema
      ends as it does on the schema itself, before and after stripping. */
  lemma {:induction false} NestedWalks(t: Tests, x: Json, path: seq<Position>, s: Json)
    requires s.Obj?
    ensures Nest(path, s).Obj? && Walk(t, Reach(path, x), Nest(path, s)) == Walk(t, x, s)
    ensures Walk(t, Reach(path, x), Strip(Nest(path, s))) == Walk(t, x, Strip(s))
    decreases |path|
  {
    if path != [] {
      var inner, y := Nest(path[1..], s), Reach(path[1..], x);
      NestedWalks(t, x, path[1..], s);
      AroundWalks(t, y, path[0], inner);
      StripAround(path[0], inner);
      AroundWalks(t, y, path[0], Strip(inner));
    }
  }

  /** A licence header below any such nesting, on a schema that is otherwise well-formed: an
      instance that reaches it is refused as unsupported before stripping and decided after. */
  lemma {:induction false} NestedHeaderChangesOutcome(t: Tests, x: Json, path: seq<Position>, s: Json)
    requires s.Obj? && Licensed(s.members) && WellFormed(Strip(s))
    ensures Walk(t, Reach(path, x), Nest(path, s)) == Unsupported
    ensures Decides(Walk(t, Reach(path, x), Strip(Nest(path, s))))
  {
    NestedWalks(t, x, path, s);
    LicenceHeaderChangesOutcome(t, x, s);
  }

  /** A dict under "required" with an annotation: the instance that lacks the name is
      rejected before stripping and accepted after it. */
  lemma {:induction false} AnnotatedRequiredChangesOutcome(t: Tests)
    ensures var s := Obj([Keyed("required", Obj([Keyed("description", Str(""))]))]);
            Walk(t, Obj([]), s) == Rejects && Walk(t, Obj([]), Strip(s)) == Accepts
  {
    var note := [Keyed("description", Str(""))];
    var ms := [Keyed("required", Obj(note))];
    assert note[1..] == [] && ms[1..] == [];
    assert StripMembers(note) == [] && StripMembers(ms) == [Keyed("required", Obj([]))];
    assert Iterated(Obj(note)).value == [Str("description")] && Iterated(Obj([])).value == [];
    assert WalkObject(t, [], ms) == Rejects;
    assert [Keyed("required", Obj([]))][1..] == [];
    assert WalkObject(t, [], [Keyed("required", Obj([]))]) == Accepts;
  }
}
