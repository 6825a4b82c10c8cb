/** Well-formed schemas over the supported keywords, on which the walk always decides. */
module SchemaShapes {
  import opened Json
  import opened Dicts
  import opened SchemaWalk

  /* ---------- well-formed schemas ---------- */

  predicate TypeName(v: Json) { v.Str? && v.s in TYPE_NAMES }

  predicate AllStrings(v: Json) { v.Arr? && forall i | 0 <= i < |v.items| :: v.items[i].Str? }

  /** A schema over the supported keywords, each with a value of the shape the walk reads. */
  ghost predicate WellFormed(s: Json)
    decreases s, 0
  {
    s.Obj? && forall i :: 0 <= i < |s.members| ==> WellFormedKeyword(s.members[i].key, s.members[i].value)
  }

  ghost predicate WellFormedKeyword(key: string, v: Json)
    decreases v, 1
  {
    && key in SUPPORTED_KEYWORDS
    && (key == "type" ==> TypeName(v) || (v.Arr? && forall i :: 0 <= i < |v.items| ==> TypeName(v.items[i])))
    && (key == "enum" ==> v.Arr?)
    && (key == "minLength" || key == "minItems" ==> v.Int? || v.Bool?)
    && (key == "pattern" ==> v.Str?)
    && (key == "format" ==> !v.Arr? && !v.Obj?)
    && (key == "required" ==> AllStrings(v))
    && (key == "anyOf" ==> v.Arr? && forall i :: 0 <= i < |v.items| ==> WellFormed(v.items[i]))
    && (key == "properties" ==> v.Obj? && forall i :: 0 <= i < |v.members| ==> WellFormed(v.members[i].value))
    && (key == "additionalProperties" && v.Obj? ==> WellFormed(v))
    && (key == "items" ==> WellFormed(v))
  }

  lemma {:induction false} KeywordOf(s: Json, key: string)
    requires WellFormed(s) && Has(s.members, key)
    ensures WellFormedKeyword(key, Value(s.members, key))
  {
  }

  /* ---------- well-formed schemas always decide ---------- */

  predicate Decides(o: Outcome) { o.Accepts? || o.Rejects? }

  /** On a well-formed schema the walk either accepts or rejects. */
  lemma {:induction false} WalkDecides(t: Tests, x: Json, s: Json)
    requires WellFormed(s)
    ensures Decides(Walk(t, x, s))
    decreases s, 4
  {
    var ms := s.members;
    ChecksDecide(x, s);
    StringChecksDecide(t, x, s);
    if Has(ms, "anyOf") {
      KeywordOf(s, "anyOf");
      BranchesDecide(t, x, Value(ms, "anyOf").items);
    }
    if x.Obj? { ObjectDecides(t, x.members, s); }
    if x.Arr? { ArrayDecides(t, x.items, s); }
  }

  lemma {:induction false} TypeDecides(x: Json, s: Json)
    requires WellFormed(s) && Has(s.members, "type")
    ensures Decides(CheckType(x, Value(s.members, "type")))
  {
    KeywordOf(s, "type");
    var spec := Value(s.members, "type");
    if spec.Arr? { TypesDecide(x, spec.items); }
  }

  lemma {:induction false} ChecksDecide(x: Json, s: Json)
    requires WellFormed(s)
    ensures var ms := s.members;
            && AllSupported(ms)
            && Decides(CheckValue(x, ms))
  {
    if Has(s.members, "type") { TypeDecides(x, s); }
    if Has(s.members, "enum") { KeywordOf(s, "enum"); }
  }

  lemma {:induction false} TypesDecide(x: Json, names: seq<Json>)
    requires forall i :: 0 <= i < |names| ==> TypeName(names[i])
    ensures Decides(MatchesAny(x, names))
  {
    if names != [] { TypesDecide(x, names[1..]); }
  }

  lemma {:induction false} StringChecksDecide(t: Tests, x: Json, s: Json)
    requires WellFormed(s)
    ensures x.Str? ==> Decides(CheckString(t, x.s, s.members))
  {
    var ms := s.members;
    if Has(ms, "minLength") { KeywordOf(s, "minLength"); }
    if Has(ms, "pattern") { KeywordOf(s, "pattern"); }
    if Has(ms, "format") { KeywordOf(s, "format"); }
  }

  lemma {:induction false} BranchesDecide(t: Tests, x: Json, branches: seq<Json>)
    requires forall i :: 0 <= i < |branches| ==> WellFormed(branches[i])
    ensures Decides(WalkBranches(t, x, branches))
    decreases branches, 0
  {
    if branches != [] {
      WalkDecides(t, x, branches[0]);
      BranchesDecide(t, x, branches[1..]);
    }
  }

  lemma {:induction false} ArrayDecides(t: Tests, items: seq<Json>, s: Json)
    requires WellFormed(s)
    ensures Decides(WalkArray(t, items, s.members))
    decreases s, 3
  {
    var ms := s.members;
    if Has(ms, "minItems") { KeywordOf(s, "minItems"); }
    if Has(ms, "items") {
      KeywordOf(s, "items");
      ItemsDecide(t, items, Value(ms, "items"));
    }
  }

  lemma {:induction false} ItemsDecide(t: Tests, items: seq<Json>, sub: Json)
    requires WellFormed(sub)
    ensures Decides(WalkItems(t, items, sub))
    decreases sub, 5, |items|
  {
    if items != [] {
      WalkDecides(t, items[0], sub);
      ItemsDecide(t, items[1..], sub);
    }
  }

  lemma {:induction false} ObjectDecides(t: Tests, x: seq<Member>, s: Json)
    requires WellFormed(s)
    ensures Decides(WalkObject(t, x, s.members))
    decreases s, 3
  {
    var ms := s.members;
    if Has(ms, "required") {
      KeywordOf(s, "required");
      RequiredDecides(x, Value(ms, "required").items);
    }
    if Has(ms, "properties") {
      KeywordOf(s, "properties");
      NamedDecide(t, x, Value(ms, "properties").members);
    }
    if Has(ms, "additionalProperties") {
      KeywordOf(s, "additionalProperties");
      AdditionalDecides(t, x, Declared(ms), Value(ms, "additionalProperties"));
    }
  }

  lemma {:induction false} RequiredDecides(x: seq<Member>, names: seq<Json>)
    requires forall i :: 0 <= i < |names| ==> names[i].Str?
    ensures Decides(CheckRequiredNames(x, names))
  {
    if names != [] { RequiredDecides(x, names[1..]); }
  }

  lemma {:induction false} NamedDecide(t: Tests, x: seq<Member>, subs: seq<Member>)
    requires forall i :: 0 <= i < |subs| ==> WellFormed(subs[i].value)
    ensures Decides(WalkNamed(t, x, subs))
    decreases subs, 0
  {
    if subs != [] {
      if Has(x, subs[0].key) { WalkDecides(t, Value(x, subs[0].key), subs[0].value); }
      NamedDecide(t, x, subs[1..]);
    }
  }

  lemma {:induction false} AdditionalDecides(t: Tests, x: seq<Member>, declared: set<string>, sub: Json)
    requires sub.Obj? ==> WellFormed(sub)
    ensures Decides(WalkAdditional(t, x, declared, sub))
    decreases sub, 5, |x|
  {
    if x != [] {
      if sub.Obj? { WalkDecides(t, x[0].value, sub); }
      AdditionalDecides(t, x[1..], declared, sub);
    }
  }
}
