/** The schema digest compares meanings: well-formed schemas whose stripped documents
    have the same canonical bytes accept exactly the same instances. */
module SchemaDigest {
  import opened Common
  import opened Encodings
  import opened KeyedSort
  import opened Json
  import opened Dicts
  import opened SchemaStrip
  import opened SchemaWalk
  import opened SchemaShapes
  import opened SchemaMeaning
  import Jcs

  lemma {:induction false} NormFlat(v: Json)
    requires AllStrings(v) || !(v.Arr? || v.Obj?)
    ensures Norm(Utf16, v) == v
  {
    if v.Arr? { assert NormItems(Utf16, v.items) == v.items; }
  }

  /** Python's == does not see the order of dict members. */
  lemma {:induction false} PyEqNorm(x: Json, v: Json)
    requires IsDict(v)
    ensures PyEq(x, Norm(Utf16, v)) == PyEq(x, v)
    decreases v
  {
    match (x, v)
    case (Arr(xs), Arr(ys)) =>
      forall i | 0 <= i < |ys| && i < |xs| ensures PyEq(xs[i], Norm(Utf16, ys[i])) == PyEq(xs[i], ys[i]) {
        PyEqNorm(xs[i], ys[i]);
      }
    case (Obj(a), Obj(b)) =>
      SortPermutes(Utf16, NormValues(Utf16, b));
      forall i | 0 <= i < |a|
        ensures (Has(Sorted(Utf16, b), a[i].key) && PyEq(a[i].value, Value(Sorted(Utf16, b), a[i].key)))
             == (Has(b, a[i].key) && PyEq(a[i].value, Value(b, a[i].key)))
      {
        SortedLookup(Utf16, b, a[i].key);
        if Has(b, a[i].key) { PyEqNorm(a[i].value, Value(b, a[i].key)); }
      }
    case (_, _) =>
  }

  /* ---------- member order keeps the walk ---------- */

  /** For every well-formed schema and every instance, the walk does not depend on the
      order of the members of any object in the schema. */
  lemma {:induction false} NormKeepsWalk(t: Tests, x: Json, s: Json)
    requires WellFormed(s) && IsDict(s)
    ensures Walk(t, x, Norm(Utf16, s)) == Walk(t, x, s)
    decreases s, 4
  {
    NormSupported(s.members);
    NormKeepsChecks(x, s);
    NormKeepsStringChecks(t, x, s);
    NormKeepsAnyOf(t, x, s);
    if x.Obj? { NormKeepsObject(t, x.members, s); }
    if x.Arr? { NormKeepsArray(t, x.items, s); }
  }

  lemma {:induction false} NormSupported(members: seq<Member>)
    requires AllSupported(members)
    ensures AllSupported(Sorted(Utf16, members))
  {
    forall k | 0 <= k < |Sorted(Utf16, members)| ensures Sorted(Utf16, members)[k].key in SUPPORTED_KEYWORDS {
      var i := SortedFrom(Utf16, NormValues(Utf16, members), k);
    }
  }

  lemma {:induction false} NormKeepsChecks(x: Json, s: Json)
    requires WellFormed(s) && IsDict(s)
    ensures CheckValue(x, Sorted(Utf16, s.members)) == CheckValue(x, s.members)
  {
    var ms := s.members;
    SortedLookup(Utf16, ms, "type");
    SortedLookup(Utf16, ms, "enum");
    SortedLookup(Utf16, ms, "const");
    if Has(ms, "type") {
      KeywordOf(s, "type");
      NormFlat(Value(ms, "type"));
    }
    if Has(ms, "enum") {
      KeywordOf(s, "enum");
      EnumNorm(x, Value(ms, "enum"));
    }
    if Has(ms, "const") { PyEqNorm(x, Value(ms, "const")); }
  }

  lemma {:induction false} EnumNorm(x: Json, values: Json)
    requires values.Arr? && IsDict(values)
    ensures CheckEnum(x, Norm(Utf16, values)) == CheckEnum(x, values)
  {
    forall i | 0 <= i < |values.items| ensures PyEq(x, Norm(Utf16, values.items[i])) == PyEq(x, values.items[i]) {
      PyEqNorm(x, values.items[i]);
    }
    var normed := NormItems(Utf16, values.items);
    assert forall i :: 0 <= i < |normed| ==> PyEq(x, normed[i]) == PyEq(x, values.items[i]);
  }

  lemma {:induction false} NormKeepsStringChecks(t: Tests, x: Json, s: Json)
    requires WellFormed(s) && IsDict(s)
    ensures x.Str? ==> CheckString(t, x.s, Sorted(Utf16, s.members)) == CheckString(t, x.s, s.members)
  {
    var ms := s.members;
    SortedLookup(Utf16, ms, "minLength");
    SortedLookup(Utf16, ms, "pattern");
    SortedLookup(Utf16, ms, "format");
    if Has(ms, "minLength") { KeywordOf(s, "minLength"); }
    if Has(ms, "pattern") { KeywordOf(s, "pattern"); }
    if Has(ms, "format") { KeywordOf(s, "format"); }
  }

  lemma {:induction false} NormKeepsAnyOf(t: Tests, x: Json, s: Json)
    requires WellFormed(s) && IsDict(s)
    ensures var ms, ns := s.members, Sorted(Utf16, s.members);
            && (Has(ns, "anyOf") == Has(ms, "anyOf"))
            && (Has(ms, "anyOf") ==> WalkAnyOf(t, x, Value(ns, "anyOf")) == WalkAnyOf(t, x, Value(ms, "anyOf")))
    decreases s, 3
  {
    SortedLookup(Utf16, s.members, "anyOf");
    if Has(s.members, "anyOf") {
      KeywordOf(s, "anyOf");
      NormKeepsBranches(t, x, Value(s.members, "anyOf").items);
    }
  }

  lemma {:induction false} NormKeepsBranches(t: Tests, x: Json, branches: seq<Json>)
    requires forall i :: 0 <= i < |branches| ==> WellFormed(branches[i]) && IsDict(branches[i])
    ensures WalkBranches(t, x, NormItems(Utf16, branches)) == WalkBranches(t, x, branches)
    decreases branches, 0
  {
    if branches != [] {
      NormKeepsWalk(t, x, branches[0]);
      NormKeepsBranches(t, x, branches[1..]);
      assert NormItems(Utf16, branches)[1..] == NormItems(Utf16, branches[1..]);
    }
  }

  lemma {:induction false} NormKeepsArray(t: Tests, items: seq<Json>, s: Json)
    requires WellFormed(s) && IsDict(s)
    ensures WalkArray(t, items, Sorted(Utf16, s.members)) == WalkArray(t, items, s.members)
    decreases s, 3
  {
    var ms := s.members;
    SortedLookup(Utf16, ms, "minItems");
    SortedLookup(Utf16, ms, "items");
    if Has(ms, "minItems") { KeywordOf(s, "minItems"); }
    if Has(ms, "items") {
      KeywordOf(s, "items");
      NormKeepsItems(t, items, Value(ms, "items"));
    }
  }

  lemma {:induction false} NormKeepsItems(t: Tests, items: seq<Json>, sub: Json)
    requires WellFormed(sub) && IsDict(sub)
    ensures WalkItems(t, items, Norm(Utf16, sub)) == WalkItems(t, items, sub)
    decreases sub, 5, |items|
  {
    if items != [] {
      NormKeepsWalk(t, items[0], sub);
      NormKeepsItems(t, items[1..], sub);
    }
  }

  lemma {:induction false} NormKeepsObject(t: Tests, x: seq<Member>, s: Json)
    requires WellFormed(s) && IsDict(s)
    ensures WalkObject(t, x, Sorted(Utf16, s.members)) == WalkObject(t, x, s.members)
    decreases s, 3
  {
    var ms := s.members;
    SortedLookup(Utf16, ms, "required");
    SortedLookup(Utf16, ms, "additionalProperties");
    if Has(ms, "required") {
      KeywordOf(s, "required");
      NormFlat(Value(ms, "required"));
    }
    NormKeepsProperties(t, x, s);
    if Has(ms, "additionalProperties") {
      KeywordOf(s, "additionalProperties");
      NormKeepsAdditional(t, x, Declared(ms), Value(ms, "additionalProperties"));
    }
  }

  lemma {:induction false} NormKeepsAdditional(t: Tests, x: seq<Member>, declared: set<string>, sub: Json)
    requires IsDict(sub) && (sub.Obj? ==> WellFormed(sub))
    ensures WalkAdditional(t, x, declared, Norm(Utf16, sub)) == WalkAdditional(t, x, declared, sub)
    decreases sub, 5, |x|
  {
    var normed := Norm(Utf16, sub);
    assert normed.Obj? == sub.Obj? && (normed == Bool(false) <==> sub == Bool(false));
    if x != [] {
      if sub.Obj? { NormKeepsWalk(t, x[0].value, sub); }
      NormKeepsAdditional(t, x[1..], declared, sub);
    }
  }

  lemma {:induction false} NormKeepsProperties(t: Tests, x: seq<Member>, s: Json)
    requires WellFormed(s) && IsDict(s)
    ensures var ms, ns := s.members, Sorted(Utf16, s.members);
            && (Has(ns, "properties") == Has(ms, "properties"))
            && (Has(ms, "properties") ==>
                  WalkProperties(t, x, Value(ns, "properties")) == WalkProperties(t, x, Value(ms, "properties")))
            && Declared(ns) == Declared(ms)
    decreases s, 2
  {
    var ms := s.members;
    SortedLookup(Utf16, ms, "properties");
    if Has(ms, "properties") {
      KeywordOf(s, "properties");
      var subs := Value(ms, "properties").members;
      NormKeepsNamed(t, x, subs);
      SortedNames(subs);
    }
  }

  lemma {:induction false} SortedNames(subs: seq<Member>)
    ensures (set m | m in Sorted(Utf16, subs) :: m.key) == (set m | m in subs :: m.key)
  {
    var normed := NormValues(Utf16, subs);
    SameNames(subs, normed);
    SortPermutes(Utf16, normed);
    var a, b := set m | m in Sorted(Utf16, subs) :: m.key, set m | m in normed :: m.key;
    forall k ensures k in a <==> k in b {
      if k in a { var m :| m in Sorted(Utf16, subs) && m.key == k; assert m in normed; }
      if k in b { var m :| m in normed && m.key == k; assert m in Sorted(Utf16, subs); }
    }
  }

  /** A named map accepts iff each of its present names accepts. */
  ghost predicate AllNamedAccept(t: Tests, x: seq<Member>, subs: seq<Member>) {
    forall i :: 0 <= i < |subs| && Has(x, subs[i].key) ==> Walk(t, Value(x, subs[i].key), subs[i].value).Accepts?
  }

  lemma {:induction false} NamedAccepts(t: Tests, x: seq<Member>, subs: seq<Member>)
    ensures WalkNamed(t, x, subs).Accepts? <==> AllNamedAccept(t, x, subs)
  {
    if subs != [] {
      NamedAccepts(t, x, subs[1..]);
      if AllNamedAccept(t, x, subs[1..])
         && (Has(x, subs[0].key) ==> Walk(t, Value(x, subs[0].key), subs[0].value).Accepts?) {
        forall i | 0 <= i < |subs| && Has(x, subs[i].key)
          ensures Walk(t, Value(x, subs[i].key), subs[i].value).Accepts?
        {
          if i > 0 { assert subs[i] == subs[1..][i - 1]; }
        }
      }
      if AllNamedAccept(t, x, subs) { assert forall i :: 0 <= i < |subs[1..]| ==> subs[1..][i] == subs[i + 1]; }
    }
  }

  lemma {:induction false} NamedDecideEach(t: Tests, x: seq<Member>, subs: seq<Member>)
    requires forall i :: 0 <= i < |subs| && Has(x, subs[i].key) ==>
               Decides(Walk(t, Value(x, subs[i].key), subs[i].value))
    ensures Decides(WalkNamed(t, x, subs))
  {
    if subs != [] {
      assert forall i :: 0 <= i < |subs[1..]| ==> subs[1..][i] == subs[i + 1];
      NamedDecideEach(t, x, subs[1..]);
    }
  }

  lemma {:induction false} NormKeepsNamed(t: Tests, x: seq<Member>, subs: seq<Member>)
    requires DistinctKeys(subs)
    requires forall i :: 0 <= i < |subs| ==> WellFormed(subs[i].value) && IsDict(subs[i].value)
    ensures WalkNamed(t, x, Sorted(Utf16, subs)) == WalkNamed(t, x, subs)
    decreases subs, 1
  {
    var normed, sorted := NormValues(Utf16, subs), Sorted(Utf16, subs);
    forall i | 0 <= i < |subs| && Has(x, subs[i].key)
      ensures Walk(t, Value(x, subs[i].key), normed[i].value) == Walk(t, Value(x, subs[i].key), subs[i].value)
      ensures Decides(Walk(t, Value(x, subs[i].key), subs[i].value))
    {
      NormKeepsWalk(t, Value(x, subs[i].key), subs[i].value);
      WalkDecides(t, Value(x, subs[i].key), subs[i].value);
    }
    NamedDecideEach(t, x, subs);
    NamedAccepts(t, x, subs);
    NamedSorted(t, x, normed);
    NamedAccepts(t, x, sorted);
    assert AllNamedAccept(t, x, normed) <==> AllNamedAccept(t, x, subs);
  }

  lemma {:induction false} NamedSorted(t: Tests, x: seq<Member>, subs: seq<Member>)
    requires forall i :: 0 <= i < |subs| && Has(x, subs[i].key) ==>
               Decides(Walk(t, Value(x, subs[i].key), subs[i].value))
    ensures AllNamedAccept(t, x, Sort(Utf16, subs)) <==> AllNamedAccept(t, x, subs)
    ensures Decides(WalkNamed(t, x, Sort(Utf16, subs)))
  {
    var sorted := Sort(Utf16, subs);
    forall k | 0 <= k < |sorted| ensures exists i :: 0 <= i < |subs| && subs[i] == sorted[k] {
      var i := SortedFrom(Utf16, subs, k);
    }
    forall i | 0 <= i < |subs| ensures exists k :: 0 <= k < |sorted| && sorted[k] == subs[i] {
      var k := SortedTo(Utf16, subs, i);
    }
    NamedDecideEach(t, x, sorted);
  }

  /* ---------- the stripped document is well-formed again ---------- */

  lemma {:induction false} StrippedFrom(members: seq<Member>, k: nat) returns (i: nat)
    requires k < |StripMembers(members)|
    ensures i < |members| && !Dropped(members[i])
    ensures StripMembers(members)[k] == Keyed(members[i].key, StripValue(members[i].key, members[i].value))
  {
    if Dropped(members[0]) {
      i := StrippedFrom(members[1..], k);
      i := i + 1;
    } else if k == 0 {
      i := 0;
    } else {
      i := StrippedFrom(members[1..], k - 1);
      i := i + 1;
    }
  }

  lemma {:induction false} StripDistinct(members: seq<Member>)
    requires DistinctKeys(members)
    ensures DistinctKeys(StripMembers(members))
  {
    if members != [] {
      StripDistinct(members[1..]);
      var rest := StripMembers(members[1..]);
      forall k | 0 <= k < |rest| ensures rest[k].key != members[0].key {
        var i := StrippedFrom(members[1..], k);
        assert members[i + 1].key == rest[k].key;
      }
    }
  }

  lemma {:induction false} StripIsDict(v: Json)
    requires IsDict(v)
    ensures IsDict(Strip(v))
    decreases v, 0
  {
    match v
    case Arr(items) =>
      forall i | 0 <= i < |items| ensures IsDict(Strip(items[i])) { StripIsDict(items[i]); }
    case Obj(members) =>
      StripDistinct(members);
      var stripped := StripMembers(members);
      forall k | 0 <= k < |stripped| ensures IsDict(stripped[k].value) {
        var i := StrippedFrom(members, k);
        StripValueIsDict(members[i].key, members[i].value);
      }
    case _ =>
  }

  lemma {:induction false} StripValueIsDict(key: string, value: Json)
    requires IsDict(value)
    ensures IsDict(StripValue(key, value))
    decreases value, 1
  {
    StripIsDict(value);
    if key in NAME_KEYED_KEYWORDS && value.Obj? {
      forall i | 0 <= i < |value.members| ensures IsDict(Strip(value.members[i].value)) {
        StripIsDict(value.members[i].value);
      }
    }
  }

  lemma {:induction false} StripWellFormed(s: Json)
    requires WellFormed(s)
    ensures WellFormed(Strip(s))
    decreases s, 0
  {
    var stripped := StripMembers(s.members);
    forall k | 0 <= k < |stripped| ensures WellFormedKeyword(stripped[k].key, stripped[k].value) {
      var i := StrippedFrom(s.members, k);
      StripValueWellFormed(s.members[i].key, s.members[i].value);
    }
  }

  lemma {:induction false} StripValueWellFormed(key: string, v: Json)
    requires WellFormedKeyword(key, v)
    ensures WellFormedKeyword(key, StripValue(key, v))
    decreases v, 1
  {
    if key == "type" || key == "required" {
    } else if key == "anyOf" {
      forall i | 0 <= i < |v.items| ensures WellFormed(Strip(v.items[i])) { StripWellFormed(v.items[i]); }
    } else if key == "properties" {
      forall i | 0 <= i < |v.members|
        ensures WellFormed(Strip(v.members[i].value))
      {
        StripWellFormed(v.members[i].value);
      }
    } else if key == "items" || (key == "additionalProperties" && v.Obj?) {
      StripWellFormed(v);
    }
  }

  /* ---------- the digest ---------- */

  /** The bytes that the schema digest hashes. */
  function CanonicalSchemaBytes(s: Json): Bytes { Canonicalize(Strip(s)) }

  /** Equal canonical bytes, equal accepted instances. */
  lemma {:induction false} EqualDigestsEqualMeaning(t: Tests, s: Json, s': Json, x: Json)
    requires WellFormed(s) && WellFormed(s') && IsDict(s) && IsDict(s')
    requires CanonicalSchemaBytes(s) == CanonicalSchemaBytes(s')
    ensures Walk(t, x, s) == Walk(t, x, s')
  {
    SchemaMeansItsNorm(t, x, s);
    SchemaMeansItsNorm(t, x, s');
    Jcs.EqualBytesEqualNorms(Utf16, Strip(s), Strip(s'));
  }

  lemma {:induction false} SchemaMeansItsNorm(t: Tests, x: Json, s: Json)
    requires WellFormed(s) && IsDict(s)
    ensures Walk(t, x, s) == Walk(t, x, Norm(Utf16, Strip(s)))
  {
    StripKeepsWalk(t, x, s);
    StripWellFormed(s);
    StripIsDict(s);
    NormKeepsWalk(t, x, Strip(s));
  }
}
