/** The annotation-stripping rule of the cross-repository schema digest. */
module SchemaStrip {
  import opened KeyedSort
  import opened Json

  const INSTANCE_DATA_KEYWORDS := {"const", "default", "enum", "examples"}

  const NAME_KEYED_KEYWORDS := {
    "properties", "patternProperties", "$defs", "definitions",
    "dependentSchemas", "dependentRequired", "$vocabulary"
  }

  const SPDX_PREFIX := "x-spdx-"

  predicate IsAnnotationKey(key: string) { key == "description" || SPDX_PREFIX <= key }

  predicate IsAnnotation(key: string, value: Json) { value.Str? && IsAnnotationKey(key) }

  function Strip(v: Json): Json
    decreases v, 0
  {
    match v
    case Obj(members) => Obj(StripMembers(members))
    case Arr(items) => Arr(StripItems(items))
    case _ => v
  }

  function StripItems(items: seq<Json>): (stripped: seq<Json>)
    ensures |stripped| == |items|
    ensures forall i :: 0 <= i < |items| ==> stripped[i] == Strip(items[i])
  {
    if items == [] then [] else [Strip(items[0])] + StripItems(items[1..])
  }

  /** The members of a name-keyed map: every name kept, every value stripped. */
  function StripValues(members: seq<Member>): (stripped: seq<Member>)
    ensures |stripped| == |members|
    ensures forall i :: 0 <= i < |members| ==> stripped[i] == Keyed(members[i].key, Strip(members[i].value))
  {
    if members == [] then []
    else [Keyed(members[0].key, Strip(members[0].value))] + StripValues(members[1..])
  }

  /** The value kept under a schema keyword. */
  function StripValue(key: string, value: Json): Json
    decreases value, 1
  {
    if key in INSTANCE_DATA_KEYWORDS then value
    else if key in NAME_KEYED_KEYWORDS && value.Obj? then Obj(StripValues(value.members))
    else Strip(value)
  }

  predicate Dropped(m: Member) { m.key !in INSTANCE_DATA_KEYWORDS && IsAnnotation(m.key, m.value) }

  function StripMembers(members: seq<Member>): seq<Member> {
    if members == [] then []
    else if Dropped(members[0]) then StripMembers(members[1..])
    else [Keyed(members[0].key, StripValue(members[0].key, members[0].value))] + StripMembers(members[1..])
  }

  /** The members still to come, one member further on. */
  lemma {:induction false} StripMembersFrom(out: seq<Member>, members: seq<Member>, i: nat)
    requires i < |members|
    ensures out + StripMembers(members[i..]) ==
              (if Dropped(members[i]) then out
               else out + [Keyed(members[i].key, StripValue(members[i].key, members[i].value))])
              + StripMembers(members[i + 1..])
  {
    assert members[i..][1..] == members[i + 1..];
  }

  /** The recursion of the source, which fills an output dict member by member. */
  method StripNoncanonical(obj: Json) returns (r: Json)
    ensures r == Strip(obj)
    decreases obj, 0
  {
    match obj
    case Obj(members) =>
      var out: seq<Member> := [];
      for i := 0 to |members|
        invariant out + StripMembers(members[i..]) == StripMembers(members)
      {
        var key, value := members[i].key, members[i].value;
        StripMembersFrom(out, members, i);
        if key in INSTANCE_DATA_KEYWORDS {
          out := out + [Keyed(key, value)];
        } else if IsAnnotation(key, value) {
          continue;
        } else if key in NAME_KEYED_KEYWORDS && value.Obj? {
          var named := StripNamedValues(value.members);
          out := out + [Keyed(key, Obj(named))];
        } else {
          var sub := StripNoncanonical(value);
          out := out + [Keyed(key, sub)];
        }
      }
      assert out == out + [] == StripMembers(members);
      return Obj(out);
    case Arr(items) =>
      var out := StripElements(items);
      return Arr(out);
    case _ => return obj;
  }

  method StripElements(items: seq<Json>) returns (out: seq<Json>)
    ensures out == StripItems(items)
    decreases items
  {
    out := [];
    for i := 0 to |items|
      invariant out == StripItems(items)[..i]
    {
      var sub := StripNoncanonical(items[i]);
      out := out + [sub];
    }
  }

  method StripNamedValues(members: seq<Member>) returns (out: seq<Member>)
    ensures out == StripValues(members)
    decreases members
  {
    out := [];
    for i := 0 to |members|
      invariant |out| == i
      invariant forall k :: 0 <= k < i ==> out[k] == Keyed(members[k].key, Strip(members[k].value))
    {
      var sub := StripNoncanonical(members[i].value);
      out := out + [Keyed(members[i].key, sub)];
    }
    assert out == StripValues(members);
  }

  /* ---------- idempotence ---------- */

  /** Stripping twice is stripping once, for every document. */
  lemma {:induction false} StripIdempotent(v: Json)
    ensures Strip(Strip(v)) == Strip(v)
    decreases v, 0
  {
    match v
    case Obj(members) => StripMembersIdempotent(members);
    case Arr(items) =>
      forall i | 0 <= i < |items| ensures Strip(Strip(items[i])) == Strip(items[i]) { StripIdempotent(items[i]); }
      assert StripItems(StripItems(items)) == StripItems(items);
    case _ =>
  }

  lemma {:induction false} StripMembersIdempotent(members: seq<Member>)
    ensures StripMembers(StripMembers(members)) == StripMembers(members)
    decreases members
  {
    if members != [] {
      StripMembersIdempotent(members[1..]);
      if !Dropped(members[0]) {
        var kept := Keyed(members[0].key, StripValue(members[0].key, members[0].value));
        StripValueIdempotent(members[0].key, members[0].value);
        assert ([kept] + StripMembers(members[1..]))[1..] == StripMembers(members[1..]);
      }
    }
  }

  lemma {:induction false} StripValueIdempotent(key: string, value: Json)
    ensures StripValue(key, StripValue(key, value)) == StripValue(key, value)
    ensures StripValue(key, value).Str? == value.Str?
    decreases value, 1
  {
    StripIdempotent(value);
    if key in NAME_KEYED_KEYWORDS && value.Obj? {
      var ms := value.members;
      forall i | 0 <= i < |ms| ensures Strip(Strip(ms[i].value)) == Strip(ms[i].value) { StripIdempotent(ms[i].value); }
      assert StripValues(StripValues(ms)) == StripValues(ms);
    }
  }
}
