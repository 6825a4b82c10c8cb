/** What stripping removes, and nothing else: a document without annotations is left alone,
    and taking one annotation out of any other does not change what it is stripped to. */
module StripLaws {
  import opened KeyedSort
  import opened Json
  import opened SchemaStrip

  /** A description or an SPDX member, as text. */
  predicate Annotation(m: Member) { m.value.Str? && (m.key == "description" || "x-spdx-" <= m.key) }

  /** Keywords whose values are instances, and keywords whose values are maps by name. */
  predicate HoldsData(key: string) { key in {"const", "default", "enum", "examples"} }

  predicate HoldsNames(key: string) {
    key in {
      "properties", "patternProperties", "$defs", "definitions",
      "dependentSchemas", "dependentRequired", "$vocabulary"
    }
  }

  /** No annotation has a keyword of data for a key, so all of them are dropped. */
  lemma {:induction false} DroppedIffAnnotation(m: Member)
    ensures Dropped(m) <==> Annotation(m)
    ensures Dropped(m) ==> !HoldsData(m.key) && !HoldsNames(m.key)
  {
    if "x-spdx-" <= m.key {
      assert m.key[0] == 'x';
    }
  }

  /* ---------- documents without annotations ---------- */

  /** No annotation stands at a schema position. */
  ghost predicate Clean(v: Json)
    decreases v, 0
  {
    match v
    case Arr(items) => forall i :: 0 <= i < |items| ==> Clean(items[i])
    case Obj(members) => CleanMembers(members)
    case _ => true
  }

  ghost predicate CleanMembers(members: seq<Member>)
    decreases members
  {
    forall i :: 0 <= i < |members| ==> !Annotation(members[i]) && CleanUnder(members[i].key, members[i].value)
  }

  ghost predicate CleanUnder(key: string, v: Json)
    decreases v, 1
  {
    || HoldsData(key)
    || if HoldsNames(key) && v.Obj? then forall i :: 0 <= i < |v.members| ==> Clean(v.members[i].value) else Clean(v)
  }

  /** They are left as they are. */
  lemma {:induction false} CleanIsFixed(v: Json)
    requires Clean(v)
    ensures Strip(v) == v
    decreases v, 0
  {
    match v
    case Arr(items) =>
      forall i | 0 <= i < |items| ensures Strip(items[i]) == items[i] { CleanIsFixed(items[i]); }
      assert StripItems(items) == items;
    case Obj(members) => CleanMembersFixed(members);
    case _ =>
  }

  lemma {:induction false} CleanMembersFixed(members: seq<Member>)
    requires CleanMembers(members)
    ensures StripMembers(members) == members
    decreases members
  {
    if members != [] {
      DroppedIffAnnotation(members[0]);
      CleanValueFixed(members[0].key, members[0].value);
      CleanMembersFixed(members[1..]);
      assert members == [members[0]] + members[1..];
    }
  }

  lemma {:induction false} CleanValueFixed(key: string, v: Json)
    requires CleanUnder(key, v)
    ensures StripValue(key, v) == v
    decreases v, 1
  {
    if !HoldsData(key) {
      if HoldsNames(key) && v.Obj? {
        forall i | 0 <= i < |v.members| ensures Strip(v.members[i].value) == v.members[i].value {
          CleanIsFixed(v.members[i].value);
        }
        assert StripValues(v.members) == v.members;
      } else {
        CleanIsFixed(v);
      }
    }
  }

  /** What stripping leaves is without annotations. */
  lemma {:induction false} StripIsClean(v: Json)
    ensures Clean(Strip(v))
    decreases v, 0
  {
    match v
    case Arr(items) =>
      forall i | 0 <= i < |items| ensures Clean(StripItems(items)[i]) { StripIsClean(items[i]); }
    case Obj(members) => StrippedMembersClean(members);
    case _ =>
  }

  lemma {:induction false} StrippedMembersClean(members: seq<Member>)
    ensures CleanMembers(StripMembers(members))
    decreases members
  {
    if members != [] {
      var m, rest := members[0], StripMembers(members[1..]);
      StrippedMembersClean(members[1..]);
      if !Dropped(m) {
        StrippedValueClean(m);
        assert StripMembers(members) == [Keyed(m.key, StripValue(m.key, m.value))] + rest;
      }
    }
  }

  lemma {:induction false} StrippedValueClean(m: Member)
    requires !Dropped(m)
    ensures CleanUnder(m.key, StripValue(m.key, m.value)) && !Annotation(Keyed(m.key, StripValue(m.key, m.value)))
    decreases m, 1
  {
    var v := m.value;
    StripValueIdempotent(m.key, v);
    DroppedIffAnnotation(m);
    DroppedIffAnnotation(Keyed(m.key, StripValue(m.key, v)));
    if !HoldsData(m.key) {
      if HoldsNames(m.key) && v.Obj? {
        forall i | 0 <= i < |v.members| ensures Clean(StripValues(v.members)[i].value) {
          StripIsClean(v.members[i].value);
        }
      } else {
        StripIsClean(v);
      }
    }
  }

  /* ---------- taking one annotation out ---------- */

  /** The second document is the first with one annotation less, at a schema position. */
  ghost predicate OneLess(v: Json, w: Json)
    decreases v, 0
  {
    match (v, w)
    case (Arr(xs), Arr(ys)) => OneItemLess(xs, ys)
    case (Obj(a), Obj(b)) => OneMemberLess(a, b) || OneLessBelow(a, b)
    case (_, _) => false
  }

  ghost predicate OneItemLess(xs: seq<Json>, ys: seq<Json>)
    decreases xs
  {
    |xs| == |ys| && exists i :: 0 <= i < |xs| && OneLess(xs[i], ys[i]) && ys == xs[i := ys[i]]
  }

  ghost predicate OneMemberLess(a: seq<Member>, b: seq<Member>) {
    exists i :: 0 <= i < |a| && Annotation(a[i]) && b == a[..i] + a[i + 1..]
  }

  ghost predicate OneLessBelow(a: seq<Member>, b: seq<Member>)
    decreases a, 2
  {
    && |a| == |b|
    && exists i :: 0 <= i < |a| && OneLessUnder(a[i].key, a[i].value, b[i].value)
                   && b == a[i := Keyed(a[i].key, b[i].value)]
  }

  ghost predicate OneLessUnder(key: string, v: Json, w: Json)
    decreases v, 1
  {
    && !HoldsData(key)
    && if HoldsNames(key) && v.Obj? then w.Obj? && OneLessNamed(v.members, w.members) else OneLess(v, w)
  }

  ghost predicate OneLessNamed(a: seq<Member>, b: seq<Member>)
    decreases a
  {
    && |a| == |b|
    && exists i :: 0 <= i < |a| && OneLess(a[i].value, b[i].value) && b == a[i := Keyed(a[i].key, b[i].value)]
  }

  lemma {:induction false} StripMembersAppend(a: seq<Member>, b: seq<Member>)
    ensures StripMembers(a + b) == StripMembers(a) + StripMembers(b)
  {
    if a == [] {
      assert a + b == b;
    } else {
      assert (a + b)[1..] == a[1..] + b;
      StripMembersAppend(a[1..], b);
    }
  }

  lemma {:induction false} StripOne(m: Member)
    ensures StripMembers([m]) == if Dropped(m) then [] else [Keyed(m.key, StripValue(m.key, m.value))]
  {
    assert [m][1..] == [];
  }

  /** A member replaced by one that strips alike. */
  lemma {:induction false} StripReplaced(a: seq<Member>, i: nat, m: Member)
    requires i < |a| && StripMembers([a[i]]) == StripMembers([m])
    ensures StripMembers(a[i := m]) == StripMembers(a)
  {
    assert a == a[..i] + ([a[i]] + a[i + 1..]) && a[i := m] == a[..i] + ([m] + a[i + 1..]);
    StripMembersAppend(a[..i], [a[i]] + a[i + 1..]);
    StripMembersAppend(a[..i], [m] + a[i + 1..]);
    StripMembersAppend([a[i]], a[i + 1..]);
    StripMembersAppend([m], a[i + 1..]);
  }

  lemma {:induction false} MemberIgnored(a: seq<Member>, b: seq<Member>)
    requires OneMemberLess(a, b)
    ensures StripMembers(a) == StripMembers(b)
  {
    var i :| 0 <= i < |a| && Annotation(a[i]) && b == a[..i] + a[i + 1..];
    assert a == a[..i] + ([a[i]] + a[i + 1..]);
    StripMembersAppend(a[..i], [a[i]] + a[i + 1..]);
    StripMembersAppend([a[i]], a[i + 1..]);
    StripMembersAppend(a[..i], a[i + 1..]);
    StripOne(a[i]);
    DroppedIffAnnotation(a[i]);
  }

  /** An annotation more or less never changes what a document is stripped to. */
  lemma {:induction false} AnnotationsIgnored(v: Json, w: Json)
    requires OneLess(v, w)
    ensures Strip(v) == Strip(w)
    decreases v, 0
  {
    if v.Arr? {
      AnnotationsIgnoredItems(v.items, w.items);
    } else if OneMemberLess(v.members, w.members) {
      MemberIgnored(v.members, w.members);
    } else {
      AnnotationsIgnoredBelow(v.members, w.members);
    }
  }

  lemma {:induction false} AnnotationsIgnoredItems(xs: seq<Json>, ys: seq<Json>)
    requires OneItemLess(xs, ys)
    ensures StripItems(xs) == StripItems(ys)
    decreases xs
  {
    var i :| 0 <= i < |xs| && OneLess(xs[i], ys[i]) && ys == xs[i := ys[i]];
    AnnotationsIgnored(xs[i], ys[i]);
    var s, t := StripItems(xs), StripItems(ys);
    forall k | 0 <= k < |xs| ensures s[k] == t[k] { assert k != i ==> xs[k] == ys[k]; }
  }

  lemma {:induction false} AnnotationsIgnoredBelow(a: seq<Member>, b: seq<Member>)
    requires OneLessBelow(a, b)
    ensures StripMembers(a) == StripMembers(b)
    decreases a, 2
  {
    var i :| 0 <= i < |a| && OneLessUnder(a[i].key, a[i].value, b[i].value)
             && b == a[i := Keyed(a[i].key, b[i].value)];
    AnnotationsIgnoredUnder(a[i].key, a[i].value, b[i].value);
    StripOne(a[i]);
    StripOne(b[i]);
    StripReplaced(a, i, b[i]);
  }

  lemma {:induction false} AnnotationsIgnoredUnder(key: string, v: Json, w: Json)
    requires OneLessUnder(key, v, w)
    ensures StripValue(key, v) == StripValue(key, w) && v.Str? == w.Str?
    decreases v, 1
  {
    if HoldsNames(key) && v.Obj? {
      AnnotationsIgnoredNamed(v.members, w.members);
    } else {
      AnnotationsIgnored(v, w);
    }
  }

  lemma {:induction false} AnnotationsIgnoredNamed(a: seq<Member>, b: seq<Member>)
    requires OneLessNamed(a, b)
    ensures StripValues(a) == StripValues(b)
    decreases a
  {
    var i :| 0 <= i < |a| && OneLess(a[i].value, b[i].value) && b == a[i := Keyed(a[i].key, b[i].value)];
    AnnotationsIgnored(a[i].value, b[i].value);
    var s, t := StripValues(a), StripValues(b);
    forall k | 0 <= k < |a| ensures s[k] == t[k] { assert k != i ==> a[k] == b[k]; }
  }
}
