/** What lies in the buckets, read as bytes: the fields of a stored record and of a stored
    schema entry under their written names, and which records and keys there can be. */
module StoredForms {
  import opened Common
  import opened Encodings
  import opened KeyedSort
  import opened Json
  import opened Dicts
  import opened JsonParse
  import opened Policies
  import opened Envelopes
  import opened SchemaRegistry
  import Decoding
  import Jcs

  /** The JSON object that bytes spell; None where they spell none. */
  function ReadBytes(bytes: Bytes): Option<seq<Member>> {
    var text :- Decoding.Decode(Utf8, bytes);
    match ParseValue(text)
    case Some(Parsed(Obj(members), "")) => Some(members)
    case _ => None
  }

  /** An optional text and an optional instant, as JSON. */
  predicate IsText(v: Option<Json>, s: Option<string>) {
    v == Some(match s case None => Null case Some(t) => Str(t))
  }

  predicate IsInstant(clock: Clock, v: Option<Json>, t: Option<Instant>) {
    v == Some(match t case None => Null case Some(at) => Str(clock.render(at)))
  }

  /* ---------- policy records ---------- */

  ghost predicate ListsTexts(v: Option<Json>, xs: seq<string>) {
    && v.Some? && v.value.Arr? && |v.value.items| == |xs|
    && forall i :: 0 <= i < |xs| ==> v.value.items[i] == Str(xs[i])
  }

  ghost predicate ListsPairs(v: Option<Json>, ts: seq<(string, string)>) {
    && v.Some? && v.value.Arr? && |v.value.items| == |ts|
    && forall i :: 0 <= i < |ts| ==> v.value.items[i] == Arr([Str(ts[i].0), Str(ts[i].1)])
  }

  ghost predicate SpellsMarker(clock: Clock, v: Option<Json>, m: Option<Marker>) {
    if m.None? then v == None
    else
      && v.Some? && v.value.Obj?
      && var get := Get(v.value.members);
         && IsText(get("unrevoke_reason"), m.value.unrevokeReason)
         && get("previous_revoked_at") == Some(Str(clock.render(m.value.previousRevokedAt)))
         && IsText(get("previous_revocation_reason"), m.value.previousRevocationReason)
  }

  ghost predicate SpellsPolicy(clock: Clock, get: Lookup, p: Policy) {
    && get("registered_by") == Some(Str(p.registeredBy))
    && ListsTexts(get("allowed_kids"), p.allowedKids)
    && ListsPairs(get("allowed_triples"), p.allowedTriples)
    && IsInstant(clock, get("not_before"), p.notBefore)
    && IsInstant(clock, get("not_after"), p.notAfter)
    && get("disabled") == Some(Bool(p.disabled))
    && IsText(get("note"), p.note)
    && IsInstant(clock, get("revoked_at"), p.revokedAt)
    && IsText(get("revocation_reason"), p.revocationReason)
  }

  ghost predicate SpellsRecord(clock: Clock, get: Lookup, r: Record) {
    && get("schema") == Some(Str("wakir.wirelang.capability-policy-entry/1"))
    && SpellsPolicy(clock, get, r.policy)
    && get("policy_id") == Some(Str(r.policyId))
    && get("registered_at") == Some(Str(clock.render(r.registeredAt)))
    && get("registered_by_publisher") == Some(Str(r.registeredByPublisher))
    && SpellsMarker(clock, get("unrevoke_audit_marker"), r.marker)
  }

  lemma {:induction false} BytesReadBack(members: seq<Member>)
    ensures ReadBytes(EncodeUtf8(Serialize(CodePoints, Obj(members)))) == Some(Sorted(CodePoints, members))
  {
    var text := Serialize(CodePoints, Obj(members));
    Decoding.DecodeEncode(Utf8, text);
    Jcs.SerializeReadsBack(CodePoints, Obj(members), "");
    assert text + "" == text;
  }

  lemma {:induction false} MarkerSpelled(clock: Clock, m: Marker)
    ensures SpellsMarker(clock, Some(Norm(CodePoints, Obj(MarkerFields(clock, m)))), Some(m))
  {
    var ms := MarkerFields(clock, m);
    MarkerFieldsDistinct(clock, m);
    SortedHolds(ms);
    TextRead(m.unrevokeReason);
    TextRead(m.previousRevocationReason);
    var get := Get(Sorted(CodePoints, ms));
    assert get(ms[0].key) == Some(TextOrNull(m.unrevokeReason));
    assert get(ms[1].key) == Some(Str(clock.render(m.previousRevokedAt)));
    assert get(ms[2].key) == Some(TextOrNull(m.previousRevocationReason));
  }

  lemma {:induction false} PolicySpelled(clock: Clock, p: Policy, get: Lookup)
    requires PolicyHeld(clock, p, get)
    ensures SpellsPolicy(clock, get, p)
  {
  }

  lemma {:induction false} RecordPartSpelled(clock: Clock, r: Record, get: Lookup)
    requires Holds(get, Fields(clock, r))
    ensures get("schema") == Some(Str(VALUE_SCHEMA)) && get("policy_id") == Some(Str(r.policyId))
    ensures get("registered_at") == Some(Str(clock.render(r.registeredAt)))
    ensures get("registered_by_publisher") == Some(Str(r.registeredByPublisher))
  {
    var ms := Fields(clock, r);
    assert get(ms[0].key).Some? && get(ms[2].key).Some? && get(ms[11].key).Some? && get(ms[12].key).Some?;
  }

  lemma {:induction false} RecordHeldIsSpelled(clock: Clock, r: Record, get: Lookup)
    requires Holds(get, Fields(clock, r)) && Lacks(get, Fields(clock, r), "unrevoke_audit_marker")
    ensures SpellsRecord(clock, get, r)
  {
    assert SpellsPolicy(clock, get, r.policy) by {
      PolicyIsHeld(clock, r, get);
      PolicySpelled(clock, r.policy, get);
    }
    RecordPartSpelled(clock, r, get);
    MarkerFieldSpelled(clock, r, get);
  }

  lemma {:induction false} MarkerFieldSpelled(clock: Clock, r: Record, get: Lookup)
    requires Holds(get, Fields(clock, r)) && Lacks(get, Fields(clock, r), "unrevoke_audit_marker")
    ensures SpellsMarker(clock, get("unrevoke_audit_marker"), r.marker)
  {
    var ms := Fields(clock, r);
    if r.marker.Some? {
      MarkerHeld(clock, r, get);
      MarkerSpelled(clock, r.marker.value);
    } else {
      assert forall i :: 0 <= i < |ms| ==> ms[i].key != "unrevoke_audit_marker";
    }
  }

  lemma {:induction false} SortedSpells(clock: Clock, r: Record, members: seq<Member>)
    requires members == Fields(clock, r)
    ensures SpellsRecord(clock, Get(Sorted(CodePoints, members)), r)
  {
    FieldsDistinct(clock, r);
    SortedHolds(members);
    assert Lacks(Get(Sorted(CodePoints, members)), members, "unrevoke_audit_marker");
    RecordHeldIsSpelled(clock, r, Get(Sorted(CodePoints, members)));
  }

  /** The bytes of a record spell its fields under their names. */
  lemma {:induction false} RecordSpelled(clock: Clock, r: Record)
    ensures ReadBytes(Envelope(clock, r)).Some?
    ensures SpellsRecord(clock, Get(ReadBytes(Envelope(clock, r)).value), r)
  {
    BytesReadBack(Fields(clock, r));
    SortedSpells(clock, r, Fields(clock, r));
  }

  /* ---------- what decodes, however it was written ---------- */

  /** A text, and null or absent for none. */
  predicate ReadsText(v: Option<Json>, s: Option<string>) {
    if s.Some? then v == Some(Str(s.value)) else v == None || v == Some(Null)
  }

  predicate ReadsTime(clock: Clock, v: Option<Json>, t: Instant) {
    v.Some? && v.value.Str? && clock.parse(v.value.s) == Some(t)
  }

  predicate ReadsTimeOrNone(clock: Clock, v: Option<Json>, t: Option<Instant>) {
    if t.Some? then ReadsTime(clock, v, t.value) else v == None || v == Some(Null)
  }

  /** The two reasons of a marker have to be there, as texts or null. */
  ghost predicate ReadsMarker(clock: Clock, v: Option<Json>, m: Option<Marker>) {
    if m.None? then v == None || v == Some(Null)
    else
      && v.Some? && v.value.Obj?
      && var get := Get(v.value.members);
         && IsText(get("unrevoke_reason"), m.value.unrevokeReason)
         && ReadsTime(clock, get("previous_revoked_at"), m.value.previousRevokedAt)
         && IsText(get("previous_revocation_reason"), m.value.previousRevocationReason)
  }

  ghost predicate ReadsPolicy(clock: Clock, get: Lookup, p: Policy) {
    && get("registered_by") == Some(Str(p.registeredBy))
    && ListsTexts(get("allowed_kids"), p.allowedKids)
    && ListsPairs(get("allowed_triples"), p.allowedTriples)
    && ReadsTimeOrNone(clock, get("not_before"), p.notBefore)
    && ReadsTimeOrNone(clock, get("not_after"), p.notAfter)
    && get("disabled") == Some(Bool(p.disabled))
    && ReadsText(get("note"), p.note)
    && ReadsTimeOrNone(clock, get("revoked_at"), p.revokedAt)
    && ReadsText(get("revocation_reason"), p.revocationReason)
  }

  ghost predicate ReadsRecord(clock: Clock, get: Lookup, r: Record) {
    && get("schema") == Some(Str("wakir.wirelang.capability-policy-entry/1"))
    && ReadsPolicy(clock, get, r.policy)
    && get("policy_id") == Some(Str(r.policyId))
    && ReadsTime(clock, get("registered_at"), r.registeredAt)
    && get("registered_by_publisher") == Some(Str(r.registeredByPublisher))
    && ReadsMarker(clock, get("unrevoke_audit_marker"), r.marker)
  }

  lemma {:induction false} TextsIff(v: Option<Json>, xs: seq<string>)
    ensures ReadTexts(v) == Some(xs) <==> ListsTexts(v, xs)
  {
    if ListsTexts(v, xs) { assert ReadTexts(v).value == xs; }
  }

  lemma {:induction false} PairsIff(v: Option<Json>, ts: seq<(string, string)>)
    ensures ReadPairs(v) == Some(ts) <==> ListsPairs(v, ts)
  {
    if ListsPairs(v, ts) {
      assert ReadPairs(v).value == ts;
    }
    if ReadPairs(v) == Some(ts) {
      forall i | 0 <= i < |ts| ensures v.value.items[i] == Arr([Str(ts[i].0), Str(ts[i].1)]) {
        assert IsPair(v.value.items[i]);
        assert v.value.items[i].items == [Str(ts[i].0), Str(ts[i].1)];
      }
    }
  }

  lemma {:induction false} TextIff(v: Option<Json>, s: Option<string>)
    ensures ReadText(v) == Some(s) <==> ReadsText(v, s)
  {
  }

  lemma {:induction false} TimeIff(clock: Clock, v: Option<Json>, t: Option<Instant>)
    ensures ReadInstantOrNull(clock, v) == Some(t) <==> ReadsTimeOrNone(clock, v, t)
  {
  }

  lemma {:induction false} PolicyReadIff(clock: Clock, get: Lookup, p: Policy)
    ensures ReadPolicy(clock, get) == Some(p) <==> ReadsPolicy(clock, get, p)
  {
    TextsIff(get("allowed_kids"), p.allowedKids);
    PairsIff(get("allowed_triples"), p.allowedTriples);
    TimeIff(clock, get("not_before"), p.notBefore);
    TimeIff(clock, get("not_after"), p.notAfter);
    TextIff(get("note"), p.note);
    TimeIff(clock, get("revoked_at"), p.revokedAt);
    TextIff(get("revocation_reason"), p.revocationReason);
  }

  lemma {:induction false} MarkerReadIff(clock: Clock, v: Option<Json>, m: Option<Marker>)
    ensures ReadMarker(clock, v) == Some(m) <==> ReadsMarker(clock, v, m)
  {
  }

  /** The parts that a record is put together from. */
  ghost predicate Parts(clock: Clock, get: Lookup, r: Record) {
    && get("schema") == Some(Str(VALUE_SCHEMA))
    && ReadPolicy(clock, get) == Some(r.policy)
    && ReadString(get("policy_id")) == Some(r.policyId)
    && ReadInstant(clock, get("registered_at")) == Some(r.registeredAt)
    && ReadString(get("registered_by_publisher")) == Some(r.registeredByPublisher)
    && ReadMarker(clock, get("unrevoke_audit_marker")) == Some(r.marker)
  }

  lemma {:induction false} PartsIff(clock: Clock, get: Lookup, r: Record)
    ensures DecodeFields(clock, get) == Some(r) <==> Parts(clock, get, r) && ValidRecord(r)
  {
  }

  lemma {:induction false} PartsAreRead(clock: Clock, get: Lookup, r: Record)
    ensures Parts(clock, get, r) <==> ReadsRecord(clock, get, r)
  {
    PolicyReadIff(clock, get, r.policy);
    MarkerReadIff(clock, get("unrevoke_audit_marker"), r.marker);
  }

  /** A payload decodes to a record exactly when it spells it, with null and absent alike for
      an optional field and any spelling of an instant, and the record is valid. */
  lemma {:induction false} DecodesIff(clock: Clock, payload: Json, r: Record)
    ensures Decode(clock, payload) == Some(r) <==>
              payload.Obj? && ReadsRecord(clock, Get(payload.members), r) && ValidRecord(r)
  {
    if payload.Obj? {
      PartsIff(clock, Get(payload.members), r);
      PartsAreRead(clock, Get(payload.members), r);
    }
  }

  /* ---------- schema entries ---------- */

  /** The bytes of an entry spell its fields under their names, the body with its keys sorted. */
  lemma {:induction false} EntrySpelled(clock: Clock, e: SchemaEntry)
    requires IsDict(Obj(e.schemaBody))
    ensures ReadBytes(EntryEnvelope(clock, e)).Some?
    ensures var get := Get(ReadBytes(EntryEnvelope(clock, e)).value);
            && get("schema") == Some(Str("wakir.wirelang.schema-registry-entry/1"))
            && get("layer") == Some(Str(e.layer))
            && get("name") == Some(Str(e.name))
            && get("version") == Some(Str(e.version))
            && get("schema_id") == Some(Str(e.schemaId))
            && get("schema_body").Some? && JsonEq(Obj(e.schemaBody), get("schema_body").value)
            && get("schema_body_sha256") == Some(Str(e.schemaBodyDigest))
            && get("registered_at") == Some(Str(clock.render(e.registeredAt)))
            && get("registered_by") == Some(Str(e.registeredBy))
            && IsText(get("supersedes"), e.supersedes)
  {
    var ms := EntryFields(clock, e);
    BytesReadBack(ms);
    EntryFieldsDistinct(clock, e);
    SortedHolds(ms);
    EntryIsHeld(clock, e, Get(Sorted(CodePoints, ms)));
    Jcs.NormIsEqualValue(CodePoints, Obj(e.schemaBody));
  }

  /* ---------- which records and keys there are ---------- */

  predicate InWindow(p: Policy, t: Instant) {
    && (p.notBefore.Some? ==> p.notBefore.value <= t)
    && (p.notAfter.Some? ==> t < p.notAfter.value)
  }

  /** A valid policy names an issuer, kids and triples, can be in force at some instant, and
      has a reason for revocation only beside an instant of revocation. */
  lemma {:induction false} ValidPolicyIff(p: Policy)
    ensures ValidPolicy(p) <==>
              && |p.registeredBy| > 0
              && |p.allowedKids| > 0 && (forall i :: 0 <= i < |p.allowedKids| ==> |p.allowedKids[i]| > 0)
              && |p.allowedTriples| > 0
              && (forall i :: 0 <= i < |p.allowedTriples| ==>
                    |p.allowedTriples[i].0| > 0 && |p.allowedTriples[i].1| > 0)
              && (exists t: Instant :: InWindow(p, t))
              && (p.revokedAt.None? ==> p.revocationReason.None?)
  {
    if ValidPolicy(p) {
      assert InWindow(p, if p.notBefore.Some? then p.notBefore.value
                         else if p.notAfter.Some? then p.notAfter.value - 1 else 0);
    }
    assert forall i :: 0 <= i < |p.allowedTriples| ==> p.allowedTriples[i] in p.allowedTriples;
    assert forall i :: 0 <= i < |p.allowedKids| ==> p.allowedKids[i] in p.allowedKids;
  }

  /** A letter or a digit, by code point. */
  predicate Alphanumeric(n: int) { 0x30 <= n <= 0x39 || 0x41 <= n <= 0x5A || 0x61 <= n <= 0x7A }

  /** One letter or digit, then letters, digits and the listed marks; a newline may follow. */
  ghost predicate Identifier(s: string, marks: set<char>) {
    exists k :: 1 <= k <= |s| && IdentifierUpTo(s, marks, k)
  }

  ghost predicate IdentifierUpTo(s: string, marks: set<char>, k: nat)
    requires 1 <= k <= |s|
  {
    && s[k..] in {"", "\n"}
    && Alphanumeric(s[0] as int)
    && forall i :: 0 < i < k ==> Alphanumeric(s[i] as int) || s[i] in marks
  }

  lemma {:induction false} MatchesIff(s: string, colon: bool)
    ensures Matches(s, colon) <==> Identifier(s, if colon then {'_', '.', '-', ':'} else {'_', '.', '-'})
  {
    var marks := if colon then {'_', '.', '-', ':'} else {'_', '.', '-'};
    if MatchesWhole(s, colon) {
      assert s[|s|..] == "";
      assert IdentifierUpTo(s, marks, |s|);
    } else if Matches(s, colon) {
      var k := |s| - 1;
      assert s[k..] == "\n" && forall i :: 0 <= i < k ==> s[..k][i] == s[i];
      assert IdentifierUpTo(s, marks, k);
    }
    if Identifier(s, marks) {
      var k :| 1 <= k <= |s| && IdentifierUpTo(s, marks, k);
      assert forall i :: 0 <= i < k ==> s[..k][i] == s[i];
      if k < |s| {
        assert s[k..][0] == '\n' && |s[k..]| == 1;
      } else {
        assert s[..k] == s;
      }
    }
  }

  lemma {:induction false} MatchHasNoSlash(s: string, colon: bool)
    requires Matches(s, colon)
    ensures '/' !in s
  {
    if !MatchesWhole(s, colon) {
      var k := |s| - 1;
      assert forall i :: 0 <= i < k ==> s[i] == s[..k][i];
    }
  }

  /** A pair has a key exactly when both parts are identifiers, the issuer's with colons
      allowed, and what the key is. */
  lemma {:induction false} PairKeyIff(registeredBy: string, policyId: string)
    ensures KeyForPair(registeredBy, policyId).Some? <==>
              Identifier(registeredBy, {'_', '.', '-', ':'}) && Identifier(policyId, {'_', '.', '-'})
    ensures KeyForPair(registeredBy, policyId).Some? ==>
              KeyForPair(registeredBy, policyId).value == "capability-policies/" + registeredBy + "/" + policyId
  {
    MatchesIff(registeredBy, true);
    MatchesIff(policyId, false);
    if Matches(registeredBy, true) { MatchHasNoSlash(registeredBy, true); }
    if Matches(policyId, false) { MatchHasNoSlash(policyId, false); }
  }
}
