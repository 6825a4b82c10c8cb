/** The JSON envelope a policy record is stored as, and the proof that decoding undoes
    encoding: records with equal bytes are equal records. */
module Envelopes {
  import opened Common
  import opened Encodings
  import opened KeyedSort
  import opened Json
  import opened Dicts
  import opened JsonParse
  import opened Policies
  import Jcs

  const VALUE_SCHEMA := "wakir.wirelang.capability-policy-entry/1"

  /** RFC 3339 rendering and parsing of instants, left to the library. */
  datatype Clock = Clock(render: Instant -> string, parse: string -> Option<Instant>)

  ghost predicate Faithful(clock: Clock) { forall t :: clock.parse(clock.render(t)) == Some(t) }

  /* ---------- encoding ---------- */

  function TextOrNull(s: Option<string>): Json { if s.Some? then Str(s.value) else Null }

  function InstantOrNull(clock: Clock, t: Option<Instant>): Json {
    if t.Some? then Str(clock.render(t.value)) else Null
  }

  function Texts(xs: seq<string>): seq<Json> { seq(|xs|, i requires 0 <= i < |xs| => Str(xs[i])) }

  function Pairs(ts: seq<(string, string)>): seq<Json> {
    seq(|ts|, i requires 0 <= i < |ts| => Arr([Str(ts[i].0), Str(ts[i].1)]))
  }

  function MarkerFields(clock: Clock, m: Marker): seq<Member> {
    [Keyed("unrevoke_reason", TextOrNull(m.unrevokeReason)),
     Keyed("previous_revoked_at", Str(clock.render(m.previousRevokedAt))),
     Keyed("previous_revocation_reason", TextOrNull(m.previousRevocationReason))]
  }

  /** The payload dict, in the order it is filled. */
  function Fields(clock: Clock, r: Record): seq<Member> {
    var p := r.policy;
    [Keyed("schema", Str(VALUE_SCHEMA)),
     Keyed("registered_by", Str(p.registeredBy)),
     Keyed("policy_id", Str(r.policyId)),
     Keyed("allowed_kids", Arr(Texts(p.allowedKids))),
     Keyed("allowed_triples", Arr(Pairs(p.allowedTriples))),
     Keyed("not_before", InstantOrNull(clock, p.notBefore)),
     Keyed("not_after", InstantOrNull(clock, p.notAfter)),
     Keyed("disabled", Bool(p.disabled)),
     Keyed("note", TextOrNull(p.note)),
     Keyed("revoked_at", InstantOrNull(clock, p.revokedAt)),
     Keyed("revocation_reason", TextOrNull(p.revocationReason)),
     Keyed("registered_at", Str(clock.render(r.registeredAt))),
     Keyed("registered_by_publisher", Str(r.registeredByPublisher))]
    + (if r.marker.Some? then [Keyed("unrevoke_audit_marker", Obj(MarkerFields(clock, r.marker.value)))] else [])
  }

  /** json.dumps with sorted keys and compact separators. */
  function EnvelopeText(clock: Clock, r: Record): string { Serialize(CodePoints, Obj(Fields(clock, r))) }

  function Envelope(clock: Clock, r: Record): Bytes { EncodeUtf8(EnvelopeText(clock, r)) }

  /* ---------- decoding; None where it raises CapabilityPolicyEnvelopeError ---------- */

  function ReadString(v: Option<Json>): Option<string> {
    if v.Some? && v.value.Str? then Some(v.value.s) else None
  }

  /** A string, null or absent. */
  function ReadText(v: Option<Json>): Option<Option<string>> {
    if v.None? || v.value.Null? then Some(None)
    else if v.value.Str? then Some(Some(v.value.s)) else None
  }

  function ReadInstant(clock: Clock, v: Option<Json>): Option<Instant> {
    var s :- ReadString(v);
    clock.parse(s)
  }

  /** An instant, null or absent. */
  function ReadInstantOrNull(clock: Clock, v: Option<Json>): Option<Option<Instant>> {
    if v.None? || v.value.Null? then Some(None)
    else
      var t :- ReadInstant(clock, v);
      Some(Some(t))
  }

  function ReadTexts(v: Option<Json>): Option<seq<string>> {
    if v.Some? && v.value.Arr? && forall i | 0 <= i < |v.value.items| :: v.value.items[i].Str? then
      Some(seq(|v.value.items|, i requires 0 <= i < |v.value.items| => v.value.items[i].s))
    else None
  }

  predicate IsPair(v: Json) { v.Arr? && |v.items| == 2 && v.items[0].Str? && v.items[1].Str? }

  function ReadPairs(v: Option<Json>): Option<seq<(string, string)>> {
    if v.Some? && v.value.Arr? && forall i | 0 <= i < |v.value.items| :: IsPair(v.value.items[i]) then
      var items := v.value.items;
      Some(seq(|items|, i requires 0 <= i < |items| => (items[i].items[0].s, items[i].items[1].s)))
    else None
  }

  function ReadMarkerFields(clock: Clock, get: Lookup): Option<Marker> {
    var reason, prior := get("unrevoke_reason"), get("previous_revocation_reason");
    if reason.None? || prior.None? then None
    else
      var unrevokeReason :- ReadText(reason);
      var previousRevokedAt :- ReadInstant(clock, get("previous_revoked_at"));
      var previousRevocationReason :- ReadText(prior);
      Some(Marker(unrevokeReason, previousRevokedAt, previousRevocationReason))
  }

  function ReadMarker(clock: Clock, v: Option<Json>): Option<Option<Marker>> {
    if v.None? || v.value.Null? then Some(None)
    else if !v.value.Obj? then None
    else
      var m :- ReadMarkerFields(clock, Get(v.value.members));
      Some(Some(m))
  }

  function ReadBool(v: Option<Json>): Option<bool> {
    if v.Some? && v.value.Bool? then Some(v.value.b) else None
  }

  function ReadPolicy(clock: Clock, get: Lookup): Option<Policy> {
    var registeredBy :- ReadString(get("registered_by"));
    var allowedKids :- ReadTexts(get("allowed_kids"));
    var allowedTriples :- ReadPairs(get("allowed_triples"));
    var notBefore :- ReadInstantOrNull(clock, get("not_before"));
    var notAfter :- ReadInstantOrNull(clock, get("not_after"));
    var disabled :- ReadBool(get("disabled"));
    var note :- ReadText(get("note"));
    var revokedAt :- ReadInstantOrNull(clock, get("revoked_at"));
    var revocationReason :- ReadText(get("revocation_reason"));
    Some(Policy(registeredBy, allowedKids, allowedTriples, notBefore, notAfter, disabled, note,
                revokedAt, revocationReason))
  }

  function DecodeFields(clock: Clock, get: Lookup): (r: Option<Record>)
    ensures r.Some? ==> ValidRecord(r.value)
  {
    if get("schema") != Some(Str(VALUE_SCHEMA)) then None
    else
      var policy :- ReadPolicy(clock, get);
      var policyId :- ReadString(get("policy_id"));
      var registeredAt :- ReadInstant(clock, get("registered_at"));
      var publisher :- ReadString(get("registered_by_publisher"));
      var marker :- ReadMarker(clock, get("unrevoke_audit_marker"));
      var record := Record(policy, policyId, registeredAt, publisher, marker);
      if ValidRecord(record) then Some(record) else None
  }

  /** From the parsed JSON value. */
  function Decode(clock: Clock, payload: Json): (r: Option<Record>)
    ensures r.Some? ==> ValidRecord(r.value)
  {
    if payload.Obj? then DecodeFields(clock, Get(payload.members)) else None
  }

  /* ---------- looking fields up in the sorted payload ---------- */

  /** Fields are found by name, whatever the order they are stored in. */
  ghost predicate Holds(get: Lookup, members: seq<Member>) {
    forall i :: 0 <= i < |members| ==> get(members[i].key) == Some(Norm(CodePoints, members[i].value))
  }

  ghost predicate Lacks(get: Lookup, members: seq<Member>, key: string) {
    (forall i :: 0 <= i < |members| ==> members[i].key != key) ==> get(key) == None
  }

  lemma {:induction false} SortedHolds(members: seq<Member>)
    requires DistinctKeys(members)
    ensures Holds(Get(Sorted(CodePoints, members)), members)
    ensures forall key :: Lacks(Get(Sorted(CodePoints, members)), members, key)
    ensures Norm(CodePoints, Obj(members)) == Obj(Sorted(CodePoints, members))
  {
    var sorted := Sorted(CodePoints, members);
    forall i | 0 <= i < |members| ensures Get(sorted)(members[i].key) == Some(Norm(CodePoints, members[i].value)) {
      SortedLookup(CodePoints, members, members[i].key);
    }
    forall key ensures Lacks(Get(sorted), members, key) {
      SortedLookup(CodePoints, members, key);
    }
  }

  lemma {:induction false} FieldsDistinct(clock: Clock, r: Record)
    ensures DistinctKeys(Fields(clock, r))
  {
  }

  lemma {:induction false} MarkerFieldsDistinct(clock: Clock, m: Marker)
    ensures DistinctKeys(MarkerFields(clock, m))
  {
  }

  /* ---------- the round trip ---------- */

  lemma {:induction false} TextsRead(xs: seq<string>)
    ensures Norm(CodePoints, Arr(Texts(xs))) == Arr(Texts(xs))
    ensures ReadTexts(Some(Arr(Texts(xs)))) == Some(xs)
  {
    assert NormItems(CodePoints, Texts(xs)) == Texts(xs);
    assert ReadTexts(Some(Arr(Texts(xs)))).value == xs;
  }

  lemma {:induction false} PairsRead(ts: seq<(string, string)>)
    ensures Norm(CodePoints, Arr(Pairs(ts))) == Arr(Pairs(ts))
    ensures ReadPairs(Some(Arr(Pairs(ts)))) == Some(ts)
  {
    forall i | 0 <= i < |ts| ensures Norm(CodePoints, Pairs(ts)[i]) == Pairs(ts)[i] {
      assert NormItems(CodePoints, Pairs(ts)[i].items) == Pairs(ts)[i].items;
    }
    assert NormItems(CodePoints, Pairs(ts)) == Pairs(ts);
    assert ReadPairs(Some(Arr(Pairs(ts)))).value == ts;
  }

  lemma {:induction false} InstantRead(clock: Clock, t: Option<Instant>)
    requires Faithful(clock)
    ensures ReadInstantOrNull(clock, Some(InstantOrNull(clock, t))) == Some(t)
    ensures Norm(CodePoints, InstantOrNull(clock, t)) == InstantOrNull(clock, t)
  {
    if t.Some? {
      var at: Instant := t.value;
      assert clock.parse(clock.render(at)) == Some(at);
    }
  }

  lemma {:induction false} TextRead(s: Option<string>)
    ensures ReadText(Some(TextOrNull(s))) == Some(s)
    ensures Norm(CodePoints, TextOrNull(s)) == TextOrNull(s)
  {
  }

  lemma {:induction false} MarkerRead(clock: Clock, m: Marker, get: Lookup)
    requires Faithful(clock) && Holds(get, MarkerFields(clock, m))
    ensures ReadMarkerFields(clock, get) == Some(m)
  {
    var ms := MarkerFields(clock, m);
    TextRead(m.unrevokeReason);
    TextRead(m.previousRevocationReason);
    assert get(ms[0].key) == Some(TextOrNull(m.unrevokeReason));
    assert get(ms[1].key) == Some(Str(clock.render(m.previousRevokedAt)));
    assert get(ms[2].key) == Some(TextOrNull(m.previousRevocationReason));
  }

  /** The policy part of the payload, by name. */
  ghost predicate PolicyHeld(clock: Clock, p: Policy, get: Lookup) {
    && get("registered_by") == Some(Str(p.registeredBy))
    && get("allowed_kids") == Some(Arr(Texts(p.allowedKids)))
    && get("allowed_triples") == Some(Arr(Pairs(p.allowedTriples)))
    && get("not_before") == Some(InstantOrNull(clock, p.notBefore))
    && get("not_after") == Some(InstantOrNull(clock, p.notAfter))
    && get("disabled") == Some(Bool(p.disabled))
    && get("note") == Some(TextOrNull(p.note))
    && get("revoked_at") == Some(InstantOrNull(clock, p.revokedAt))
    && get("revocation_reason") == Some(TextOrNull(p.revocationReason))
  }

  lemma {:induction false} PolicyIsHeld(clock: Clock, r: Record, get: Lookup)
    requires Holds(get, Fields(clock, r))
    ensures PolicyHeld(clock, r.policy, get)
  {
    var ms, p := Fields(clock, r), r.policy;
    TextsRead(p.allowedKids);
    PairsRead(p.allowedTriples);
    assert get(ms[1].key).Some? && get(ms[3].key).Some? && get(ms[4].key).Some?;
    assert get(ms[5].key).Some? && get(ms[6].key).Some?;
    assert get(ms[7].key).Some? && get(ms[8].key).Some? && get(ms[9].key).Some? && get(ms[10].key).Some?;
  }

  lemma {:induction false} PolicyRead(clock: Clock, p: Policy, get: Lookup)
    requires Faithful(clock) && PolicyHeld(clock, p, get)
    ensures ReadPolicy(clock, get) == Some(p)
  {
    TextsRead(p.allowedKids);
    PairsRead(p.allowedTriples);
    InstantRead(clock, p.notBefore);
    InstantRead(clock, p.notAfter);
    InstantRead(clock, p.revokedAt);
    TextRead(p.note);
    TextRead(p.revocationReason);
  }

  lemma {:induction false} MarkerFieldRead(clock: Clock, r: Record, get: Lookup)
    requires Faithful(clock) && Holds(get, Fields(clock, r)) && Lacks(get, Fields(clock, r), "unrevoke_audit_marker")
    ensures ReadMarker(clock, get("unrevoke_audit_marker")) == Some(r.marker)
  {
    var ms := Fields(clock, r);
    if r.marker.Some? {
      MarkerHeld(clock, r, get);
      MarkerObjectRead(clock, r.marker.value);
    } else {
      assert forall i :: 0 <= i < |ms| ==> ms[i].key != "unrevoke_audit_marker";
    }
  }

  lemma {:induction false} MarkerHeld(clock: Clock, r: Record, get: Lookup)
    requires r.marker.Some? && Holds(get, Fields(clock, r))
    ensures get("unrevoke_audit_marker") == Some(Norm(CodePoints, Obj(MarkerFields(clock, r.marker.value))))
  {
    var m := Fields(clock, r)[13];
    assert m.key == "unrevoke_audit_marker" && m.value == Obj(MarkerFields(clock, r.marker.value));
    assert get(m.key) == Some(Norm(CodePoints, m.value));
  }

  lemma {:induction false} MarkerObjectRead(clock: Clock, m: Marker)
    requires Faithful(clock)
    ensures ReadMarker(clock, Some(Norm(CodePoints, Obj(MarkerFields(clock, m))))) == Some(Some(m))
  {
    var fields := MarkerFields(clock, m);
    MarkerFieldsDistinct(clock, m);
    SortedHolds(fields);
    MarkerRead(clock, m, Get(Sorted(CodePoints, fields)));
  }

  lemma {:induction false} RecordRead(clock: Clock, r: Record, get: Lookup)
    requires Faithful(clock) && ValidRecord(r)
    requires Holds(get, Fields(clock, r)) && Lacks(get, Fields(clock, r), "unrevoke_audit_marker")
    ensures DecodeFields(clock, get) == Some(r)
  {
    var ms := Fields(clock, r);
    assert get(ms[0].key) == Some(Str(VALUE_SCHEMA));
    assert get(ms[2].key) == Some(Str(r.policyId));
    assert get(ms[11].key) == Some(Str(clock.render(r.registeredAt)));
    assert get(ms[12].key) == Some(Str(r.registeredByPublisher));
    PolicyIsHeld(clock, r, get);
    PolicyRead(clock, r.policy, get);
    MarkerFieldRead(clock, r, get);
  }

  /** The stored text reads back as a JSON value that decodes to the record. */
  lemma {:induction false} EnvelopeRoundTrip(clock: Clock, r: Record)
    requires Faithful(clock) && ValidRecord(r)
    ensures var payload := Norm(CodePoints, Obj(Fields(clock, r)));
            && ParseValue(EnvelopeText(clock, r)) == Some(Parsed(payload, ""))
            && Decode(clock, payload) == Some(r)
  {
    Jcs.SerializeReadsBack(CodePoints, Obj(Fields(clock, r)), "");
    assert EnvelopeText(clock, r) + "" == EnvelopeText(clock, r);
    PayloadRead(clock, r, Fields(clock, r));
  }

  lemma {:induction false} PayloadRead(clock: Clock, r: Record, members: seq<Member>)
    requires Faithful(clock) && ValidRecord(r) && members == Fields(clock, r)
    ensures Decode(clock, Norm(CodePoints, Obj(members))) == Some(r)
  {
    FieldsDistinct(clock, r);
    SortedHolds(members);
    var get := Get(Sorted(CodePoints, members));
    assert Lacks(get, members, "unrevoke_audit_marker");
    RecordRead(clock, r, get);
  }

  /** Byte-equal envelopes are equal records, so the replicators' comparison of bytes is a
      comparison of records. */
  lemma {:induction false} ByteEqualMeansEqual(clock: Clock, r: Record, s: Record)
    requires Faithful(clock) && ValidRecord(r) && ValidRecord(s)
    ensures Envelope(clock, r) == Envelope(clock, s) <==> r == s
  {
    if Envelope(clock, r) == Envelope(clock, s) {
      EncodeInjective(Utf8, EnvelopeText(clock, r), EnvelopeText(clock, s));
      EnvelopeRoundTrip(clock, r);
      EnvelopeRoundTrip(clock, s);
    }
  }

  /** Whatever decodes, however it was written, is stored again as something that decodes
      to the same record. */
  lemma {:induction false} ReencodingIsStable(clock: Clock, payload: Json)
    requires Faithful(clock) && Decode(clock, payload).Some?
    ensures var r := Decode(clock, payload).value;
            Decode(clock, Norm(CodePoints, Obj(Fields(clock, r)))) == Some(r)
  {
    EnvelopeRoundTrip(clock, Decode(clock, payload).value);
  }

  const OPTIONAL_FIELDS := {
    "not_before", "not_after", "note", "revoked_at", "revocation_reason", "unrevoke_audit_marker"
  }

  /** Envelopes from before a field existed decode as if the field were null. */
  lemma {:induction false} AbsentIsNull(clock: Clock, ms: seq<Member>, key: string)
    requires key in OPTIONAL_FIELDS && Field(ms, key) == None
    ensures Decode(clock, Obj([Keyed(key, Null)] + ms)) == Decode(clock, Obj(ms))
  {
    var ms' := [Keyed(key, Null)] + ms;
    forall k ensures Get(ms')(k) == if k == key then Some(Null) else Get(ms)(k) {
      assert ms'[1..] == ms;
    }
    PolicyIgnoresNull(clock, Get(ms'), Get(ms), key);
    RecordIgnoresNull(clock, Get(ms'), Get(ms), key);
  }

  lemma {:induction false} PolicyIgnoresNull(clock: Clock, get': Lookup, get: Lookup, key: string)
    requires key in OPTIONAL_FIELDS && get(key) == None
    requires forall k :: get'(k) == if k == key then Some(Null) else get(k)
    ensures ReadPolicy(clock, get') == ReadPolicy(clock, get)
  {
    assert get'("registered_by") == get("registered_by") && get'("allowed_kids") == get("allowed_kids");
    assert get'("allowed_triples") == get("allowed_triples") && get'("disabled") == get("disabled");
    assert ReadInstantOrNull(clock, get'("not_before")) == ReadInstantOrNull(clock, get("not_before"));
    assert ReadInstantOrNull(clock, get'("not_after")) == ReadInstantOrNull(clock, get("not_after"));
    assert ReadText(get'("note")) == ReadText(get("note"));
    assert ReadInstantOrNull(clock, get'("revoked_at")) == ReadInstantOrNull(clock, get("revoked_at"));
    assert ReadText(get'("revocation_reason")) == ReadText(get("revocation_reason"));
  }

  lemma {:induction false} RecordIgnoresNull(clock: Clock, get': Lookup, get: Lookup, key: string)
    requires key in OPTIONAL_FIELDS && get(key) == None
    requires forall k :: get'(k) == if k == key then Some(Null) else get(k)
    requires ReadPolicy(clock, get') == ReadPolicy(clock, get)
    ensures DecodeFields(clock, get') == DecodeFields(clock, get)
  {
    assert get'("schema") == get("schema") && get'("policy_id") == get("policy_id");
    assert get'("registered_at") == get("registered_at");
    assert get'("registered_by_publisher") == get("registered_by_publisher");
    assert ReadMarker(clock, get'("unrevoke_audit_marker")) == ReadMarker(clock, get("unrevoke_audit_marker"));
  }
}
