/** The schema registry: entries and their keys, the write gates, the in-memory registry,
    the live snapshot, and what these inherit from the shared backend and replicator. */
module SchemaRegistry {
  import opened Common
  import opened Encodings
  import opened KeyedSort
  import opened Json
  import opened Dicts
  import opened JsonParse
  import opened Buckets
  import opened Backends
  import opened LiveViews
  import opened Replication
  import opened Convergence
  import opened Envelopes
  import Halting
  import CasProtocol
  import Jcs
  import Policies

  /** The body is a JSON object, given by its members. */
  datatype SchemaEntry = SchemaEntry(
    layer: string,
    name: string,
    version: string,
    schemaId: string,
    schemaBody: seq<Member>,
    schemaBodyDigest: string,
    registeredAt: Policies.Instant,
    registeredBy: string,
    supersedes: Option<string>)

  const ENTRY_SCHEMA := "wakir.wirelang.schema-registry-entry/1"

  const ENTRY_PREFIX := "schemas/"

  const RECOGNISED_LAYERS := {"identity", "wire", "federation"}

  /* ---------- keys ---------- */

  type Triple = (string, string, string)

  predicate Component(s: string) { s != "" && '/' !in s }

  /** key_for_triple; None where it raises ValueError. */
  function KeyForTriple(t: Triple): Option<string> {
    if Component(t.0) && Component(t.1) && Component(t.2) && t.0 in RECOGNISED_LAYERS then
      Some(ENTRY_PREFIX + t.0 + "/" + t.1 + "/" + t.2)
    else None
  }

  /** triple_for_key; None where it raises ValueError. */
  function TripleForKey(key: string): Option<Triple> {
    if !(ENTRY_PREFIX <= key) then None
    else
      var parts := Policies.Split(key[|ENTRY_PREFIX|..]);
      if |parts| != 3 || parts[0] == "" || parts[1] == "" || parts[2] == "" then None
      else Some((parts[0], parts[1], parts[2]))
  }

  lemma {:induction false} TripleRoundTrip(t: Triple)
    requires KeyForTriple(t).Some?
    ensures TripleForKey(KeyForTriple(t).value) == Some(t)
  {
    var key := KeyForTriple(t).value;
    assert key[|ENTRY_PREFIX|..] == t.0 + ("/" + (t.1 + ("/" + t.2)));
    Policies.SplitAtSlash(t.0, t.1 + ("/" + t.2));
    Policies.SplitAtSlash(t.1, t.2);
    Policies.SplitNoSlash(t.2);
    assert ENTRY_PREFIX <= key;
  }

  lemma {:induction false} JoinThree(parts: seq<string>)
    requires |parts| == 3
    ensures Policies.Join(parts) == parts[0] + "/" + (parts[1] + "/" + parts[2])
  {
    assert parts[1..] == [parts[1], parts[2]];
    assert parts[1..][1..] == [parts[2]];
    assert Policies.Join(parts[1..]) == parts[1] + "/" + parts[2];
  }

  /** A key that parses is the key of its triple exactly when its layer is recognised. */
  lemma {:induction false} KeyOfParsedTriple(key: string)
    requires TripleForKey(key).Some?
    ensures var t := TripleForKey(key).value;
            KeyForTriple(t) == if t.0 in RECOGNISED_LAYERS then Some(key) else None
  {
    var rest := key[|ENTRY_PREFIX|..];
    var parts := Policies.Split(rest);
    Policies.JoinSplit(rest);
    Policies.PartsHaveNoSlash(rest);
    assert '/' !in parts[0] && '/' !in parts[1] && '/' !in parts[2];
    JoinThree(parts);
    assert rest == parts[0] + "/" + (parts[1] + "/" + parts[2]);
    assert key == ENTRY_PREFIX + rest == ENTRY_PREFIX + parts[0] + "/" + parts[1] + "/" + parts[2];
  }

  function TripleOf(e: SchemaEntry): Triple { (e.layer, e.name, e.version) }

  /** entry.key */
  function EntryKey(e: SchemaEntry): Option<string> { KeyForTriple(TripleOf(e)) }

  /* ---------- the write gates ---------- */

  /** The bytes the body digest is taken over: keys sorted by code point. */
  function BodyBytes(body: seq<Member>): Bytes { LocalJcs(Obj(body)) }

  /** The registry documents its digest as taken over RFC 8785 bytes; it is exactly when no
      object of the body has keys that the two orders put differently. */
  lemma {:induction false} BodyBytesAreCanonicalIff(body: seq<Member>)
    requires IsDict(Obj(body))
    ensures BodyBytes(body) == Canonicalize(Obj(body)) <==> Jcs.NoConflictingKeys(Obj(body))
  {
    Jcs.PrintersAgreeIff(Obj(body));
  }

  /** The key an entry is written under once it has passed the three gates. */
  function GatedKey(digest: Bytes -> string, e: SchemaEntry): Option<string> {
    if Field(e.schemaBody, "$id") != Some(Str(e.schemaId)) then None
    else if digest(BodyBytes(e.schemaBody)) != e.schemaBodyDigest then None
    else EntryKey(e)
  }

  /** The body holds the entry's schema id under "$id", the digest is that of the body's
      bytes, the layer is one of three, and name and version are path components. */
  ghost predicate PassesGates(digest: Bytes -> string, e: SchemaEntry) {
    && (exists i :: 0 <= i < |e.schemaBody| && e.schemaBody[i] == Keyed("$id", Str(e.schemaId)))
    && e.schemaBodyDigest == digest(EncodeUtf8(Serialize(CodePoints, Obj(e.schemaBody))))
    && e.layer in {"identity", "wire", "federation"}
    && e.name != "" && (forall i :: 0 <= i < |e.name| ==> e.name[i] != '/')
    && e.version != "" && (forall i :: 0 <= i < |e.version| ==> e.version[i] != '/')
  }

  /** An entry has a key exactly when it passes the gates, and what the key is. */
  lemma {:induction false} GatedIff(digest: Bytes -> string, e: SchemaEntry)
    requires DistinctKeys(e.schemaBody)
    ensures GatedKey(digest, e).Some? <==> PassesGates(digest, e)
    ensures PassesGates(digest, e) ==>
              GatedKey(digest, e).value == "schemas/" + e.layer + "/" + e.name + "/" + e.version
  {
    var body := e.schemaBody;
    if Field(body, "$id") == Some(Str(e.schemaId)) {
      assert body[IndexOf(body, "$id")] == Keyed("$id", Str(e.schemaId));
    }
    if exists i :: 0 <= i < |body| && body[i] == Keyed("$id", Str(e.schemaId)) {
      var i :| 0 <= i < |body| && body[i] == Keyed("$id", Str(e.schemaId));
      assert IndexOf(body, "$id") == i;
    }
  }

  /** Schema writes are never refused for what they replace. */
  function SchemaRules(digest: Bytes -> string): Rules<SchemaEntry> {
    Rules(e => GatedKey(digest, e), (live, incoming) => false)
  }

  /** Stored entries of the same key are of the same triple, and the stored digest fixes
      the body up to member order, or the digest collides on the bytes of the two bodies. */
  lemma {:induction false} StoredDigestFixesBody(digest: Bytes -> string, e: SchemaEntry, f: SchemaEntry)
    requires IsDict(Obj(e.schemaBody)) && IsDict(Obj(f.schemaBody))
    requires GatedKey(digest, e).Some? && GatedKey(digest, f).Some?
    ensures JsonEq(Obj(e.schemaBody), Obj(f.schemaBody)) ==> e.schemaBodyDigest == f.schemaBodyDigest
    ensures e.schemaBodyDigest == f.schemaBodyDigest ==>
              || JsonEq(Obj(e.schemaBody), Obj(f.schemaBody))
              || (BodyBytes(e.schemaBody) != BodyBytes(f.schemaBody)
                  && digest(BodyBytes(e.schemaBody)) == digest(BodyBytes(f.schemaBody)))
    ensures GatedKey(digest, e) == GatedKey(digest, f) <==> TripleOf(e) == TripleOf(f)
  {
    Jcs.CanonicalBytesDecideEquality(CodePoints, Obj(e.schemaBody), Obj(f.schemaBody));
    TripleRoundTrip(TripleOf(e));
    TripleRoundTrip(TripleOf(f));
  }

  /* ---------- the value envelope ---------- */

  function EntryFields(clock: Clock, e: SchemaEntry): seq<Member> {
    [Keyed("schema", Str(ENTRY_SCHEMA)),
     Keyed("layer", Str(e.layer)),
     Keyed("name", Str(e.name)),
     Keyed("version", Str(e.version)),
     Keyed("schema_id", Str(e.schemaId)),
     Keyed("schema_body", Obj(e.schemaBody)),
     Keyed("schema_body_sha256", Str(e.schemaBodyDigest)),
     Keyed("registered_at", Str(clock.render(e.registeredAt))),
     Keyed("registered_by", Str(e.registeredBy)),
     Keyed("supersedes", TextOrNull(e.supersedes))]
  }

  function EntryEnvelope(clock: Clock, e: SchemaEntry): Bytes { LocalJcs(Obj(EntryFields(clock, e))) }

  function ReadMembers(v: Option<Json>): Option<seq<Member>> {
    if v.Some? && v.value.Obj? then Some(v.value.members) else None
  }

  /** None where it raises SchemaRegistryEnvelopeError. */
  function ReadEntry(clock: Clock, get: Lookup): Option<SchemaEntry> {
    if get("schema") != Some(Str(ENTRY_SCHEMA)) then None
    else
      var layer :- ReadString(get("layer"));
      var name :- ReadString(get("name"));
      var version :- ReadString(get("version"));
      var schemaId :- ReadString(get("schema_id"));
      var schemaBody :- ReadMembers(get("schema_body"));
      var digest :- ReadString(get("schema_body_sha256"));
      var registeredAt :- ReadInstant(clock, get("registered_at"));
      var registeredBy :- ReadString(get("registered_by"));
      var supersedes :- ReadText(get("supersedes"));
      Some(SchemaEntry(layer, name, version, schemaId, schemaBody, digest, registeredAt, registeredBy, supersedes))
  }

  /** The entry as it comes back from the bucket: the members of its body sorted. */
  function Stored(e: SchemaEntry): SchemaEntry { e.(schemaBody := Sorted(CodePoints, e.schemaBody)) }

  lemma {:induction false} EntryFieldsDistinct(clock: Clock, e: SchemaEntry)
    ensures DistinctKeys(EntryFields(clock, e))
  {
  }

  ghost predicate EntryHeld(clock: Clock, e: SchemaEntry, get: Lookup) {
    && get("schema") == Some(Str(ENTRY_SCHEMA))
    && get("layer") == Some(Str(e.layer))
    && get("name") == Some(Str(e.name))
    && get("version") == Some(Str(e.version))
    && get("schema_id") == Some(Str(e.schemaId))
    && get("schema_body") == Some(Obj(Sorted(CodePoints, e.schemaBody)))
    && get("schema_body_sha256") == Some(Str(e.schemaBodyDigest))
    && get("registered_at") == Some(Str(clock.render(e.registeredAt)))
    && get("registered_by") == Some(Str(e.registeredBy))
    && get("supersedes") == Some(TextOrNull(e.supersedes))
  }

  lemma {:induction false} EntryIsHeld(clock: Clock, e: SchemaEntry, get: Lookup)
    requires Envelopes.Holds(get, EntryFields(clock, e))
    ensures EntryHeld(clock, e, get)
  {
    var ms := EntryFields(clock, e);
    assert get(ms[0].key).Some? && get(ms[1].key).Some? && get(ms[2].key).Some?;
    assert get(ms[3].key).Some? && get(ms[4].key).Some?;
    assert get(ms[6].key).Some? && get(ms[7].key).Some? && get(ms[8].key).Some? && get(ms[9].key).Some?;
    assert get(ms[5].key) == Some(Norm(CodePoints, Obj(e.schemaBody)));
  }

  lemma {:induction false} EntryRead(clock: Clock, e: SchemaEntry, members: seq<Member>)
    requires Faithful(clock) && members == EntryFields(clock, e)
    ensures Norm(CodePoints, Obj(members)) == Obj(Sorted(CodePoints, members))
    ensures ReadEntry(clock, Get(Sorted(CodePoints, members))) == Some(Stored(e))
  {
    EntryFieldsDistinct(clock, e);
    SortedHolds(members);
    EntryIsHeld(clock, e, Get(Sorted(CodePoints, members)));
    HeldIsRead(clock, e, Get(Sorted(CodePoints, members)));
  }

  lemma {:induction false} HeldIsRead(clock: Clock, e: SchemaEntry, get: Lookup)
    requires Faithful(clock) && EntryHeld(clock, e, get)
    ensures ReadEntry(clock, get) == Some(Stored(e))
  {
    TextRead(e.supersedes);
  }

  /** The stored text reads back as a JSON value that decodes to the entry. */
  lemma {:induction false} EntryRoundTrip(clock: Clock, e: SchemaEntry)
    requires Faithful(clock)
    ensures var text := Serialize(CodePoints, Obj(EntryFields(clock, e)));
            var members := Sorted(CodePoints, EntryFields(clock, e));
            && ParseValue(text) == Some(Parsed(Obj(members), ""))
            && ReadEntry(clock, Get(members)) == Some(Stored(e))
  {
    EntryRead(clock, e, EntryFields(clock, e));
    var text := Serialize(CodePoints, Obj(EntryFields(clock, e)));
    Jcs.SerializeReadsBack(CodePoints, Obj(EntryFields(clock, e)), "");
    assert text + "" == text;
  }

  /** Entries are byte-equal exactly when they come back from a bucket equal. */
  lemma {:induction false} EntriesByteEqualIff(clock: Clock, e: SchemaEntry, f: SchemaEntry)
    requires Faithful(clock)
    ensures EntryEnvelope(clock, e) == EntryEnvelope(clock, f) <==> Stored(e) == Stored(f)
  {
    var v, w := Obj(EntryFields(clock, e)), Obj(EntryFields(clock, f));
    if EntryEnvelope(clock, e) == EntryEnvelope(clock, f) {
      EncodeInjective(Utf8, Serialize(CodePoints, v), Serialize(CodePoints, w));
      EntryRoundTrip(clock, e);
      EntryRoundTrip(clock, f);
    }
    if Stored(e) == Stored(f) {
      Jcs.SerializeIsPrintNorm(CodePoints, v);
      Jcs.SerializeIsPrintNorm(CodePoints, w);
      SameNormalMembers(clock, e, f);
    }
  }

  lemma {:induction false} SameNormalMembers(clock: Clock, e: SchemaEntry, f: SchemaEntry)
    requires Stored(e) == Stored(f)
    ensures NormValues(CodePoints, EntryFields(clock, e)) == NormValues(CodePoints, EntryFields(clock, f))
  {
    var m := Keyed("schema_body", Obj(f.schemaBody));
    assert Norm(CodePoints, Obj(e.schemaBody)) == Norm(CodePoints, m.value);
    SameNormalValue(EntryFields(clock, e), 5, m);
    assert EntryFields(clock, f) == EntryFields(clock, e)[5 := m];
  }

  lemma {:induction false} SameNormalValue(members: seq<Member>, i: nat, m: Member)
    requires i < |members| && m.key == members[i].key && Norm(CodePoints, m.value) == Norm(CodePoints, members[i].value)
    ensures NormValues(CodePoints, members[i := m]) == NormValues(CodePoints, members)
  {
  }

  /* ---------- the in-memory registry and the live snapshot ---------- */

  ghost predicate SelfKeyed(entries: map<string, SchemaEntry>) {
    forall key :: key in entries ==> EntryKey(entries[key]) == Some(key)
  }

  /** Every entry of the first map, or another one of the same triple, is in the second under
      its own key. */
  ghost predicate Rekeyed(from: map<string, SchemaEntry>, to: map<string, SchemaEntry>) {
    && SelfKeyed(to)
    && (forall k :: k in from ==> EntryKey(from[k]).Some? && EntryKey(from[k]).value in to)
    && (forall key :: key in to ==> HoldsEntry(from, to[key]))
  }

  ghost predicate HoldsEntry(entries: map<string, SchemaEntry>, e: SchemaEntry) {
    exists k :: k in entries && entries[k] == e
  }

  lemma {:induction false} RekeyedSame(from: map<string, SchemaEntry>, to: map<string, SchemaEntry>)
    requires Rekeyed(from, to) && SelfKeyed(from)
    ensures to == from
  {
    forall key | key in to ensures key in from && from[key] == to[key] {
      var k :| k in from && from[k] == to[key];
    }
  }

  lemma {:induction false} RekeyedAdd(
      from: map<string, SchemaEntry>, to: map<string, SchemaEntry>, k: string, e: SchemaEntry)
    requires Rekeyed(from, to) && k !in from && EntryKey(e).Some?
    ensures Rekeyed(from[k := e], to[EntryKey(e).value := e])
  {
    var from', to' := from[k := e], to[EntryKey(e).value := e];
    forall key | key in to' ensures HoldsEntry(from', to'[key]) {
      if key == EntryKey(e).value {
        assert from'[k] == to'[key];
      } else {
        var k' :| k' in from && from[k'] == to[key];
        assert from'[k'] == to'[key];
      }
    }
  }

  class InMemorySchemaRegistry {
    var entries: map<string, SchemaEntry>

    constructor ()
      ensures entries == map[]
    {
      entries := map[];
    }

    /** False where the key derivation raises. */
    method Add(e: SchemaEntry) returns (ok: bool)
      modifies this
      ensures ok <==> EntryKey(e).Some?
      ensures entries == if ok then old(entries)[EntryKey(e).value := e] else old(entries)
      ensures SelfKeyed(old(entries)) ==> SelfKeyed(entries)
    {
      var key := EntryKey(e);
      if key.None? { return false; }
      entries := entries[key.value := e];
      return true;
    }

    /** Adds every entry of another registry; false at the first whose key derivation raises. */
    method AddAll(others: map<string, SchemaEntry>) returns (ok: bool)
      requires entries == map[]
      modifies this
      ensures ok <==> forall k :: k in others ==> EntryKey(others[k]).Some?
      ensures ok ==> Rekeyed(others, entries)
    {
      var rest := others.Keys;
      ghost var done: map<string, SchemaEntry> := map[];
      while rest != {}
        invariant rest <= others.Keys && done.Keys == others.Keys - rest
        invariant forall k :: k in done ==> done[k] == others[k]
        invariant Rekeyed(done, entries)
        decreases |rest|
      {
        var k :| k in rest;
        ghost var before := entries;
        var added := Add(others[k]);
        if !added { return false; }
        RekeyedAdd(done, before, k, others[k]);
        rest, done := rest - {k}, done[k := others[k]];
      }
      assert done == others;
      return true;
    }

    method KeysSorted() returns (keys: seq<string>)
      ensures IncreasingStrings(CodePoints, keys)
      ensures forall key :: key in keys <==> key in entries
    {
      keys := KeyList(entries);
      SortStringsProperties(CodePoints, keys);
      keys := SortStrings(CodePoints, keys);
    }
  }

  class LiveSchemaSnapshot {
    const live: InMemorySchemaRegistry
    var lastRevision: nat

    ghost predicate Valid()
      reads live
    {
      SelfKeyed(live.entries)
    }

    constructor (live: InMemorySchemaRegistry)
      ensures this.live == live && lastRevision == 0
    {
      this.live, lastRevision := live, 0;
    }

    /** Copies the initial registry entry by entry, under the entries' own keys; None where
        the key derivation of an entry raises. */
    static method Of(initial: InMemorySchemaRegistry) returns (r: Option<LiveSchemaSnapshot>)
      ensures r.Some? <==> forall k :: k in initial.entries ==> EntryKey(initial.entries[k]).Some?
      ensures r.Some? ==> fresh(r.value) && fresh(r.value.live) && r.value.Valid() && r.value.lastRevision == 0
      ensures r.Some? ==> Rekeyed(initial.entries, r.value.live.entries)
      ensures r.Some? && SelfKeyed(initial.entries) ==> r.value.live.entries == initial.entries
    {
      var copy := new InMemorySchemaRegistry();
      var ok := copy.AddAll(initial.entries);
      if !ok { return None; }
      if SelfKeyed(initial.entries) { RekeyedSame(initial.entries, copy.entries); }
      var snapshot := new LiveSchemaSnapshot(copy);
      return Some(snapshot);
    }

    /** False where the key of a PUT entry cannot be derived. */
    method Apply(e: Event<SchemaEntry>, revision: nat) returns (ok: bool)
      requires Valid()
      modifies this, live
      ensures Valid() && (ok <==> (e.Put? ==> EntryKey(e.record).Some?))
      ensures !ok ==> live.entries == old(live.entries) && lastRevision == old(lastRevision)
      ensures ok ==> lastRevision == if revision > old(lastRevision) then revision else old(lastRevision)
      ensures ok && e.Delete? ==> live.entries == old(live.entries) - {e.key}
      ensures ok && e.Put? ==> live.entries == old(live.entries)[EntryKey(e.record).value := e.record]
      ensures (e.Put? ==> EntryKey(e.record) == Some(e.key)) ==> live.entries == ApplyEvent(old(live.entries), e)
    {
      if e.Put? {
        ok := live.Add(e.record);
        if !ok { return; }
      } else {
        live.entries := live.entries - {e.key};
      }
      if revision > lastRevision { lastRevision := revision; }
      return true;
    }

    /** A frozen copy: a new object, which no later Apply may modify. */
    method AsRegistry() returns (frozen: InMemorySchemaRegistry)
      requires Valid()
      ensures fresh(frozen) && frozen.entries == live.entries
    {
      frozen := new InMemorySchemaRegistry();
      var _ := frozen.AddAll(live.entries);
      RekeyedSame(live.entries, frozen.entries);
    }
  }

  /* ---------- what the schema registry inherits ---------- */

  /** Every interleaving of schema writers keeps each entry under its own key. */
  lemma {:induction false} SchemaWritersKeepKeys(digest: Bytes -> string, actions: seq<CasProtocol.Action<SchemaEntry>>)
    ensures WellKeyed(SchemaRules(digest), CasProtocol.Run(SchemaRules(digest), CasProtocol.Start(), actions).history)
  {
    assert NonEmptyKeys(SchemaRules(digest));
    CasProtocol.RunKeepsWellKeyed(SchemaRules(digest), CasProtocol.Start(), actions);
  }

  /** Every entry that any interleaving of schema writers leaves anywhere in the history has
      passed the gates. */
  lemma {:induction false} StoredEntriesPassGates(
      digest: Bytes -> string, actions: seq<CasProtocol.Action<SchemaEntry>>, i: nat)
    requires var h := CasProtocol.Run(SchemaRules(digest), CasProtocol.Start(), actions).history;
             i < |h| && h[i].Put? && DistinctKeys(h[i].record.schemaBody)
    ensures var h := CasProtocol.Run(SchemaRules(digest), CasProtocol.Start(), actions).history;
            var e := h[i].record;
            PassesGates(digest, e) && h[i].key == "schemas/" + e.layer + "/" + e.name + "/" + e.version
  {
    var h := CasProtocol.Run(SchemaRules(digest), CasProtocol.Start(), actions).history;
    SchemaWritersKeepKeys(digest, actions);
    assert SchemaRules(digest).keyOf(h[i].record) == GatedKey(digest, h[i].record);
    GatedIff(digest, h[i].record);
  }

  lemma {:induction false} SchemasSettle(digest: Bytes -> string, h: seq<Event<SchemaEntry>>)
    ensures Settles(SchemaRules(digest), h)
  {
  }

  /** Schema replication converges from every source history, with no condition on it. */
  lemma {:induction false} SchemasConverge(
      c: Config<SchemaEntry>, digest: Bytes -> string, m: Metrics, h: seq<Event<SchemaEntry>>,
      listed: nat, cut: string -> nat, items: seq<Keyed<SchemaEntry>>, j: nat)
    requires c.rules == SchemaRules(digest) && AcceptsAll(c) && WellKeyed(c.rules, h)
    requires j <= listed <= |h| && StaggeredSnapshot(h, listed, cut, items)
    ensures Reaches(c, m, h, items, j)
  {
    SchemasSettle(digest, h);
    ReplicationConverges(c, m, h, listed, cut, items, j);
    Halting.UnrefusedRunsFinish(c, m, h, listed, cut, items, j);
  }
}
