/** The watch-stream observers: the live snapshot of the policy bucket and the classifier
    of revocation events. */
module Classifier {
  import opened Common
  import opened Buckets
  import opened LiveViews
  import opened Policies

  datatype Kind =
    | NotRevocationRelated
    | RevocationTransition
    | RevocationRefresh
    | MonotonicBreach
    | KeyRemoved
    | ExplicitUnrevoke

  datatype Classified = Classified(
    kind: Kind,
    priorRevokedAt: Option<Instant>,
    currentRevokedAt: Option<Instant>,
    currentReason: Option<string>)

  /** The decision table, given the last instant seen for the key. */
  function KindOf(prior: Option<Instant>, e: Event<Record>): Kind {
    match e
    case Delete(_, _) => KeyRemoved
    case Put(_, record) =>
      var incoming := record.policy.revokedAt;
      if prior.None? then
        if incoming.None? then NotRevocationRelated else RevocationTransition
      else if incoming.None? then
        if record.marker.Some? && record.marker.value.previousRevokedAt == prior.value then ExplicitUnrevoke
        else MonotonicBreach
      else if incoming == prior then RevocationRefresh
      else MonotonicBreach
  }

  type Instants = map<string, Option<Instant>>
  type Entries = map<string, Record>

  function Prior(m: Instants, key: string): Option<Instant> {
    if key in m then m[key] else None
  }

  /** What one event does to the classifier's map. */
  function ObserveEvent(m: Instants, e: Event<Record>): Instants {
    if e.Put? then m[e.key := e.record.policy.revokedAt] else m - {e.key}
  }

  function ObserveAll(m: Instants, events: seq<Event<Record>>): Instants
    decreases |events|
  {
    if events == [] then m else ObserveAll(ObserveEvent(m, events[0]), events[1..])
  }

  /** The revocation instants of a snapshot. */
  function Projection(m: Entries): Instants {
    map key | key in m :: m[key].policy.revokedAt
  }

  class RevocationEventClassifier {
    var revokedAtByKey: Instants

    constructor ()
      ensures revokedAtByKey == map[]
    {
      revokedAtByKey := map[];
    }

    /** Seeds the map from records; raises at one without a key, with the earlier ones seeded. */
    method SeedFromRecords(records: seq<Record>) returns (ok: bool)
      modifies this
      ensures ok <==> FirstUnkeyed(records) == |records|
      ensures revokedAtByKey == SeedInstants(old(revokedAtByKey), records[..FirstUnkeyed(records)])
    {
      for i := 0 to |records|
        invariant forall k :: 0 <= k < i ==> KeyOf(records[k]).Some?
        invariant revokedAtByKey == SeedInstants(old(revokedAtByKey), records[..i])
      {
        var key := KeyOf(records[i]);
        if key.None? {
          FirstUnkeyedFrom(records, i);
          return false;
        }
        SeedNext(old(revokedAtByKey), records, i);
        revokedAtByKey := revokedAtByKey[key.value := records[i].policy.revokedAt];
      }
      FirstUnkeyedFrom(records, |records|);
      return true;
    }

    method Classify(e: Event<Record>) returns (c: Classified)
      modifies this
      ensures revokedAtByKey == ObserveEvent(old(revokedAtByKey), e)
      ensures c.kind == KindOf(Prior(old(revokedAtByKey), e.key), e)
      ensures c.priorRevokedAt == Prior(old(revokedAtByKey), e.key)
      ensures e.Put? ==> c.currentRevokedAt == e.record.policy.revokedAt
      ensures e.Put? ==> c.currentReason == e.record.policy.revocationReason
      ensures e.Delete? ==> c.currentRevokedAt == None && c.currentReason == None
    {
      var prior := Prior(revokedAtByKey, e.key);
      if e.Delete? {
        revokedAtByKey := revokedAtByKey - {e.key};
        return Classified(KeyRemoved, prior, None, None);
      }
      var incoming := e.record.policy.revokedAt;
      var kind: Kind;
      if prior == None {
        kind := if incoming == None then NotRevocationRelated else RevocationTransition;
      } else if incoming == None {
        var marker := e.record.marker;
        kind := if marker.Some? && marker.value.previousRevokedAt == prior.value then ExplicitUnrevoke
                else MonotonicBreach;
      } else {
        kind := if incoming == prior then RevocationRefresh else MonotonicBreach;
      }
      revokedAtByKey := revokedAtByKey[e.key := incoming];
      return Classified(kind, prior, incoming, e.record.policy.revocationReason);
    }
  }

  /** Where seeding stops: at the first record without a key, or at the end. */
  function FirstUnkeyed(records: seq<Record>): (n: nat)
    ensures n <= |records|
  {
    if records == [] || KeyOf(records[0]).None? then 0 else 1 + FirstUnkeyed(records[1..])
  }

  lemma {:induction false} FirstUnkeyedFrom(records: seq<Record>, i: nat)
    requires i <= |records| && forall k :: 0 <= k < i ==> KeyOf(records[k]).Some?
    ensures i <= FirstUnkeyed(records)
    ensures i < |records| && KeyOf(records[i]).None? ==> FirstUnkeyed(records) == i
  {
    if i > 0 { FirstUnkeyedFrom(records[1..], i - 1); }
  }

  function SeedInstants(m: Instants, records: seq<Record>): Instants {
    if records == [] then m
    else
      var n := |records| - 1;
      var seeded, key := SeedInstants(m, records[..n]), KeyOf(records[n]);
      if key.Some? then seeded[key.value := records[n].policy.revokedAt] else seeded
  }

  lemma {:induction false} SeedNext(m: Instants, records: seq<Record>, i: nat)
    requires i < |records| && KeyOf(records[i]).Some?
    ensures SeedInstants(m, records[..i + 1])
         == SeedInstants(m, records[..i])[KeyOf(records[i]).value := records[i].policy.revokedAt]
  {
    assert records[..i + 1][..i] == records[..i];
  }

  function SeedEntries(m: Entries, records: seq<Record>): Entries {
    if records == [] then m
    else
      var n := |records| - 1;
      var seeded, key := SeedEntries(m, records[..n]), KeyOf(records[n]);
      if key.Some? then seeded[key.value := records[n]] else seeded
  }

  class LiveCapabilityPolicySnapshot {
    var live: Entries
    var lastRevision: nat

    constructor (initial: seq<Record>)
      requires forall i :: 0 <= i < |initial| ==> KeyOf(initial[i]).Some?
      ensures live == SeedEntries(map[], initial) && lastRevision == 0
    {
      live := map[];
      lastRevision := 0;
      new;
      for i := 0 to |initial|
        invariant lastRevision == 0
        invariant live == SeedEntries(map[], initial[..i])
      {
        assert initial[..i + 1][..i] == initial[..i];
        live := live[KeyOf(initial[i]).value := initial[i]];
      }
      assert initial[..|initial|] == initial;
    }

    method Apply(e: Event<Record>, revision: nat)
      modifies this
      ensures live == ApplyEvent(old(live), e)
      ensures lastRevision == if revision > old(lastRevision) then revision else old(lastRevision)
    {
      if e.Put? {
        live := live[e.key := e.record];
      } else {
        live := live - {e.key};
      }
      if revision > lastRevision { lastRevision := revision; }
    }
  }

  /* ---------- the classifier's map is a projection of the snapshot ---------- */

  lemma {:induction false} SeedsProject(m: Entries, records: seq<Record>)
    ensures SeedInstants(Projection(m), records) == Projection(SeedEntries(m, records))
  {
    if records != [] { SeedsProject(m, records[..|records| - 1]); }
  }

  lemma {:induction false} EventsProject(m: Entries, events: seq<Event<Record>>)
    ensures ObserveAll(Projection(m), events) == Projection(ApplyAll(m, events))
    decreases |events|
  {
    if events != [] {
      var e := events[0];
      var m' := ApplyEvent(m, e);
      assert Projection(m') == ObserveEvent(Projection(m), e);
      EventsProject(m', events[1..]);
    }
  }

  /** Fed the same records and then the same events, the classifier knows exactly the
      revocation instants of the live snapshot, after every event. */
  lemma {:induction false} ClassifierTracksSnapshot(records: seq<Record>, events: seq<Event<Record>>)
    ensures ObserveAll(SeedInstants(map[], records), events)
         == Projection(ApplyAll(SeedEntries(map[], records), events))
  {
    assert Projection(map[]) == map[];
    SeedsProject(map[], records);
    EventsProject(SeedEntries(map[], records), events);
  }
}
