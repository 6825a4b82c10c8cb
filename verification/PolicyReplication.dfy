/** The policy store end to end: revocations stick across buckets and at the gate, and
    replication of policies converges exactly when the source history settles. */
module PolicyReplication {
  import opened Common
  import opened Encodings
  import opened KeyedSort
  import opened Buckets
  import opened Backends
  import opened Policies
  import opened Replication
  import opened Convergence
  import opened Halting
  import opened LiveViews
  import CasProtocol
  import Classifier
  import PolicyRuns
  import Gate

  type History = seq<Event<Record>>

  /** The key is live with a record revoked at the instant. */
  predicate RevokedAt(h: History, key: string, at: Instant) {
    ReadRecord(h, key).Some? && ReadRecord(h, key).value.policy.revokedAt == Some(at)
  }

  /* ---------- revocations stick ---------- */

  predicate GoodEvent(e: Event<Record>) {
    e.key != "" && (e.Put? ==> KeyOf(e.record) == Some(e.key))
  }

  lemma {:induction false} PutSticks(h: History, record: Record, k: string, key: string, at: Instant)
    requires RevokedAt(h, key, at) && KeyOf(record) == Some(k) && !Breach(POLICY_RULES, h, k, record)
    ensures RevokedAt(h + [Put(k, record)], key, at)
  {
    LiveAppend(h, Put(k, record), key);
  }

  lemma {:induction false} BootstrapSticks(
      c: Config<Record>, s: Sync<Record>, items: seq<Keyed<Record>>, key: string, at: Instant)
    requires c.rules == POLICY_RULES && RevokedAt(s.target, key, at)
    requires forall i :: 0 <= i < |items| ==> items[i].key != "" && KeyOf(items[i].value) == Some(items[i].key)
    ensures RevokedAt(BootstrapAll(c, s, items).0.target, key, at)
    decreases |items|
  {
    if items != [] {
      var s1 := BootstrapOne(c, s, items[0]).0;
      if s1.target != s.target { PutSticks(s.target, items[0].value, items[0].key, key, at); }
      BootstrapSticks(c, s1, items[1..], key, at);
    }
  }

  lemma {:induction false} ConsumeSticks(
      c: Config<Record>, s: Sync<Record>, e: Event<Record>, revision: nat, key: string, at: Instant)
    requires c.rules == POLICY_RULES && RevokedAt(s.target, key, at) && GoodEvent(e)
    requires e.Delete? ==> e.key != key
    ensures RevokedAt(Consume(c, s, e, revision).0.target, key, at)
  {
    var s1 := Consume(c, s, e, revision).0;
    if s1.target != s.target {
      if e.Put? {
        PutSticks(s.target, e.record, e.key, key, at);
      } else {
        LiveAppend(s.target, Delete(e.key, false), key);
      }
    }
  }

  lemma {:induction false} ConsumeAllSticks(
      c: Config<Record>, s: Sync<Record>, events: seq<Event<Record>>, first: nat, key: string, at: Instant)
    requires c.rules == POLICY_RULES && RevokedAt(s.target, key, at)
    requires forall i :: 0 <= i < |events| ==> GoodEvent(events[i]) && (events[i].Delete? ==> events[i].key != key)
    ensures RevokedAt(ConsumeAll(c, s, events, first).0.target, key, at)
    decreases |events|
  {
    if events != [] {
      ConsumeSticks(c, s, events[0], first, key, at);
      var (s', error) := Consume(c, s, events[0], first);
      if error == None { ConsumeAllSticks(c, s', events[1..], first + 1, key, at); }
    }
  }

  /** Over any run without a tombstone of the key, whatever the snapshot, the events, the
      filter, the policy and the halting flags, a revoked target record stays revoked at
      the same instant, and the gate over a snapshot of the target never matches it. */
  lemma {:induction false} RevocationSticks(
      c: Config<Record>, s: Sync<Record>, bootstrap: bool, items: seq<Keyed<Record>>, stream: Stream<Record>,
      key: string, at: Instant, q: Gate.Query, taken: seq<Keyed<Record>>, d: Gate.Decision)
    requires c.rules == POLICY_RULES && RevokedAt(s.target, key, at)
    requires forall i :: 0 <= i < |items| ==> items[i].key != "" && KeyOf(items[i].value) == Some(items[i].key)
    requires forall e :: e in stream.events ==> GoodEvent(e) && (e.Delete? ==> e.key != key)
    requires IsSnapshot(RunAll(c, s, bootstrap, items, stream).0.target, taken)
    requires Gate.Decides(q, PoliciesOf(taken, q.registeredBy), d) && (q.asOf.Some? ==> q.asOf.value >= at)
    ensures var h := RunAll(c, s, bootstrap, items, stream).0.target;
            && RevokedAt(h, key, at)
            && (d.allowed ==> d.policy != Some(ReadRecord(h, key).value.policy))
  {
    if bootstrap { BootstrapSticks(c, s, items, key, at); }
    ConsumeAllSticks(c, if bootstrap then BootstrapAll(c, s, items).0 else s, stream.events, stream.first, key, at);
    Gate.AllowsIff(q, PoliciesOf(taken, q.registeredBy), d);
  }

  /* ---------- the registry materialised from a snapshot ---------- */

  /** The policies of an issuer, in key order. */
  function PoliciesOf(items: seq<Keyed<Record>>, issuer: string): seq<Policy> {
    if items == [] then []
    else
      var p := items[0].value.policy;
      (if p.registeredBy == issuer then [p] else []) + PoliciesOf(items[1..], issuer)
  }

  /** What has been added and what is still to come make up the policies of each issuer. */
  ghost predicate Pending(added: string -> seq<Policy>, items: seq<Keyed<Record>>, i: nat)
    requires i <= |items|
  {
    forall issuer :: added(issuer) + PoliciesOf(items[i..], issuer) == PoliciesOf(items, issuer)
  }

  lemma {:induction false} PendingNext(
      added: string -> seq<Policy>, added': string -> seq<Policy>, items: seq<Keyed<Record>>, i: nat)
    requires i < |items| && Pending(added, items, i)
    requires forall issuer :: added'(issuer) ==
               if issuer == items[i].value.policy.registeredBy then added(issuer) + [items[i].value.policy]
               else added(issuer)
    ensures Pending(added', items, i + 1)
  {
    forall issuer ensures added'(issuer) + PoliciesOf(items[i + 1..], issuer) == PoliciesOf(items, issuer) {
      assert items[i..][1..] == items[i + 1..];
      assert added(issuer) + PoliciesOf(items[i..], issuer) == PoliciesOf(items, issuer);
    }
  }

  method RegistryOf(records: seq<Keyed<Record>>) returns (registry: Gate.CapabilityPolicyRegistry)
    ensures fresh(registry)
    ensures forall issuer :: registry.PoliciesFor(issuer) == PoliciesOf(records, issuer)
  {
    registry := new Gate.CapabilityPolicyRegistry();
    ghost var added: string -> seq<Policy> := issuer => [];
    for i := 0 to |records|
      invariant fresh(registry)
      invariant forall issuer :: registry.PoliciesFor(issuer) == added(issuer)
      invariant Pending(added, records, i)
    {
      ghost var p := records[i].value.policy;
      ghost var before := added;
      registry.AddPolicy(records[i].value.policy);
      added := issuer => if issuer == p.registeredBy then before(issuer) + [p] else before(issuer);
      PendingNext(before, added, records, i);
    }
    AllAdded(added, records);
  }

  method SnapshotRegistry(backend: Backend<Record>)
      returns (registry: Gate.CapabilityPolicyRegistry, ghost items: seq<Keyed<Record>>)
    requires backend.Valid()
    ensures fresh(registry) && IsSnapshot(backend.kv.history, items)
    ensures forall issuer :: registry.PoliciesFor(issuer) == PoliciesOf(items, issuer)
  {
    var records := backend.Snapshot();
    items := records;
    registry := RegistryOf(records);
  }

  /** The records of a live view, in key order. */
  ghost predicate Lists(m: map<string, Record>, items: seq<Keyed<Record>>) {
    && Increasing(CodePoints, items)
    && forall key, r :: Keyed(key, r) in items <==> Entry(m, key) == Some(r)
  }

  method Records(snapshot: Classifier.LiveCapabilityPolicySnapshot) returns (items: seq<Keyed<Record>>)
    ensures Lists(snapshot.live, items)
  {
    var m := snapshot.live;
    var keys := KeyList(m);
    SortStringsProperties(CodePoints, keys);
    var sorted := SortStrings(CodePoints, keys);
    items := seq(|sorted|, i requires 0 <= i < |sorted| && sorted[i] in m => Keyed(sorted[i], m[sorted[i]]));
    forall key, r ensures Keyed(key, r) in items <==> Entry(m, key) == Some(r) {
      if Entry(m, key) == Some(r) {
        assert key in sorted;
        var i :| 0 <= i < |sorted| && sorted[i] == key;
        assert items[i] == Keyed(key, r);
      }
    }
  }

  method AsRegistry(snapshot: Classifier.LiveCapabilityPolicySnapshot)
      returns (registry: Gate.CapabilityPolicyRegistry, ghost items: seq<Keyed<Record>>)
    ensures fresh(registry) && Lists(snapshot.live, items)
    ensures forall issuer :: registry.PoliciesFor(issuer) == PoliciesOf(items, issuer)
  {
    var records := Records(snapshot);
    items := records;
    registry := RegistryOf(records);
  }

  /** A live snapshot that was bootstrapped and then followed the stream puts the gate before
      the same policies, in the same order, as a new snapshot of the bucket. */
  lemma {:induction false} LiveRegistryIsCurrent(
      m: map<string, Record>, h: History, listed: nat, cut: string -> nat, initial: seq<Keyed<Record>>, j: nat,
      items: seq<Keyed<Record>>, taken: seq<Keyed<Record>>)
    requires WellKeyed(POLICY_RULES, h) && j <= listed <= |h|
    requires StaggeredSnapshot(h, listed, cut, initial) && Holds(m, initial)
    requires Lists(ApplyAll(m, h[j..]), items) && IsSnapshot(h, taken)
    ensures items == taken
  {
    LiveViewRefinesBucket(POLICY_RULES, m, h, listed, cut, initial, j);
    forall x ensures x in items <==> x in taken {
      assert Keyed(x.key, x.value) in items <==> Keyed(x.key, x.value) in taken;
    }
    IncreasingUnique(CodePoints, items, taken);
  }

  lemma {:induction false} AllAdded(added: string -> seq<Policy>, items: seq<Keyed<Record>>)
    requires Pending(added, items, |items|)
    ensures forall issuer :: added(issuer) == PoliciesOf(items, issuer)
  {
    forall issuer ensures added(issuer) == PoliciesOf(items, issuer) {
      assert added(issuer) + [] == added(issuer);
    }
  }

  /* ---------- policies converge exactly when the source settles ---------- */

  /** Every key read at the same cut. */
  function At(n: nat): string -> nat { key => n }

  /** A bootstrap at the cut just after a PUT of a revoked record. */
  lemma {:induction false} BootstrapsRevoked(c: Config<Record>, h: History, i: nat, items: seq<Keyed<Record>>)
    requires c.rules == POLICY_RULES && AcceptsAll(c) && WellKeyed(POLICY_RULES, h)
    requires i < |h| && h[i].Put? && h[i].record.policy.revokedAt.Some?
    requires StaggeredSnapshot(h, i + 1, At(i + 1), items)
    ensures var (s, error) := BootstrapAll(c, Sync([], FRESH_METRICS), items);
            error == None && RevokedAt(s.target, h[i].key, h[i].record.policy.revokedAt.value)
  {
    var key := h[i].key;
    ReadTake(h, i, key);
    SnapshotItemsGood(POLICY_RULES, h, i + 1, At(i + 1), items);
    BootstrapFromEmpty(c, FRESH_METRICS, items, key);
    ItemOfKey(h, i + 1, At(i + 1), items, key);
  }

  lemma {:induction false} SuffixGood(h: History, j: nat, q: nat, key: string)
    requires WellKeyed(POLICY_RULES, h) && j <= q + 1 && q < |h|
    requires IsLastPut(h, q, key) && SameLife(h, j - 1, q, key)
    ensures forall n :: 0 <= n < |h[j..]| ==> GoodEvent(h[j..][n]) && (h[j..][n].Delete? ==> h[j..][n].key != key)
  {
    forall n | 0 <= n < |h[j..]| ensures GoodEvent(h[j..][n]) && (h[j..][n].Delete? ==> h[j..][n].key != key) {
      assert h[j..][n] == h[j + n];
    }
  }

  lemma {:induction false} LastPutIsLive(h: History, q: nat, key: string)
    requires q < |h| && IsLastPut(h, q, key) && key != ""
    ensures ReadRecord(h, key) == Some(h[q].record)
  {
    LiveUntouched(h, q + 1, |h|, key);
    ReadTake(h, q, key);
    assert h[..|h|] == h;
  }

  /** If the final record of some key moves a revocation instant set earlier in its life,
      the target that was bootstrapped at the earlier record never reaches the source. */
  lemma {:induction false} UnsettledDiverges(c: Config<Record>, h: History, i: nat, q: nat, items: seq<Keyed<Record>>)
    requires c.rules == POLICY_RULES && AcceptsAll(c) && WellKeyed(POLICY_RULES, h)
    requires i <= q < |h| && h[i].Put? && IsLastPut(h, q, h[i].key) && SameLife(h, i, q, h[i].key)
    requires Refuses(h[i].record, h[q].record)
    requires StaggeredSnapshot(h, i + 1, At(i + 1), items)
    ensures !Reaches(c, FRESH_METRICS, h, items, i + 1)
  {
    var key, at := h[i].key, h[i].record.policy.revokedAt.value;
    var s := BootstrapAll(c, Sync([], FRESH_METRICS), items).0;
    BootstrapsRevoked(c, h, i, items);
    SuffixGood(h, i + 1, q, key);
    ConsumeAllSticks(c, s, h[i + 1..], i + 2, key, at);
    LastPutIsLive(h, q, key);
    assert RevokedAt(RunAll(c, Sync([], FRESH_METRICS), true, items, StreamFrom(h, i + 1)).0.target, key, at);
  }

  /** From every staggered snapshot and every suffix of the stream. */
  ghost predicate AlwaysConverges(c: Config<Record>, h: History) {
    forall listed: nat, cut: string -> nat, items, j: nat ::
      j <= listed <= |h| && StaggeredSnapshot(h, listed, cut, items) ==> Reaches(c, FRESH_METRICS, h, items, j)
  }

  lemma {:induction false} NotSettledNotConverging(c: Config<Record>, h: History)
    requires c.rules == POLICY_RULES && AcceptsAll(c) && WellKeyed(POLICY_RULES, h)
    requires !Settles(POLICY_RULES, h)
    ensures !AlwaysConverges(c, h)
  {
    var i, q :| 0 <= i <= q < |h| && h[i].Put? && IsLastPut(h, q, h[i].key) && SameLife(h, i, q, h[i].key)
                && Refuses(h[i].record, h[q].record);
    var items := SnapshotAt(h, i + 1);
    UnsettledDiverges(c, h, i, q, items);
  }

  /** The record of operation n is live at the cut: the run that starts at q with it halts. */
  lemma {:induction false} RefusedReplayHalts(c: Config<Record>, h: History, n: nat, q: nat)
    requires c.rules == POLICY_RULES && AcceptsAll(c) && c.haltOnBreach && WellKeyed(POLICY_RULES, h)
    requires n < |h| && q < |h| && BroughtTogether(h, n, q) && Refuses(h[n].record, h[q].record)
    ensures !AlwaysConverges(c, h)
  {
    var key, cut := h[q].key, if q <= n then n + 1 else q;
    ReadTake(h, n, key);
    LiveUntouched(h, n + 1, cut, key);
    var items := SnapshotAt(h, cut);
    BootstrapsTheCut(c, h, cut, items, key);
    var s := BootstrapAll(c, Sync([], FRESH_METRICS), items).0;
    assert h[q..][0] == h[q];
    BreachHalts(c, s, h[q..], q + 1);
    assert !Reaches(c, FRESH_METRICS, h, items, q);
  }

  /** A bootstrap from a snapshot at a cut gives an empty target the record at the cut. */
  lemma {:induction false} BootstrapsTheCut(
      c: Config<Record>, h: History, cut: nat, items: seq<Keyed<Record>>, key: string)
    requires c.rules == POLICY_RULES && AcceptsAll(c) && WellKeyed(POLICY_RULES, h)
    requires cut <= |h| && StaggeredSnapshot(h, cut, At(cut), items)
    ensures var (s, error) := BootstrapAll(c, Sync([], FRESH_METRICS), items);
            error == None && ReadRecord(s.target, key) == ReadRecord(h[..cut], key)
  {
    SnapshotItemsGood(POLICY_RULES, h, cut, At(cut), items);
    BootstrapFromEmpty(c, FRESH_METRICS, items, key);
    ItemOfKey(h, cut, At(cut), items, key);
  }

  /** If nothing is ever refused, a revocation instant lasts for the whole life of its key. */
  lemma {:induction false} InstantLasts(h: History, i: nat, q: nat)
    requires NeverRefuses(POLICY_RULES, h) && i <= q < |h| && h[i].Put? && h[q].Put? && h[i].key == h[q].key
    requires SameLife(h, i, q, h[i].key) && h[i].record.policy.revokedAt.Some?
    ensures h[q].record.policy.revokedAt == h[i].record.policy.revokedAt
    decreases q - i
  {
    if i < q {
      var n := NextOf(h, i, q);
      assert !Refuses(h[i].record, h[n].record);
      InstantLasts(h, n, q);
    }
  }

  /** The next operation on the key of operation i. */
  lemma {:induction false} NextOf(h: History, i: nat, q: nat) returns (n: nat)
    requires i < q < |h| && h[i].key == h[q].key
    ensures i < n <= q && h[n].key == h[i].key && NoneBetween(h, i, n, h[i].key)
  {
    n := i + 1;
    while h[n].key != h[i].key
      invariant i < n <= q && NoneBetween(h, i, n, h[i].key)
      decreases q - n
    {
      n := n + 1;
    }
  }

  lemma {:induction false} NeverRefusedSettles(h: History)
    requires NeverRefuses(POLICY_RULES, h)
    ensures Settles(POLICY_RULES, h)
  {
    forall i: nat, q: nat | i <= q < |h| && h[i].Put? && IsLastPut(h, q, h[i].key) && SameLife(h, i, q, h[i].key)
      ensures !Refuses(h[i].record, h[q].record)
    {
      if h[i].record.policy.revokedAt.Some? { InstantLasts(h, i, q); }
    }
  }

  /** Policy replication always reaches the source, whichever conflict policy is chosen,
      iff the source history settles; with the halting flag set, iff nothing in it is ever
      refused by a replay. */
  lemma {:induction false} PoliciesConvergeIff(c: Config<Record>, h: History)
    requires c.rules == POLICY_RULES && AcceptsAll(c) && WellKeyed(POLICY_RULES, h)
    ensures AlwaysConverges(c, h) <==>
              if c.haltOnBreach then NeverRefuses(POLICY_RULES, h) else Settles(POLICY_RULES, h)
  {
    if if c.haltOnBreach then NeverRefuses(POLICY_RULES, h) else Settles(POLICY_RULES, h) {
      if c.haltOnBreach { NeverRefusedSettles(h); }
      forall listed: nat, cut: string -> nat, items, j: nat |
        j <= listed <= |h| && StaggeredSnapshot(h, listed, cut, items)
        ensures Reaches(c, FRESH_METRICS, h, items, j)
      {
        ReplicationConverges(c, FRESH_METRICS, h, listed, cut, items, j);
        if c.haltOnBreach { UnrefusedRunsFinish(c, FRESH_METRICS, h, listed, cut, items, j); }
      }
    } else if c.haltOnBreach {
      RefusedSomewhere(c, h);
    } else {
      NotSettledNotConverging(c, h);
    }
  }

  lemma {:induction false} RefusedSomewhere(c: Config<Record>, h: History)
    requires c.rules == POLICY_RULES && AcceptsAll(c) && c.haltOnBreach && WellKeyed(POLICY_RULES, h)
    requires !NeverRefuses(POLICY_RULES, h)
    ensures !AlwaysConverges(c, h)
  {
    var n, q :| 0 <= n < |h| && 0 <= q < |h| && BroughtTogether(h, n, q) && Refuses(h[n].record, h[q].record);
    RefusedReplayHalts(c, h, n, q);
  }

  /** A snapshot of a prefix exists. */
  lemma {:induction false} SnapshotAt(h: History, n: nat) returns (items: seq<Keyed<Record>>)
    requires n <= |h|
    ensures StaggeredSnapshot(h, n, At(n), items)
  {
    if n == 0 {
      items := [];
    } else {
      var before := SnapshotAt(h, n - 1);
      assert h[..n][..n - 1] == h[..n - 1];
      items := WithoutKey(before, h[n - 1].key);
      if h[n - 1].Put? && h[n - 1].key != "" { items := items + [Keyed(h[n - 1].key, h[n - 1].record)]; }
      forall key, r ensures Keyed(key, r) in items <==> ReadRecord(h[..n], key) == Some(r) {
        assert ReadRecord(h[..n - 1], key) == Some(r) <==> Keyed(key, r) in before;
      }
    }
  }

  lemma {:induction false} WithoutKey(items: seq<Keyed<Record>>, key: string) returns (rest: seq<Keyed<Record>>)
    requires DistinctKeys(items)
    ensures DistinctKeys(rest)
    ensures forall m :: m in rest <==> m in items && m.key != key
    ensures forall i :: 0 <= i < |rest| ==> rest[i].key != key
  {
    rest := [];
    for n := 0 to |items|
      invariant DistinctKeys(rest)
      invariant forall m :: m in rest <==> m in items[..n] && m.key != key
      invariant forall i :: 0 <= i < |rest| ==> rest[i].key != key && exists k :: 0 <= k < n && items[k] == rest[i]
    {
      if items[n].key != key { rest := rest + [items[n]]; }
    }
  }

  /** So a source written only by disciplined writers that never unrevoke is always
      reproduced on the target, unless the run is told to halt and does. */
  lemma {:induction false} DisciplinedSourcesConverge(
      c: Config<Record>, actions: seq<CasProtocol.Action<Record>>, listed: nat, cut: string -> nat,
      items: seq<Keyed<Record>>, j: nat)
    requires c.rules == POLICY_RULES && AcceptsAll(c)
    requires PolicyRuns.DisciplinedRun(CasProtocol.Start(), actions)
    requires forall i :: 0 <= i < |PolicyRuns.Deliberate(CasProtocol.Start(), actions)| ==>
               !PolicyRuns.Deliberate(CasProtocol.Start(), actions)[i]
    requires var h := CasProtocol.Run(POLICY_RULES, CasProtocol.Start(), actions).history;
             j <= listed <= |h| && StaggeredSnapshot(h, listed, cut, items)
    ensures var h := CasProtocol.Run(POLICY_RULES, CasProtocol.Start(), actions).history;
            Reaches(c, FRESH_METRICS, h, items, j) || Halts(c, FRESH_METRICS, h, items, j)
  {
    var h := CasProtocol.Run(POLICY_RULES, CasProtocol.Start(), actions).history;
    PolicyKeysNonEmpty();
    CasProtocol.RunKeepsWellKeyed(POLICY_RULES, CasProtocol.Start(), actions);
    PolicyRuns.DisciplinedRunsAreSteady(actions);
    SteadySettles(POLICY_RULES, h);
    ReplicationConverges(c, FRESH_METRICS, h, listed, cut, items, j);
  }
}
