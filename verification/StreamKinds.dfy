/** What the classifier's answers mean on the bucket itself: each kind by the live instants
    before and after the event, and silence exactly on histories that move no instant. */
module StreamKinds {
  import opened Common
  import opened Buckets
  import opened Backends
  import opened Policies
  import opened Classifier
  import opened PublisherCli
  import opened PolicyRuns
  import opened KeyedSort
  import opened LiveViews
  import opened Convergence

  /** What a classifier that has seen the history answers to the event. */
  function KindAfter(h: History, e: Event<Record>): Kind { KindOf(Prior(ObserveAll(map[], h), e.key), e) }

  /** The answers to the events of a history, one by one. */
  lemma {:induction false} KindAt(m: Instants, events: seq<Event<Record>>, i: nat)
    requires i < |events|
    ensures |ClassifyAll(m, events)| == |events|
    ensures ClassifyAll(m, events)[i] == KindOf(Prior(ObserveAll(m, events[..i]), events[i].key), events[i])
    decreases |events|
  {
    var m' := ObserveEvent(m, events[0]);
    if i == 0 {
      if |events| > 1 { KindAt(m', events[1..], 0); }
    } else {
      KindAt(m', events[1..], i - 1);
      assert events[..i][1..] == events[1..][..i - 1];
    }
  }

  /** The record carries a marker that names the instant as the one it has cleared. */
  predicate NamesCleared(record: Record, instant: Instant) {
    record.marker.Some? && record.marker.value.previousRevokedAt == instant
  }

  /** Every kind, by the live instants of the key before and after the event. */
  lemma {:induction false} KindsOnTheBucket(h: History, e: Event<Record>)
    ensures var before, after := LiveInstant(h, e.key), LiveInstant(h + [e], e.key);
            var named := e.Put? && before.Some? && NamesCleared(e.record, before.value);
            && (KindAfter(h, e) == KeyRemoved <==> LiveRecord(h + [e], e.key).None?)
            && (KindAfter(h, e) == RevocationTransition <==> before.None? && after.Some?)
            && (KindAfter(h, e) == RevocationRefresh <==> before.Some? && after == before)
            && (KindAfter(h, e) == ExplicitUnrevoke <==> e.Put? && before.Some? && after.None? && named)
            && (KindAfter(h, e) == MonotonicBreach <==>
                  e.Put? && before.Some? && after != before && !(after.None? && named))
            && (KindAfter(h, e) == NotRevocationRelated <==> e.Put? && before.None? && after.None?)
  {
    ObserveAllUpToDate(h);
    assert Prior(ObserveAll(map[], h), e.key) == LiveInstant(h, e.key);
    LiveAppend(h, e, e.key);
  }

  /* ---------- quiet histories ---------- */

  /** The classifier reports neither a breach nor an unrevoke. */
  ghost predicate Quiet(h: History) {
    var kinds := ClassifyAll(map[], h);
    forall i :: 0 <= i < |kinds| ==> !kinds[i].MonotonicBreach? && !kinds[i].ExplicitUnrevoke?
  }

  lemma {:induction false} QuietEventKeepsSteady(h: History, e: Event<Record>)
    requires Steady(POLICY_RULES, h)
    requires !KindAfter(h, e).MonotonicBreach? && !KindAfter(h, e).ExplicitUnrevoke?
    ensures Steady(POLICY_RULES, h + [e])
  {
    KindsOnTheBucket(h, e);
    LiveAppend(h, e, e.key);
    AppendKeepsSteady(h, e);
  }

  lemma {:induction false} QuietPrefixIsSteady(h: History, n: nat)
    requires Quiet(h) && n <= |h|
    ensures Steady(POLICY_RULES, h[..n])
  {
    if n > 0 {
      QuietPrefixIsSteady(h, n - 1);
      KindAt(map[], h, n - 1);
      assert !KindAfter(h[..n - 1], h[n - 1]).MonotonicBreach? && !KindAfter(h[..n - 1], h[n - 1]).ExplicitUnrevoke?;
      QuietEventKeepsSteady(h[..n - 1], h[n - 1]);
      assert h[..n] == h[..n - 1] + [h[n - 1]];
    }
  }

  lemma {:induction false} SteadyEventIsQuiet(h: History, i: nat)
    requires Steady(POLICY_RULES, h) && i < |h|
    ensures KindAfter(h[..i], h[i]) != MonotonicBreach && KindAfter(h[..i], h[i]) != ExplicitUnrevoke
  {
    var e, live := h[i], Live(h[..i], h[i].key);
    KindsOnTheBucket(h[..i], e);
    LiveAppend(h[..i], e, e.key);
    if e.Put? && live.Some? {
      var n := live.value.revision - 1;
      Convergence.LiveSince(h[..i], e.key);
      forall k | n < k < i ensures h[k].key != e.key { assert h[..i][k] == h[k]; }
      assert h[..i][n] == h[n] && SameLife(h, n, i, e.key);
    }
  }

  /** The classifier is quiet exactly on the histories in which no revocation instant
      changes between tombstones. */
  lemma {:induction false} QuietIffSteady(h: History)
    ensures Quiet(h) <==> Steady(POLICY_RULES, h)
  {
    if Quiet(h) {
      QuietPrefixIsSteady(h, |h|);
      assert h[..|h|] == h;
    }
    if Steady(POLICY_RULES, h) {
      var kinds := ClassifyAll(map[], h);
      if h != [] { KindAt(map[], h, 0); }
      forall i | 0 <= i < |kinds| ensures !kinds[i].MonotonicBreach? && !kinds[i].ExplicitUnrevoke? {
        KindAt(map[], h, i);
        SteadyEventIsQuiet(h, i);
      }
    }
  }

  /* ---------- seeding from a snapshot ---------- */

  function RecordsOf(items: seq<Keyed<Record>>): (records: seq<Record>)
    ensures |records| == |items| && forall i :: 0 <= i < |items| ==> records[i] == items[i].value
  {
    seq(|items|, i requires 0 <= i < |items| => items[i].value)
  }

  lemma {:induction false} SeedItem(items: seq<Keyed<Record>>, n: nat)
    requires GoodItems(POLICY_RULES, items) && n < |items|
    ensures SeedEntries(map[], RecordsOf(items)[..n + 1]) ==
              SeedEntries(map[], RecordsOf(items)[..n])[items[n].key := items[n].value]
  {
    assert RecordsOf(items)[..n + 1][..n] == RecordsOf(items)[..n];
    assert KeyOf(RecordsOf(items)[..n + 1][n]) == Some(items[n].key);
  }

  ghost predicate AmongFirst(items: seq<Keyed<Record>>, n: nat, key: string, r: Record)
    requires n <= |items|
  {
    exists i :: 0 <= i < n && items[i] == Keyed(key, r)
  }

  lemma {:induction false} AmongNext(items: seq<Keyed<Record>>, n: nat, key: string, r: Record)
    requires DistinctKeys(items) && n < |items|
    ensures AmongFirst(items, n + 1, key, r) <==>
              if key == items[n].key then r == items[n].value else AmongFirst(items, n, key, r)
  {
    if AmongFirst(items, n, key, r) {
      var i :| 0 <= i < n && items[i] == Keyed(key, r);
      assert items[i].key != items[n].key && AmongFirst(items, n + 1, key, r);
    }
    if items[n] == Keyed(key, r) { assert AmongFirst(items, n + 1, key, r); }
  }

  /** The first n records of a snapshot seed exactly their own keys. */
  lemma {:induction false} SeedsAreTheItems(items: seq<Keyed<Record>>, n: nat, key: string, r: Record)
    requires GoodItems(POLICY_RULES, items) && n <= |items|
    ensures Entry(SeedEntries(map[], RecordsOf(items)[..n]), key) == Some(r) <==> AmongFirst(items, n, key, r)
  {
    if n > 0 {
      SeedItem(items, n - 1);
      SeedsAreTheItems(items, n - 1, key, r);
      AmongNext(items, n - 1, key, r);
    }
  }

  lemma {:induction false} SeedsHold(items: seq<Keyed<Record>>)
    requires GoodItems(POLICY_RULES, items)
    ensures Holds(SeedEntries(map[], RecordsOf(items)), items)
  {
    var m := SeedEntries(map[], RecordsOf(items));
    assert RecordsOf(items)[..|items|] == RecordsOf(items);
    forall key, r ensures Entry(m, key) == Some(r) <==> Keyed(key, r) in items {
      SeedsAreTheItems(items, |items|, key, r);
    }
  }

  /** A classifier and a live view that were seeded from a snapshot read key by key and then
      fed any overlapping suffix of the history have, for every key, the instant and the
      record that the bucket has. */
  lemma {:induction false} SeededFollowsBucket(
      h: History, listed: nat, cut: string -> nat, items: seq<Keyed<Record>>, j: nat, key: string)
    requires WellKeyed(POLICY_RULES, h) && j <= listed <= |h| && StaggeredSnapshot(h, listed, cut, items)
    requires key != ""
    ensures Entry(ApplyAll(SeedEntries(map[], RecordsOf(items)), h[j..]), key) == LiveRecord(h, key)
    ensures Prior(ObserveAll(SeedInstants(map[], RecordsOf(items)), h[j..]), key) == LiveInstant(h, key)
  {
    SnapshotItemsGood(POLICY_RULES, h, listed, cut, items);
    SeedsHold(items);
    LiveViewRefinesBucket(POLICY_RULES, SeedEntries(map[], RecordsOf(items)), h, listed, cut, items, j);
    assert Entry(ApplyAll(SeedEntries(map[], RecordsOf(items)), h[j..]), key) == ReadRecord(h, key);
    ClassifierTracksSnapshot(RecordsOf(items), h[j..]);
  }
}
