/** What a replicator's filter does to whole streams: rejected events are counted and
    otherwise as if they had never been sent. */
module FilteredStreams {
  import opened Common
  import opened KeyedSort
  import opened Buckets
  import opened Backends
  import opened Replication
  import opened Convergence

  /** The accepted events of a stream whose first event has the given revision. */
  function Accepted<R>(c: Config<R>, events: seq<Event<R>>, first: nat): (kept: seq<Event<R>>)
    ensures |kept| <= |events|
  {
    if events == [] then []
    else (if c.accepts(events[0], first) then [events[0]] else []) + Accepted(c, events[1..], first + 1)
  }

  /** The same replicator without a filter. */
  function Unfiltered<R>(c: Config<R>): Config<R> { c.(accepts := (e, revision) => true) }

  /** Equal but for how many events have been skipped. */
  ghost predicate SameButSkips<R>(s: Sync<R>, s': Sync<R>) {
    && s'.target == s.target
    && s'.metrics == s.metrics.(eventsSkippedByFilter := s'.metrics.eventsSkippedByFilter)
  }

  /** An accepted event does what it does without a filter, whatever has been skipped. */
  lemma {:induction false} AcceptedStep<R(!new)>(
      c: Config<R>, s: Sync<R>, s': Sync<R>, e: Event<R>, revision: nat, other: nat)
    requires SameButSkips(s, s') && c.accepts(e, revision)
    ensures var (end, error) := Consume(c, s, e, revision);
            var (end', error') := Consume(Unfiltered(c), s', e, other);
            SameButSkips(end, end') && error' == error
  {
  }

  lemma {:induction false} RejectedStep<R(!new)>(c: Config<R>, s: Sync<R>, s': Sync<R>, e: Event<R>, revision: nat)
    requires SameButSkips(s, s') && !c.accepts(e, revision)
    ensures Consume(c, s, e, revision).1 == None && SameButSkips(Consume(c, s, e, revision).0, s')
  {
  }

  lemma {:induction false} ConsumeAllCons<R(!new)>(
      c: Config<R>, s: Sync<R>, e: Event<R>, rest: seq<Event<R>>, first: nat)
    ensures ConsumeAll(c, s, [e] + rest, first) ==
              match Consume(c, s, e, first)
              case (s', None) => ConsumeAll(c, s', rest, first + 1)
              case (s', Some(error)) => (s', Some(error))
  {
    assert ([e] + rest)[1..] == rest;
  }

  /** For every filter and stream: a run is the run without a filter over the accepted
      events alone, but for the counter of skipped events. */
  lemma {:induction false} FilterBeforeOrDuring<R(!new)>(
      c: Config<R>, s: Sync<R>, s': Sync<R>, events: seq<Event<R>>, first: nat, first': nat)
    requires SameButSkips(s, s')
    ensures var (end, error) := ConsumeAll(c, s, events, first);
            var (end', error') := ConsumeAll(Unfiltered(c), s', Accepted(c, events, first), first');
            SameButSkips(end, end') && error' == error
    decreases |events|
  {
    if events != [] {
      var e, rest := events[0], Accepted(c, events[1..], first + 1);
      var (s1, error) := Consume(c, s, e, first);
      if c.accepts(e, first) {
        AcceptedStep(c, s, s', e, first, first');
        ConsumeAllCons(Unfiltered(c), s', e, rest, first');
        if error == None {
          var s1' := Consume(Unfiltered(c), s', e, first').0;
          FilterBeforeOrDuring(c, s1, s1', events[1..], first + 1, first' + 1);
        }
      } else {
        assert Accepted(c, events, first) == rest;
        RejectedStep(c, s, s', e, first);
        FilterBeforeOrDuring(c, s1, s', events[1..], first + 1, first');
      }
    }
  }

  /** No event of the key gets through. */
  ghost predicate NoneAccepted<R>(c: Config<R>, events: seq<Event<R>>, first: nat, key: string) {
    forall i :: 0 <= i < |events| && events[i].key == key ==> !c.accepts(events[i], first + i)
  }

  /** A key with no accepted event keeps its record. */
  lemma {:induction false} RejectedKeyKept<R(!new)>(
      c: Config<R>, s: Sync<R>, events: seq<Event<R>>, first: nat, key: string)
    requires WellKeyed(c.rules, events) && NoneAccepted(c, events, first, key)
    ensures ReadRecord(ConsumeAll(c, s, events, first).0.target, key) == ReadRecord(s.target, key)
    decreases |events|
  {
    if events != [] {
      var e, rest := events[0], events[1..];
      var (s', error) := Consume(c, s, e, first);
      OneEventKeeps(c, s, e, first, key);
      if error == None {
        forall i | 0 <= i < |rest| && rest[i].key == key ensures !c.accepts(rest[i], first + 1 + i) {
          assert rest[i] == events[i + 1];
        }
        assert forall i :: 0 <= i < |rest| ==> rest[i] == events[i + 1];
        RejectedKeyKept(c, s', rest, first + 1, key);
      }
    }
  }

  lemma {:induction false} OneEventKeeps<R(!new)>(c: Config<R>, s: Sync<R>, e: Event<R>, revision: nat, key: string)
    requires e.key != "" && (e.Put? ==> c.rules.keyOf(e.record) == Some(e.key))
    requires e.key == key ==> !c.accepts(e, revision)
    ensures ReadRecord(Consume(c, s, e, revision).0.target, key) == ReadRecord(s.target, key)
  {
    LiveAppend(s.target, e, key);
    LiveAppend(s.target, Delete(e.key, false), key);
  }

  /** A filter that rejects every event of the key keeps it off an empty target. */
  lemma {:induction false} RejectedKeyAbsent<R(!new)>(
      c: Config<R>, m: Metrics, h: seq<Event<R>>, items: seq<Keyed<R>>, j: nat, key: string)
    requires j <= |h| && WellKeyed(c.rules, h) && GoodItems(c.rules, items)
    requires forall e: Event<R>, revision: nat :: e.key == key ==> !c.accepts(e, revision)
    ensures ReadRecord(RunAll(c, Sync([], m), true, items, StreamFrom(h, j)).0.target, key) == None
  {
    BootstrapKeepsOthers(c, Sync([], m), items, key);
    BootstrapEffect(c, Sync([], m), items);
    RejectedKeyKept(c, BootstrapAll(c, Sync([], m), items).0, h[j..], j + 1, key);
  }

  /* ---------- what the counters count ---------- */

  function Puts<R>(events: seq<Event<R>>): nat {
    if events == [] then 0 else (if events[0].Put? then 1 else 0) + Puts(events[1..])
  }

  /** How many of the outcomes of a PUT have been counted. */
  function PutOutcomes(m: Metrics): nat { m.eventsAppliedPut + m.revocationBreaches + m.casConflicts }

  lemma {:induction false} OneEventCounted<R(!new)>(c: Config<R>, s: Sync<R>, e: Event<R>, revision: nat)
    requires Consume(c, s, e, revision).1 == None
    ensures var m, m' := s.metrics, Consume(c, s, e, revision).0.metrics;
            && m'.eventsSkippedByFilter == m.eventsSkippedByFilter + (if c.accepts(e, revision) then 0 else 1)
            && m'.eventsAppliedDelete ==
                 m.eventsAppliedDelete + (if c.accepts(e, revision) && e.Delete? then 1 else 0)
            && PutOutcomes(m') == PutOutcomes(m) + (if c.accepts(e, revision) && e.Put? then 1 else 0)
  {
  }

  lemma {:induction false} PutsCons<R>(e: Event<R>, rest: seq<Event<R>>)
    ensures Puts([e] + rest) == (if e.Put? then 1 else 0) + Puts(rest)
  {
    assert ([e] + rest)[1..] == rest;
  }

  /** In a run that does not stop, every event is counted once: a rejected one as skipped, an
      accepted tombstone as applied, an accepted PUT as applied, as a breach or as a conflict. */
  lemma {:induction false} EveryEventCounted<R(!new)>(c: Config<R>, s: Sync<R>, events: seq<Event<R>>, first: nat)
    ensures var (s', error) := ConsumeAll(c, s, events, first);
            var accepted := Accepted(c, events, first);
            error == None ==>
              && s'.metrics.eventsSkippedByFilter == s.metrics.eventsSkippedByFilter + |events| - |accepted|
              && s'.metrics.eventsAppliedDelete == s.metrics.eventsAppliedDelete + |accepted| - Puts(accepted)
              && PutOutcomes(s'.metrics) == PutOutcomes(s.metrics) + Puts(accepted)
    decreases |events|
  {
    if events != [] {
      var (s', error) := Consume(c, s, events[0], first);
      var rest := Accepted(c, events[1..], first + 1);
      assert Accepted(c, events, first) == if c.accepts(events[0], first) then [events[0]] + rest else rest;
      PutsCons(events[0], rest);
      if error == None {
        OneEventCounted(c, s, events[0], first);
        EveryEventCounted(c, s', events[1..], first + 1);
      }
    }
  }

  lemma {:induction false} PutsAppend<R>(a: seq<Event<R>>, b: seq<Event<R>>)
    ensures Puts(a + b) == Puts(a) + Puts(b)
  {
    if a == [] {
      assert a + b == b;
    } else {
      assert (a + b)[1..] == a[1..] + b;
      PutsAppend(a[1..], b);
    }
  }

  lemma {:induction false} PutsBetween<R>(a: seq<Event<R>>, b: seq<Event<R>>, c: seq<Event<R>>)
    requires a <= b <= c
    ensures Puts(c[|a|..]) == Puts(b[|a|..]) + Puts(c[|b|..])
  {
    assert c[|a|..] == b[|a|..] + c[|b|..];
    PutsAppend(b[|a|..], c[|b|..]);
  }

  /** The target grows by one operation for every PUT counted as applied, and otherwise only
      by tombstones. */
  lemma {:induction false} AppliedPutsAppended<R(!new)>(c: Config<R>, s: Sync<R>, events: seq<Event<R>>, first: nat)
    requires WellKeyed(c.rules, events)
    ensures var (s', error) := ConsumeAll(c, s, events, first);
            && s.target <= s'.target
            && Puts(s'.target[|s.target|..]) == s'.metrics.eventsAppliedPut - s.metrics.eventsAppliedPut
    decreases |events|
  {
    if events != [] {
      var (s1, error) := Consume(c, s, events[0], first);
      OneEventAppends(c, s, events[0], first);
      if error == None {
        var s' := ConsumeAll(c, s1, events[1..], first + 1).0;
        assert forall i :: 0 <= i < |events[1..]| ==> events[1..][i] == events[i + 1];
        AppliedPutsAppended(c, s1, events[1..], first + 1);
        PutsBetween(s.target, s1.target, s'.target);
      }
    }
  }

  lemma {:induction false} OneEventAppends<R(!new)>(c: Config<R>, s: Sync<R>, e: Event<R>, revision: nat)
    requires e.key != "" && (e.Put? ==> c.rules.keyOf(e.record) == Some(e.key))
    ensures var s' := Consume(c, s, e, revision).0;
            && s.target <= s'.target
            && Puts(s'.target[|s.target|..]) == s'.metrics.eventsAppliedPut - s.metrics.eventsAppliedPut
  {
    var s' := Consume(c, s, e, revision).0;
    var added := s'.target[|s.target|..];
    if added != [] { assert added == [added[0]] && added[1..] == []; }
  }

  lemma {:induction false} OneEventNoConflict<R(!new)>(c: Config<R>, s: Sync<R>, e: Event<R>, revision: nat)
    requires e.key != "" && (e.Put? ==> c.rules.keyOf(e.record) == Some(e.key))
    ensures var (s', error) := Consume(c, s, e, revision);
            s'.metrics.casConflicts == s.metrics.casConflicts && error != Some(CasConflict)
  {
  }

  /** Alone on its target, a replicator never meets a conflict: the revision it pins is the one
      it has just read.  So in a run that does not stop, every accepted PUT that is not applied
      is counted as a breach. */
  lemma {:induction false} NoConflictAlone<R(!new)>(c: Config<R>, s: Sync<R>, events: seq<Event<R>>, first: nat)
    requires WellKeyed(c.rules, events)
    ensures var (s', error) := ConsumeAll(c, s, events, first);
            var m, m' := s.metrics, s'.metrics;
            && m'.casConflicts == m.casConflicts && error != Some(CasConflict)
            && (error == None ==>
                  m'.eventsAppliedPut + m'.revocationBreaches ==
                    m.eventsAppliedPut + m.revocationBreaches + Puts(Accepted(c, events, first)))
    decreases |events|
  {
    EveryEventCounted(c, s, events, first);
    if events != [] {
      var (s', error) := Consume(c, s, events[0], first);
      OneEventNoConflict(c, s, events[0], first);
      if error == None {
        assert forall i :: 0 <= i < |events[1..]| ==> events[1..][i] == events[i + 1];
        NoConflictAlone(c, s', events[1..], first + 1);
      }
    }
  }

  /* ---------- the counters of the bootstrap ---------- */

  function RejectedItems<R>(c: Config<R>, items: seq<Keyed<R>>): nat {
    if items == [] then 0 else (if AcceptsItem(c, items[0]) then 0 else 1) + RejectedItems(c, items[1..])
  }

  /** The items that the filter rejects are counted as skipped, and the target grows by one
      PUT for every item counted as applied. */
  lemma {:induction false} BootstrapCounted<R(!new)>(c: Config<R>, s: Sync<R>, items: seq<Keyed<R>>)
    requires GoodItems(c.rules, items)
    ensures var m, m' := s.metrics, BootstrapAll(c, s, items).0.metrics;
            && m'.bootstrapSkippedByFilter == m.bootstrapSkippedByFilter + RejectedItems(c, items)
            && |BootstrapAll(c, s, items).0.target| == |s.target| + m'.bootstrapApplied - m.bootstrapApplied
    decreases |items|
  {
    if items != [] {
      RestIsGood(c.rules, items);
      BootstrapCounted(c, BootstrapOne(c, s, items[0]).0, items[1..]);
    }
  }

  /** The bootstrap of an empty target applies every item that the filter accepts; the same
      bootstrap again finds each of them there. */
  lemma {:induction false} TwoBootstrapsCounted<R(!new)>(c: Config<R>, m: Metrics, items: seq<Keyed<R>>)
    requires GoodItems(c.rules, items)
    ensures var once := BootstrapAll(c, Sync([], m), items).0;
            var twice := BootstrapAll(c, once, items).0;
            var accepted := |items| - RejectedItems(c, items);
            && once.metrics.bootstrapApplied == m.bootstrapApplied + accepted
            && once.metrics.bootstrapSkippedIdempotent == m.bootstrapSkippedIdempotent
            && twice.metrics.bootstrapApplied == once.metrics.bootstrapApplied
            && twice.metrics.bootstrapSkippedIdempotent == once.metrics.bootstrapSkippedIdempotent + accepted
            && twice.metrics.bootstrapRevocationBreaches == once.metrics.bootstrapRevocationBreaches
                 == m.bootstrapRevocationBreaches
  {
    var once := BootstrapAll(c, Sync([], m), items).0;
    AbsentItemsApplied(c, Sync([], m), items);
    forall i | 0 <= i < |items| && AcceptsItem(c, items[i])
      ensures ReadRecord(once.target, items[i].key) == Some(items[i].value)
    {
      BootstrapPutsItem(c, Sync([], m), items, i);
    }
    PresentItemsSkipped(c, once, items);
  }

  /** No record of the target is under the key of an item. */
  ghost predicate NonePresent<R>(target: seq<Event<R>>, items: seq<Keyed<R>>) {
    forall i :: 0 <= i < |items| ==> ReadRecord(target, items[i].key) == None
  }

  lemma {:induction false} AbsentItemApplied<R(!new)>(c: Config<R>, s: Sync<R>, items: seq<Keyed<R>>)
    requires GoodItems(c.rules, items) && items != [] && NonePresent(s.target, items)
    ensures var m, s' := s.metrics, BootstrapOne(c, s, items[0]).0;
            && s'.metrics.bootstrapApplied == m.bootstrapApplied + (if AcceptsItem(c, items[0]) then 1 else 0)
            && s'.metrics.bootstrapSkippedIdempotent == m.bootstrapSkippedIdempotent
            && s'.metrics.bootstrapRevocationBreaches == m.bootstrapRevocationBreaches
            && NonePresent(s'.target, items[1..])
  {
    var s', rest := BootstrapOne(c, s, items[0]).0, items[1..];
    BootstrapOneEffect(c, s, items[0]);
    forall i | 0 <= i < |rest| ensures ReadRecord(s'.target, rest[i].key) == None {
      assert rest[i] == items[i + 1] && items[i + 1].key != items[0].key;
    }
  }

  lemma {:induction false} AbsentItemsApplied<R(!new)>(c: Config<R>, s: Sync<R>, items: seq<Keyed<R>>)
    requires GoodItems(c.rules, items) && NonePresent(s.target, items)
    ensures var m, m' := s.metrics, BootstrapAll(c, s, items).0.metrics;
            && m'.bootstrapApplied == m.bootstrapApplied + |items| - RejectedItems(c, items)
            && m'.bootstrapSkippedIdempotent == m.bootstrapSkippedIdempotent
            && m'.bootstrapRevocationBreaches == m.bootstrapRevocationBreaches
    decreases |items|
  {
    if items != [] {
      RestIsGood(c.rules, items);
      AbsentItemApplied(c, s, items);
      BootstrapOneEffect(c, s, items[0]);
      AbsentItemsApplied(c, BootstrapOne(c, s, items[0]).0, items[1..]);
    }
  }

  lemma {:induction false} PresentItemsSkipped<R(!new)>(c: Config<R>, s: Sync<R>, items: seq<Keyed<R>>)
    requires GoodItems(c.rules, items)
    requires forall i :: 0 <= i < |items| && AcceptsItem(c, items[i]) ==>
               ReadRecord(s.target, items[i].key) == Some(items[i].value)
    ensures var m, m' := s.metrics, BootstrapAll(c, s, items).0.metrics;
            && m'.bootstrapSkippedIdempotent == m.bootstrapSkippedIdempotent + |items| - RejectedItems(c, items)
            && m'.bootstrapApplied == m.bootstrapApplied
            && m'.bootstrapRevocationBreaches == m.bootstrapRevocationBreaches
    decreases |items|
  {
    if items != [] {
      var rest := items[1..];
      RestIsGood(c.rules, items);
      assert forall i :: 0 <= i < |rest| ==> rest[i] == items[i + 1];
      PresentItemsSkipped(c, BootstrapOne(c, s, items[0]).0, rest);
    }
  }
}
