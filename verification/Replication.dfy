/** One-way replication of a source bucket onto a target bucket: bootstrap from a
    snapshot, then the source's watch-stream, under either conflict policy.  The schema
    replicator is the instance whose rules refuse nothing. */
module Replication {
  import opened Common
  import opened KeyedSort
  import opened Buckets
  import opened Backends

  datatype Metrics = Metrics(
    bootstrapApplied: nat,
    bootstrapSkippedByFilter: nat,
    bootstrapSkippedIdempotent: nat,
    bootstrapRevocationBreaches: nat,
    eventsAppliedPut: nat,
    eventsAppliedDelete: nat,
    eventsSkippedByFilter: nat,
    envelopeErrors: nat,
    casConflicts: nat,
    revocationBreaches: nat)

  const FRESH_METRICS := Metrics(0, 0, 0, 0, 0, 0, 0, 0, 0, 0)

  datatype ConflictPolicy = SOURCE_WINS | CAS_PIN

  /** The filter sees an event with its revision. */
  datatype Config<!R> = Config(
    rules: Rules<R>,
    conflictPolicy: ConflictPolicy,
    accepts: (Event<R>, nat) -> bool,
    haltOnConflict: bool,
    haltOnBreach: bool,
    haltOnEnvelopeError: bool)

  /** The replicator's state: the target's history and the counters. */
  datatype Sync<+R> = Sync(target: seq<Event<R>>, metrics: Metrics)

  /** The source's watch-stream: events with successive revisions from the first one on;
      a broken stream ends in an envelope that does not decode. */
  datatype Stream<+R> = Stream(first: nat, events: seq<Event<R>>, broken: bool)

  datatype RunError = WriteError(error: BackendError) | EnvelopeError

  /* ---------- bootstrap ---------- */

  /** The live target record is one the rules refuse to replace with the incoming one. */
  predicate Breach<R>(rules: Rules<R>, target: seq<Event<R>>, key: string, record: R) {
    var live := ReadRecord(target, key);
    live.Some? && rules.refuses(live.value, record)
  }

  /** For the filter the bootstrap makes up a PUT event with revision 0. */
  predicate AcceptsItem<R>(c: Config<R>, item: Keyed<R>) { c.accepts(Put(item.key, item.value), 0) }

  /** One source record: skipped by the filter, already there, refused, or put. */
  function BootstrapOne<R(==)>(c: Config<R>, s: Sync<R>, item: Keyed<R>): (Sync<R>, Option<BackendError>) {
    var m := s.metrics;
    if !AcceptsItem(c, item) then
      (s.(metrics := m.(bootstrapSkippedByFilter := m.bootstrapSkippedByFilter + 1)), None)
    else if ReadRecord(s.target, item.key) == Some(item.value) then
      (s.(metrics := m.(bootstrapSkippedIdempotent := m.bootstrapSkippedIdempotent + 1)), None)
    else if Breach(c.rules, s.target, item.key, item.value) then
      (s.(metrics := m.(bootstrapRevocationBreaches := m.bootstrapRevocationBreaches + 1)), None)
    else
      match PlainPut(c.rules, s.target, item.value)
      case (Ok(_), target') => (Sync(target', m.(bootstrapApplied := m.bootstrapApplied + 1)), None)
      case (Err(error), _) => (s, Some(error))
  }

  function BootstrapAll<R(==)>(c: Config<R>, s: Sync<R>, items: seq<Keyed<R>>): (Sync<R>, Option<BackendError>)
    decreases |items|
  {
    if items == [] then (s, None)
    else
      match BootstrapOne(c, s, items[0])
      case (s', None) => BootstrapAll(c, s', items[1..])
      case (s', Some(error)) => (s', Some(error))
  }

  /* ---------- the watch-stream ---------- */

  /** Where a PUT event ends: counted as applied, as a breach, as a conflict, or raised. */
  function AfterPut<R>(
      c: Config<R>, s: Sync<R>, r: (Result<nat, BackendError>, seq<Event<R>>)): (Sync<R>, Option<BackendError>)
  {
    var m := s.metrics;
    match r.0
    case Ok(_) => (Sync(r.1, m.(eventsAppliedPut := m.eventsAppliedPut + 1)), None)
    case Err(RevocationConflict) =>
      (s.(metrics := m.(revocationBreaches := m.revocationBreaches + 1)),
       if c.haltOnBreach then Some(RevocationConflict) else None)
    case Err(CasConflict) =>
      (s.(metrics := m.(casConflicts := m.casConflicts + 1)), if c.haltOnConflict then Some(CasConflict) else None)
    case Err(ValueError) => (s, Some(ValueError))
  }

  function ApplyPut<R>(c: Config<R>, s: Sync<R>, key: string, record: R): (Sync<R>, Option<BackendError>) {
    match c.conflictPolicy
    case SOURCE_WINS =>
      AfterPut(c, s, if Breach(c.rules, s.target, key, record) then (Err(RevocationConflict), s.target)
                     else PlainPut(c.rules, s.target, record))
    case CAS_PIN =>
      AfterPut(c, s, match Read(s.target, key)
                     case None => PlainPut(c.rules, s.target, record)
                     case Some(v) => CasPut(c.rules, s.target, record, v.revision))
  }

  function Consume<R>(c: Config<R>, s: Sync<R>, e: Event<R>, revision: nat): (Sync<R>, Option<BackendError>) {
    var m := s.metrics;
    if !c.accepts(e, revision) then (s.(metrics := m.(eventsSkippedByFilter := m.eventsSkippedByFilter + 1)), None)
    else match e
      case Put(key, record) => ApplyPut(c, s, key, record)
      case Delete(key, _) =>
        if key == "" then (s, Some(ValueError))
        else (Sync(Tombstone(s.target, key), m.(eventsAppliedDelete := m.eventsAppliedDelete + 1)), None)
  }

  function ConsumeAll<R>(
      c: Config<R>, s: Sync<R>, events: seq<Event<R>>, first: nat): (Sync<R>, Option<BackendError>)
    decreases |events|
  {
    if events == [] then (s, None)
    else
      match Consume(c, s, events[0], first)
      case (s', None) => ConsumeAll(c, s', events[1..], first + 1)
      case (s', Some(error)) => (s', Some(error))
  }

  /** An envelope that does not decode is counted, and raised if the flag says so. */
  function CountEnvelopeError<R>(c: Config<R>, s: Sync<R>): (Sync<R>, Option<RunError>) {
    (s.(metrics := s.metrics.(envelopeErrors := s.metrics.envelopeErrors + 1)),
     if c.haltOnEnvelopeError then Some(EnvelopeError) else None)
  }

  /** A run: the bootstrap, if asked for, then the events until the stream ends or raises. */
  function RunAll<R(==)>(
      c: Config<R>, s: Sync<R>, bootstrap: bool, items: seq<Keyed<R>>, stream: Stream<R>)
      : (Sync<R>, Option<RunError>)
  {
    var (s', failed) := if bootstrap then BootstrapAll(c, s, items) else (s, None);
    if failed.Some? then (s', Some(WriteError(failed.value)))
    else
      match ConsumeAll(c, s', stream.events, stream.first)
      case (end, Some(error)) => (end, Some(WriteError(error)))
      case (end, None) => if stream.broken then CountEnvelopeError(c, end) else (end, None)
  }

  /* ---------- the replicator ---------- */

  class Replicator<R(==,!new)> {
    const target: Backend<R>
    const config: Config<R>
    var metrics: Metrics

    ghost predicate Valid()
      reads target.kv
    {
      target.Valid() && config.rules == target.rules
    }

    ghost function State(): Sync<R>
      reads this, target.kv
    {
      Sync(target.kv.history, metrics)
    }

    constructor (target: Backend<R>, config: Config<R>)
      ensures this.target == target && this.config == config && metrics == FRESH_METRICS
    {
      this.target, this.config, metrics := target, config, FRESH_METRICS;
    }

    /** Copies the records of a source snapshot, in key order, onto the target. */
    method Bootstrap(items: seq<Keyed<R>>) returns (error: Option<BackendError>)
      requires Valid()
      modifies this, target.kv
      ensures Valid() && (State(), error) == BootstrapAll(config, old(State()), items)
    {
      for i := 0 to |items|
        invariant Valid()
        invariant BootstrapAll(config, State(), items[i..]) == BootstrapAll(config, old(State()), items)
      {
        assert items[i..][1..] == items[i + 1..];
        error := BootstrapRecord(items[i].key, items[i].value);
        if error.Some? { return; }
      }
      return None;
    }

    method BootstrapRecord(key: string, record: R) returns (error: Option<BackendError>)
      requires Valid()
      modifies this, target.kv
      ensures Valid() && (State(), error) == BootstrapOne(config, old(State()), Keyed(key, record))
    {
      if !config.accepts(Put(key, record), 0) {
        metrics := metrics.(bootstrapSkippedByFilter := metrics.bootstrapSkippedByFilter + 1);
        return None;
      }
      var existing := target.Get(key);
      if existing == Some(record) {
        metrics := metrics.(bootstrapSkippedIdempotent := metrics.bootstrapSkippedIdempotent + 1);
        return None;
      }
      if existing.Some? && config.rules.refuses(existing.value, record) {
        metrics := metrics.(bootstrapRevocationBreaches := metrics.bootstrapRevocationBreaches + 1);
        return None;
      }
      var r := target.Put(record);
      if r.Err? { return Some(r.error); }
      metrics := metrics.(bootstrapApplied := metrics.bootstrapApplied + 1);
      return None;
    }

    method ApplyPutEvent(key: string, record: R) returns (error: Option<BackendError>)
      requires Valid()
      modifies this, target.kv
      ensures Valid() && (State(), error) == ApplyPut(config, old(State()), key, record)
    {
      ghost var start := State();
      var r;
      if config.conflictPolicy == SOURCE_WINS {
        var live := target.Get(key);
        if live.Some? && config.rules.refuses(live.value, record) {
          metrics := metrics.(revocationBreaches := metrics.revocationBreaches + 1);
          return if config.haltOnBreach then Some(RevocationConflict) else None;
        }
        r := target.Put(record);
      } else {
        var existing := target.GetWithRevision(key);
        if existing.None? {
          r := target.Put(record);
        } else {
          r := target.PutWithRevision(record, existing.value.revision);
        }
      }
      assert ApplyPut(config, start, key, record) == AfterPut(config, start, (r, target.kv.history));
      match r
      case Ok(_) =>
        metrics := metrics.(eventsAppliedPut := metrics.eventsAppliedPut + 1);
        return None;
      case Err(RevocationConflict) =>
        metrics := metrics.(revocationBreaches := metrics.revocationBreaches + 1);
        return if config.haltOnBreach then Some(RevocationConflict) else None;
      case Err(CasConflict) =>
        metrics := metrics.(casConflicts := metrics.casConflicts + 1);
        return if config.haltOnConflict then Some(CasConflict) else None;
      case Err(ValueError) =>
        return Some(ValueError);
    }

    method ConsumeEvent(e: Event<R>, revision: nat) returns (error: Option<BackendError>)
      requires Valid()
      modifies this, target.kv
      ensures Valid() && (State(), error) == Consume(config, old(State()), e, revision)
    {
      if !config.accepts(e, revision) {
        metrics := metrics.(eventsSkippedByFilter := metrics.eventsSkippedByFilter + 1);
        return None;
      }
      if e.Put? {
        error := ApplyPutEvent(e.key, e.record);
        return;
      }
      var r := target.Delete(e.key);
      if r.Err? { return Some(r.error); }
      metrics := metrics.(eventsAppliedDelete := metrics.eventsAppliedDelete + 1);
      return None;
    }

    method Run(bootstrap: bool, items: seq<Keyed<R>>, stream: Stream<R>) returns (error: Option<RunError>)
      requires Valid()
      modifies this, target.kv
      ensures Valid() && (State(), error) == RunAll(config, old(State()), bootstrap, items, stream)
    {
      if bootstrap {
        var failed := Bootstrap(items);
        if failed.Some? { return Some(WriteError(failed.value)); }
      }
      var failed := ConsumeEvents(stream.events, stream.first);
      if failed.Some? { return Some(WriteError(failed.value)); }
      if stream.broken {
        metrics := metrics.(envelopeErrors := metrics.envelopeErrors + 1);
        if config.haltOnEnvelopeError { return Some(EnvelopeError); }
      }
      return None;
    }

    /** The loop over the watch-stream. */
    method ConsumeEvents(events: seq<Event<R>>, first: nat) returns (error: Option<BackendError>)
      requires Valid()
      modifies this, target.kv
      ensures Valid() && (State(), error) == ConsumeAll(config, old(State()), events, first)
    {
      var rest, revision := events, first;
      while rest != []
        invariant Valid()
        invariant ConsumeAll(config, State(), rest, revision) == ConsumeAll(config, old(State()), events, first)
        decreases |rest|
      {
        error := ConsumeEvent(rest[0], revision);
        if error.Some? { return; }
        rest, revision := rest[1..], revision + 1;
      }
      return None;
    }
  }
}
