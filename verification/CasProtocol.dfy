/** Compare-and-set writes taken apart: the read that observes a revision, the gate read
    and the update are separate steps, and any other writes may come between them. */
module CasProtocol {
  import opened Common
  import opened Buckets
  import opened Backends
  import Policies

  /** A writer between its steps. */
  datatype Writer<+R> =
    | Idle
    | Observed(key: string, revision: nat)
    | Gated(key: string, revision: nat, record: R)

  datatype World<R> = World(history: seq<Event<R>>, writers: map<nat, Writer<R>>)

  /** One step of anybody: a plain put, a tombstone, or the next step of a CAS writer. */
  datatype Action<+R> =
    | DoPut(record: R)
    | DoDelete(key: string)
    | DoObserve(id: nat, key: string)
    | DoGate(id: nat, record: R)
    | DoCommit(id: nat)

  function WriterOf<R>(w: World<R>, id: nat): Writer<R> {
    if id in w.writers then w.writers[id] else Idle
  }

  function SetWriter<R>(w: World<R>, id: nat, writer: Writer<R>): World<R> {
    w.(writers := w.writers[id := writer])
  }

  /** A step that is not enabled changes nothing; a refused step sends the writer back. */
  function Step<R>(rules: Rules<R>, w: World<R>, a: Action<R>): World<R> {
    match a
    case DoPut(record) => w.(history := PlainPut(rules, w.history, record).1)
    case DoDelete(key) => w.(history := Tombstone(w.history, key))
    case DoObserve(id, key) =>
      (match Read(w.history, key)
       case None => SetWriter(w, id, Idle)
       case Some(v) => SetWriter(w, id, Observed(key, v.revision)))
    case DoGate(id, record) =>
      (match WriterOf(w, id)
       case Observed(key, revision) =>
         if rules.keyOf(record) != Some(key) || GateCheck(rules, w.history, record).Some? then SetWriter(w, id, Idle)
         else SetWriter(w, id, Gated(key, revision, record))
       case _ => w)
    case DoCommit(id) =>
      (match WriterOf(w, id)
       case Gated(key, revision, record) =>
         SetWriter(w, id, Idle).(history := Commit(w.history, key, record, revision).1)
       case _ => w)
  }

  function Run<R>(rules: Rules<R>, w: World<R>, actions: seq<Action<R>>): World<R>
    decreases |actions|
  {
    if actions == [] then w else Run(rules, Step(rules, w, actions[0]), actions[1..])
  }

  /** An empty bucket and no writer under way. */
  function Start<R>(): World<R> { World([], map[]) }

  /* ---------- the invariant ---------- */

  /** The revision is that of a PUT on the (non-empty) key somewhere in the history. */
  predicate ObservedAt<R>(h: seq<Event<R>>, key: string, revision: nat) {
    key != "" && 0 < revision <= |h| && h[revision - 1].Put? && h[revision - 1].key == key
  }

  ghost predicate WriterInv<R>(rules: Rules<R>, h: seq<Event<R>>, writer: Writer<R>) {
    match writer
    case Idle => true
    case Observed(key, revision) => ObservedAt(h, key, revision)
    case Gated(key, revision, record) =>
      && ObservedAt(h, key, revision)
      && rules.keyOf(record) == Some(key)
      && exists n :: revision <= n <= |h| && GateCheck(rules, h[..n], record).None?
  }

  ghost predicate Inv<R>(rules: Rules<R>, w: World<R>) {
    forall id :: id in w.writers ==> WriterInv(rules, w.history, w.writers[id])
  }

  lemma {:induction false} AppendKeepsWriter<R>(rules: Rules<R>, h: seq<Event<R>>, e: Event<R>, writer: Writer<R>)
    requires WriterInv(rules, h, writer)
    ensures WriterInv(rules, h + [e], writer)
  {
    if writer.Gated? {
      var n :| writer.revision <= n <= |h| && GateCheck(rules, h[..n], writer.record).None?;
      assert (h + [e])[..n] == h[..n];
    }
  }

  lemma {:induction false} AppendKeepsInv<R>(rules: Rules<R>, w: World<R>, e: Event<R>)
    requires Inv(rules, w)
    ensures Inv(rules, w.(history := w.history + [e]))
  {
    forall id | id in w.writers ensures WriterInv(rules, w.history + [e], w.writers[id]) {
      AppendKeepsWriter(rules, w.history, e, w.writers[id]);
    }
  }

  lemma {:induction false} StepKeepsInv<R>(rules: Rules<R>, w: World<R>, a: Action<R>)
    requires Inv(rules, w)
    ensures Inv(rules, Step(rules, w, a))
  {
    match a
    case DoPut(record) =>
      if rules.keyOf(record).Some? { AppendKeepsInv(rules, w, Put(rules.keyOf(record).value, record)); }
    case DoDelete(key) => AppendKeepsInv(rules, w, Delete(key, false));
    case DoObserve(id, key) =>
      if Read(w.history, key).Some? {
      }
    case DoGate(id, record) => GateKeepsInv(rules, w, id, record);
    case DoCommit(id) =>
      if WriterOf(w, id).Gated? {
        var writer := WriterOf(w, id);
        AppendKeepsInv(rules, SetWriter(w, id, Idle), Put(writer.key, writer.record));
      }
  }

  lemma {:induction false} GateKeepsInv<R>(rules: Rules<R>, w: World<R>, id: nat, record: R)
    requires Inv(rules, w)
    ensures Inv(rules, Step(rules, w, DoGate(id, record)))
  {
    var writer := WriterOf(w, id);
    if writer.Observed? && rules.keyOf(record) == Some(writer.key) && GateCheck(rules, w.history, record).None? {
      assert WriterInv(rules, w.history, writer);
      assert w.history[..|w.history|] == w.history;
    }
  }

  lemma {:induction false} RunKeepsInv<R>(rules: Rules<R>, w: World<R>, actions: seq<Action<R>>)
    requires Inv(rules, w)
    ensures Inv(rules, Run(rules, w, actions))
    decreases |actions|
  {
    if actions != [] {
      StepKeepsInv(rules, w, actions[0]);
      RunKeepsInv(rules, Step(rules, w, actions[0]), actions[1..]);
    }
  }

  /** Whatever the steps, the bucket stays well-keyed. */
  lemma {:induction false} RunKeepsWellKeyed<R(!new)>(rules: Rules<R>, w: World<R>, actions: seq<Action<R>>)
    requires NonEmptyKeys(rules) && WellKeyed(rules, w.history) && Inv(rules, w)
    ensures WellKeyed(rules, Run(rules, w, actions).history)
    decreases |actions|
  {
    if actions != [] {
      var a := actions[0];
      StepKeepsInv(rules, w, a);
      StepKeepsWellKeyed(rules, w, a);
      RunKeepsWellKeyed(rules, Step(rules, w, a), actions[1..]);
    }
  }

  lemma {:induction false} StepKeepsWellKeyed<R(!new)>(rules: Rules<R>, w: World<R>, a: Action<R>)
    requires NonEmptyKeys(rules) && WellKeyed(rules, w.history) && Inv(rules, w)
    ensures WellKeyed(rules, Step(rules, w, a).history)
  {
    match a
    case DoPut(record) => WritesKeepWellKeyed(rules, w.history, record, 0, "");
    case DoDelete(key) => if Live(w.history, key).Some? { assert key != ""; }
    case DoCommit(id) =>
      if WriterOf(w, id).Gated? { assert WriterInv(rules, w.history, WriterOf(w, id)); }
    case _ =>
  }

  /* ---------- the main result ---------- */

  /** If the expected revision is no later than the gate read, a write that succeeds
      replaces the very record the gate was checked against. */
  lemma {:induction false} GatePinsCommit<R>(
      rules: Rules<R>, g: seq<Event<R>>, h: seq<Event<R>>, record: R, expected: nat)
    requires g <= h && GateCheck(rules, g, record).None? && rules.keyOf(record) != Some("") && expected <= |g|
    requires Revision(h, rules.keyOf(record).value) == expected
    ensures var live := Live(h, rules.keyOf(record).value);
            live.Some? ==> Live(g, rules.keyOf(record).value) == live && !rules.refuses(live.value.record, record)
  {
    var key := rules.keyOf(record).value;
    if Live(h, key).Some? {
      assert h[..|g|] == g;
      LiveSinceRevision(h, |g|, key);
    }
  }

  lemma {:induction false} GatedCommit<R>(rules: Rules<R>, h: seq<Event<R>>, writer: Writer<R>)
    requires writer.Gated? && WriterInv(rules, h, writer) && Revision(h, writer.key) == writer.revision
    ensures Live(h, writer.key).Some? && Live(h, writer.key).value.revision == writer.revision
    ensures !rules.refuses(Live(h, writer.key).value.record, writer.record)
  {
    var n :| writer.revision <= n <= |h| && GateCheck(rules, h[..n], writer.record).None?;
    GatePinsCommit(rules, h[..n], h, writer.record, writer.revision);
  }

  /** In every interleaving, a compare-and-set write that succeeds replaces exactly the
      revision its caller observed, and the gate holds against the record it replaces. */
  lemma {:induction false} CommitReplacesTheObserved<R>(rules: Rules<R>, actions: seq<Action<R>>, id: nat)
    requires var w := Run(rules, Start(), actions);
             && WriterOf(w, id).Gated?
             && |Step(rules, w, DoCommit(id)).history| > |w.history|
    ensures var w := Run(rules, Start(), actions);
            var writer := WriterOf(w, id);
            && Live(w.history, writer.key).Some?
            && Live(w.history, writer.key).value.revision == writer.revision
            && !rules.refuses(Live(w.history, writer.key).value.record, writer.record)
  {
    RunKeepsInv(rules, Start(), actions);
    var w := Run(rules, Start(), actions);
    assert WriterInv(rules, w.history, WriterOf(w, id));
    GatedCommit(rules, w.history, WriterOf(w, id));
  }

  /** For policies: the write never clears or moves the revocation instant it replaces. */
  lemma {:induction false} CommitKeepsRevocation(actions: seq<Action<Policies.Record>>, id: nat)
    requires var w := Run(POLICY_RULES, Start(), actions);
             && WriterOf(w, id).Gated?
             && |Step(POLICY_RULES, w, DoCommit(id)).history| > |w.history|
    ensures var w := Run(POLICY_RULES, Start(), actions);
            var writer := WriterOf(w, id);
            && Live(w.history, writer.key).Some?
            && var replaced := Live(w.history, writer.key).value.record;
               replaced.policy.revokedAt.Some? ==> writer.record.policy.revokedAt == replaced.policy.revokedAt
  {
    CommitReplacesTheObserved(POLICY_RULES, actions, id);
  }

  /* ---------- the write in one call ---------- */

  /** Gate and commit of an observed writer, with nothing in between, are the one-call
      write at the observed revision. */
  lemma {:induction false} GateThenCommit<R(!new)>(rules: Rules<R>, w: World<R>, id: nat, record: R)
    requires WriterOf(w, id).Observed? && rules.keyOf(record) == Some(WriterOf(w, id).key)
    ensures Step(rules, Step(rules, w, DoGate(id, record)), DoCommit(id)).history ==
              CasPut(rules, w.history, record, WriterOf(w, id).revision).1
  {
  }

  /** When the one-call write succeeds, on the live record of the key: with 0 it creates an
      absent key, otherwise it replaces the live record of that revision, unless the rules
      refuse.  It then appends the record, and changes nothing in any other case. */
  lemma {:induction false} CasPutIff<R(!new)>(rules: Rules<R>, h: seq<Event<R>>, record: R, expected: int)
    requires rules.keyOf(record) != Some("")
    ensures var (r, h') := CasPut(rules, h, record, expected);
            && (r.Ok? <==>
                  && rules.keyOf(record).Some?
                  && match Live(h, rules.keyOf(record).value)
                     case None => expected == 0
                     case Some(live) => live.revision == expected && !rules.refuses(live.record, record))
            && (r.Ok? ==> r.value == |h| + 1 && h' == h + [Put(rules.keyOf(record).value, record)])
            && (r.Err? ==> h' == h)
            && (r == Err(RevocationConflict) <==>
                  && expected >= 0 && rules.keyOf(record).Some?
                  && Live(h, rules.keyOf(record).value).Some?
                  && rules.refuses(Live(h, rules.keyOf(record).value).value.record, record))
            && (r == Err(ValueError) <==> expected < 0 || rules.keyOf(record).None?)
  {
  }

  /* ---------- when a revision may be expected ---------- */

  /** After passing the gate on g, the write is safe: in every later history of the bucket
      in which it succeeds, it does not clear or move a revocation. */
  ghost predicate SafeCommit(g: seq<Event<Policies.Record>>, record: Policies.Record, expected: nat)
    requires Policies.KeyOf(record).Some?
  {
    forall h: seq<Event<Policies.Record>> ::
      g <= h && WellKeyed(POLICY_RULES, h) && Commit(h, Policies.KeyOf(record).value, record, expected).0.Ok?
      ==> !Clears(h, record)
  }

  /** The live record of the key is one that the record must not replace. */
  predicate Clears(h: seq<Event<Policies.Record>>, record: Policies.Record)
    requires Policies.KeyOf(record).Some?
  {
    var live := Live(h, Policies.KeyOf(record).value);
    live.Some? && Policies.Refuses(live.value.record, record)
  }

  /** The same policy, revoked at another instant. */
  function Moved(record: Policies.Record): (moved: Policies.Record)
    ensures Policies.KeyOf(moved) == Policies.KeyOf(record) && Policies.Refuses(moved, record)
    ensures Policies.ValidRecord(record) ==> Policies.ValidRecord(moved)
  {
    var at := record.policy.revokedAt;
    record.(policy := record.policy.(revokedAt := Some(if at.Some? then at.value + 1 else 0)), marker := None)
  }

  /** A guessed revision: a bucket that reaches it by a revocation the gate did not see, so
      that the write succeeds and clears the revocation. */
  lemma {:induction false} GuessedRevisionClears(g: seq<Event<Policies.Record>>, record: Policies.Record, expected: nat)
      returns (h: seq<Event<Policies.Record>>)
    requires WellKeyed(POLICY_RULES, g) && GateCheck(POLICY_RULES, g, record).None? && expected > |g|
    ensures g <= h && WellKeyed(POLICY_RULES, h) && Clears(h, record)
    ensures var key := Policies.KeyOf(record).value;
            Commit(h, key, record, expected) == (Ok(|h| + 1), h + [Put(key, record)])
  {
    var key := Policies.KeyOf(record).value;
    PolicyKeysNonEmpty();
    var before := g + seq(expected - 1 - |g|, i => Put(key, record));
    var revocation: Event<Policies.Record> := Put(key, Moved(record));
    h := before + [revocation];
    LiveAppend(before, revocation, key);
  }

  /** A write that has passed the gate is safe exactly when the revision it expects is no
      later than the bucket's at the gate read: an observed one is, a guessed one is not. */
  lemma {:induction false} SafeExactlyWhenObserved(
      g: seq<Event<Policies.Record>>, record: Policies.Record, expected: nat)
    requires WellKeyed(POLICY_RULES, g) && GateCheck(POLICY_RULES, g, record).None?
    ensures SafeCommit(g, record, expected) <==> expected <= |g|
  {
    PolicyKeysNonEmpty();
    if expected <= |g| {
      forall h: seq<Event<Policies.Record>> |
        g <= h && WellKeyed(POLICY_RULES, h) && Commit(h, Policies.KeyOf(record).value, record, expected).0.Ok?
        ensures !Clears(h, record)
      {
        GatePinsCommit(POLICY_RULES, g, h, record, expected);
      }
    } else {
      var h := GuessedRevisionClears(g, record, expected);
    }
  }
}
