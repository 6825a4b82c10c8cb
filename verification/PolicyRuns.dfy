/** Whole runs of disciplined writers: creates, tombstones, compare-and-set writes with
    observed revisions, and atomic unrevokes. */
module PolicyRuns {
  import opened Common
  import opened Buckets
  import opened Backends
  import opened Policies
  import opened CasProtocol
  import opened Classifier
  import opened PublisherCli

  /** The record an unrevoke writes over the live record of its key. */
  predicate IsUnrevoke(h: History, record: Record) {
    && KeyOf(record).Some?
    && LiveRecord(h, KeyOf(record).value).Some?
    && LiveRecord(h, KeyOf(record).value).value.policy.revokedAt.Some?
    && record.marker.Some?
    && record == UnrevokedRecord(LiveRecord(h, KeyOf(record).value).value,
                                 record.marker.value.unrevokeReason, record.registeredAt, record.registeredByPublisher)
  }

  /** A plain put creates a key or is an unrevoke taken with its read as one step. */
  predicate Disciplined(w: World<Record>, a: Action<Record>) {
    a.DoPut? && KeyOf(a.record).Some? ==>
      LiveRecord(w.history, KeyOf(a.record).value).None? || IsUnrevoke(w.history, a.record)
  }

  predicate DisciplinedRun(w: World<Record>, actions: seq<Action<Record>>)
    decreases |actions|
  {
    actions == [] || (Disciplined(w, actions[0]) && DisciplinedRun(Step(POLICY_RULES, w, actions[0]), actions[1..]))
  }

  /** For each operation a run adds to the history: is it an unrevoke? */
  function Deliberate(w: World<Record>, actions: seq<Action<Record>>): seq<bool>
    decreases |actions|
  {
    if actions == [] then []
    else
      var w' := Step(POLICY_RULES, w, actions[0]);
      (if |w'.history| > |w.history| then [actions[0].DoPut? && IsUnrevoke(w.history, actions[0].record)] else [])
      + Deliberate(w', actions[1..])
  }

  /** The kinds a classifier gives to a stretch of the stream. */
  function ClassifyAll(m: Instants, events: seq<Event<Record>>): seq<Kind>
    decreases |events|
  {
    if events == [] then []
    else [KindOf(Prior(m, events[0].key), events[0])] + ClassifyAll(ObserveEvent(m, events[0]), events[1..])
  }

  lemma {:induction false} ClassifyCons(m: Instants, e: Event<Record>, rest: seq<Event<Record>>)
    ensures ClassifyAll(m, [e] + rest) == [KindOf(Prior(m, e.key), e)] + ClassifyAll(ObserveEvent(m, e), rest)
  {
    assert ([e] + rest)[1..] == rest;
  }

  /** The revocation instant of the live record of a key. */
  function LiveInstant(h: History, key: string): Option<Instant> {
    match LiveRecord(h, key)
    case None => None
    case Some(record) => record.policy.revokedAt
  }

  /** A classifier that has seen the history knows the live instants. */
  ghost predicate UpToDate(m: Instants, h: History) {
    forall key :: Prior(m, key) == LiveInstant(h, key)
  }

  lemma {:induction false} ObserveKeepsUpToDate(m: Instants, h: History, e: Event<Record>)
    requires UpToDate(m, h)
    ensures UpToDate(ObserveEvent(m, e), h + [e])
  {
    forall key ensures Prior(ObserveEvent(m, e), key) == LiveInstant(h + [e], key) {
      LiveAppend(h, e, key);
      assert Prior(m, key) == LiveInstant(h, key);
    }
  }

  lemma {:induction false} ObserveAllAppend(m: Instants, h: History, e: Event<Record>)
    ensures ObserveAll(m, h + [e]) == ObserveEvent(ObserveAll(m, h), e)
    decreases |h|
  {
    if h == [] {
      assert h + [e] == [e] && [e][1..] == [];
    } else {
      assert (h + [e])[1..] == h[1..] + [e];
      ObserveAllAppend(ObserveEvent(m, h[0]), h[1..], e);
    }
  }

  lemma {:induction false} ObserveAllUpToDate(h: History)
    ensures UpToDate(ObserveAll(map[], h), h)
  {
    if h != [] {
      var n := |h| - 1;
      assert h == h[..n] + [h[n]];
      ObserveAllUpToDate(h[..n]);
      ObserveKeepsUpToDate(ObserveAll(map[], h[..n]), h[..n], h[n]);
      ObserveAllAppend(map[], h[..n], h[n]);
    }
  }

  /* ---------- one step ---------- */

  /** A disciplined step adds at most one operation; it is never a breach, and an explicit
      unrevoke exactly if the step is an unrevoke. */
  lemma {:induction false} StepKind(w: World<Record>, a: Action<Record>)
    requires Inv(POLICY_RULES, w) && Disciplined(w, a)
    ensures var h, h' := w.history, Step(POLICY_RULES, w, a).history;
            h' == h || (
              && |h'| == |h| + 1 && h' == h + [h'[|h|]]
              && var kind := KindOf(LiveInstant(h, h'[|h|].key), h'[|h|]);
                 && !kind.MonotonicBreach?
                 && (kind.ExplicitUnrevoke? <==> a.DoPut? && IsUnrevoke(h, a.record)))
  {
    match a
    case DoCommit(id) =>
      var writer := WriterOf(w, id);
      if writer.Gated? && Revision(w.history, writer.key) == writer.revision {
        assert WriterInv(POLICY_RULES, w.history, writer);
        GatedCommit(POLICY_RULES, w.history, writer);
      }
    case _ =>
  }

  /* ---------- whole runs ---------- */

  /** No breach anywhere, and explicit unrevokes exactly at the flagged positions. */
  ghost predicate KindsMatch(kinds: seq<Kind>, deliberate: seq<bool>) {
    && |kinds| == |deliberate|
    && forall i :: 0 <= i < |kinds| ==> !kinds[i].MonotonicBreach? && (kinds[i].ExplicitUnrevoke? <==> deliberate[i])
  }

  lemma {:induction false} KindsMatchCons(kind: Kind, kinds: seq<Kind>, flag: bool, deliberate: seq<bool>)
    requires KindsMatch(kinds, deliberate) && !kind.MonotonicBreach? && (kind.ExplicitUnrevoke? <==> flag)
    ensures KindsMatch([kind] + kinds, [flag] + deliberate)
  {
  }

  lemma {:induction false} OneMoreKind(
      m: Instants, h: seq<Event<Record>>, e: Event<Record>, h': seq<Event<Record>>, flag: bool, deliberate: seq<bool>)
    requires h + [e] <= h' && KindsMatch(ClassifyAll(ObserveEvent(m, e), h'[|h| + 1..]), deliberate)
    requires var kind := KindOf(Prior(m, e.key), e); !kind.MonotonicBreach? && (kind.ExplicitUnrevoke? <==> flag)
    ensures KindsMatch(ClassifyAll(m, h'[|h|..]), [flag] + deliberate)
  {
    assert h'[|h|..] == [e] + h'[|h| + 1..];
    ClassifyCons(m, e, h'[|h| + 1..]);
    KindsMatchCons(KindOf(Prior(m, e.key), e), ClassifyAll(ObserveEvent(m, e), h'[|h| + 1..]), flag, deliberate);
  }

  /** The first step of a disciplined run: nothing is written, or one operation whose kind
      tells whether the step is an unrevoke. */
  lemma {:induction false} FirstStep(w: World<Record>, actions: seq<Action<Record>>, m: Instants)
      returns (w': World<Record>, flag: bool)
    requires Inv(POLICY_RULES, w) && DisciplinedRun(w, actions) && actions != [] && UpToDate(m, w.history)
    ensures Inv(POLICY_RULES, w') && DisciplinedRun(w', actions[1..])
    ensures Run(POLICY_RULES, w, actions) == Run(POLICY_RULES, w', actions[1..])
    ensures Deliberate(w, actions) ==
              (if |w'.history| > |w.history| then [flag] else []) + Deliberate(w', actions[1..])
    ensures w'.history == w.history || (
              && |w'.history| == |w.history| + 1 && w'.history == w.history + [w'.history[|w.history|]]
              && var e := w'.history[|w.history|];
                 var kind := KindOf(Prior(m, e.key), e);
                 !kind.MonotonicBreach? && (kind.ExplicitUnrevoke? <==> flag))
  {
    w' := Step(POLICY_RULES, w, actions[0]);
    flag := actions[0].DoPut? && IsUnrevoke(w.history, actions[0].record);
    StepKind(w, actions[0]);
    StepKeepsInv(POLICY_RULES, w, actions[0]);
  }

  lemma {:induction false} RunKinds(w: World<Record>, actions: seq<Action<Record>>, m: Instants)
    requires Inv(POLICY_RULES, w) && DisciplinedRun(w, actions) && UpToDate(m, w.history)
    ensures var h, h' := w.history, Run(POLICY_RULES, w, actions).history;
            && h <= h'
            && var kinds := ClassifyAll(m, h'[|h|..]);
               KindsMatch(kinds, Deliberate(w, actions))
    decreases |actions|
  {
    if actions != [] {
      var w', flag := FirstStep(w, actions, m);
      if w'.history == w.history {
        RunKinds(w', actions[1..], m);
      } else {
        var e := w'.history[|w.history|];
        ObserveKeepsUpToDate(m, w.history, e);
        RunKinds(w', actions[1..], ObserveEvent(m, e));
        OneMoreKind(m, w.history, e, Run(POLICY_RULES, w', actions[1..]).history, flag, Deliberate(w', actions[1..]));
      }
    }
  }

  /** Over every disciplined run from the empty bucket, the classifier reports no breach,
      and explicit unrevokes exactly at the unrevoke steps. */
  lemma {:induction false} DisciplinedRunsNeverBreach(actions: seq<Action<Record>>)
    requires DisciplinedRun(Start(), actions)
    ensures var kinds := ClassifyAll(map[], Run(POLICY_RULES, Start(), actions).history);
            KindsMatch(kinds, Deliberate(Start(), actions))
  {
    RunKinds(Start(), actions, map[]);
    var h' := Run(POLICY_RULES, Start(), actions).history;
    assert h'[0..] == h';
  }

  /* ---------- runs without unrevokes are steady ---------- */

  lemma {:induction false} LiveAfterPut(h: History, i: nat, key: string)
    requires i < |h| && h[i].Put? && h[i].key == key && SameLife(h, i, |h|, key)
    ensures Live(h, key).Some? && Live(h, key).value.revision > i
    ensures SameLife(h, i, Live(h, key).value.revision - 1, key)
  {
    var last := h[|h| - 1];
    if i < |h| - 1 && last.key != key {
      var h' := h[..|h| - 1];
      assert forall k :: 0 <= k < |h'| ==> h'[k] == h[k];
      LiveAfterPut(h', i, key);
    }
  }

  lemma {:induction false} AppendKeepsSteady(h: History, e: Event<Record>)
    requires Steady(POLICY_RULES, h)
    requires e.Put? && Live(h, e.key).Some? ==> !Refuses(Live(h, e.key).value.record, e.record)
    ensures Steady(POLICY_RULES, h + [e])
  {
    var h' := h + [e];
    forall i, j | 0 <= i <= j < |h'| && h'[i].Put? && h'[j].Put? && h'[i].key == h'[j].key
                  && SameLife(h', i, j, h'[i].key)
      ensures !Refuses(h'[i].record, h'[j].record)
    {
      forall k | i < k < j && h'[k].key == h'[i].key ensures h'[k].Put? {}
      if i < j { assert h'[i] == h[i]; }
      if i == j {
      } else if j < |h| {
        assert h'[j] == h[j];
        assert SameLife(h, i, j, h[i].key) by {
          forall k | i < k < j && h[k].key == h[i].key ensures h[k].Put? { assert h'[k] == h[k]; }
        }
      } else {
        assert SameLife(h, i, |h|, e.key) by {
          forall k | i < k < |h| && h[k].key == e.key ensures h[k].Put? { assert h'[k] == h[k]; }
        }
        LiveAfterPut(h, i, e.key);
      }
    }
  }

  lemma {:induction false} RunKeepsSteady(w: World<Record>, actions: seq<Action<Record>>)
    requires Inv(POLICY_RULES, w) && DisciplinedRun(w, actions) && Steady(POLICY_RULES, w.history)
    requires forall i :: 0 <= i < |Deliberate(w, actions)| ==> !Deliberate(w, actions)[i]
    ensures Steady(POLICY_RULES, Run(POLICY_RULES, w, actions).history)
    decreases |actions|
  {
    if actions != [] {
      var w' := Step(POLICY_RULES, w, actions[0]);
      StepKind(w, actions[0]);
      StepKeepsInv(POLICY_RULES, w, actions[0]);
      var rest := Deliberate(w', actions[1..]);
      if w'.history != w.history {
        var e := w'.history[|w.history|];
        assert !Deliberate(w, actions)[0];
        AppendKeepsSteady(w.history, e);
        forall i | 0 <= i < |rest| ensures !rest[i] { assert rest[i] == Deliberate(w, actions)[i + 1]; }
      } else {
        assert Deliberate(w, actions) == rest;
      }
      RunKeepsSteady(w', actions[1..]);
    }
  }

  /** A disciplined run without unrevokes never changes a revocation instant between
      tombstones: the hypothesis under which replication converges. */
  lemma {:induction false} DisciplinedRunsAreSteady(actions: seq<Action<Record>>)
    requires DisciplinedRun(Start(), actions)
    requires forall i :: 0 <= i < |Deliberate(Start(), actions)| ==> !Deliberate(Start(), actions)[i]
    ensures Steady(POLICY_RULES, Run(POLICY_RULES, Start(), actions).history)
  {
    RunKeepsSteady(Start(), actions);
  }

  /* ---------- unrevokes whose read and write are apart ---------- */

  /** An unrevoke reads its target, anything may happen, then it writes.  A classifier of
      the whole stream sees the gesture exactly if the live instant is still the one read,
      and a breach exactly if another one has been set since. */
  lemma {:induction false} LateUnrevokeClassified(
      before: seq<Action<Record>>, id: nat, key: string, between: seq<Action<Record>>,
      reason: Option<string>, at: Instant, publisher: string)
    requires var h := Run(POLICY_RULES, Start(), before).history;
             Read(h, key).Some? && Read(h, key).value.record.policy.revokedAt.Some?
    ensures var w := Run(POLICY_RULES, Start(), before);
            var seen := Read(w.history, key).value.record;
            var late := Run(POLICY_RULES, Step(POLICY_RULES, w, DoObserve(id, key)), between);
            var record := UnrevokedRecord(seen, reason, at, publisher);
            var kind := KindOf(Prior(ObserveAll(map[], late.history), key), Put(key, record));
            var live := LiveInstant(late.history, key);
            && Step(POLICY_RULES, late, DoPut(record)).history == late.history + [Put(key, record)]
            && (kind.ExplicitUnrevoke? <==> live == seen.policy.revokedAt)
            && (kind.MonotonicBreach? <==> live.Some? && live != seen.policy.revokedAt)
            && (kind.NotRevocationRelated? <==> live.None?)
  {
    var w := Run(POLICY_RULES, Start(), before);
    PolicyKeysNonEmpty();
    RunKeepsWellKeyed(POLICY_RULES, Start(), before);
    var late := Run(POLICY_RULES, Step(POLICY_RULES, w, DoObserve(id, key)), between);
    ObserveAllUpToDate(late.history);
    assert Prior(ObserveAll(map[], late.history), key) == LiveInstant(late.history, key);
  }
}
