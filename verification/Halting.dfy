/** Replication with the halting flag: when no run of a source ever stops at a breach. */
module Halting {
  import opened Common
  import opened KeyedSort
  import opened Buckets
  import opened Backends
  import opened Replication
  import opened Convergence

  ghost predicate NoneBetween<R>(h: seq<Event<R>>, n: nat, q: nat, key: string)
    requires q <= |h|
  {
    forall k :: n < k < q ==> h[k].key != key
  }

  /** Records n and q of a key that a replay can bring together: q is replayed over n when n
      is later, or the one just before. */
  predicate BroughtTogether<R>(h: seq<Event<R>>, n: nat, q: nat)
    requires n < |h| && q < |h|
  {
    && h[n].Put? && h[q].Put? && h[n].key == h[q].key
    && (q <= n || forall k | n < k < q :: h[k].key != h[q].key)
  }

  /** No record is refused over one that a replay can bring it together with. */
  ghost predicate NeverRefuses<R>(rules: Rules<R>, h: seq<Event<R>>) {
    forall n, q :: 0 <= n < |h| && 0 <= q < |h| && BroughtTogether(h, n, q) ==> !rules.refuses(h[n].record, h[q].record)
  }

  /** The target's record of the key is none, one still to be replayed, or the last one
      replayed. */
  ghost predicate Traced<R>(h: seq<Event<R>>, p: nat, target: seq<Event<R>>, key: string)
    requires p <= |h|
  {
    || ReadRecord(target, key) == None
    || exists n :: 0 <= n < |h| && TracedTo(h, p, target, key, n)
  }

  ghost predicate TracedTo<R>(h: seq<Event<R>>, p: nat, target: seq<Event<R>>, key: string, n: nat)
    requires p <= |h| && n < |h|
  {
    && h[n].Put? && h[n].key == key
    && ReadRecord(target, key) == Some(h[n].record)
    && (p <= n || NoneBetween(h, n, p, key))
  }

  lemma {:induction false} TracedIsNoBreach<R(!new)>(rules: Rules<R>, h: seq<Event<R>>, p: nat, target: seq<Event<R>>)
    requires p < |h| && h[p].Put? && NeverRefuses(rules, h) && Traced(h, p, target, h[p].key)
    ensures !Breach(rules, target, h[p].key, h[p].record)
  {
    if ReadRecord(target, h[p].key).Some? {
      var n :| 0 <= n < |h| && TracedTo(h, p, target, h[p].key, n);
    }
  }

  lemma {:induction false} ConsumeUnrefused<R(!new)>(c: Config<R>, s: Sync<R>, h: seq<Event<R>>, p: nat)
    requires p < |h| && WellKeyed(c.rules, h) && AcceptsAll(c)
    requires h[p].Put? ==> !Breach(c.rules, s.target, h[p].key, h[p].record)
    ensures var (s', error) := Consume(c, s, h[p], p + 1);
            && error == None
            && s'.target == if h[p].Put? then s.target + [h[p]] else Tombstone(s.target, h[p].key)
  {
  }

  lemma {:induction false} ConsumeTraced<R(!new)>(c: Config<R>, s: Sync<R>, h: seq<Event<R>>, p: nat, key: string)
    requires p < |h| && WellKeyed(c.rules, h) && AcceptsAll(c) && NeverRefuses(c.rules, h)
    requires Traced(h, p, s.target, h[p].key) && Traced(h, p, s.target, key)
    ensures Consume(c, s, h[p], p + 1).1 == None && Traced(h, p + 1, Consume(c, s, h[p], p + 1).0.target, key)
  {
    var e, target := h[p], s.target;
    if e.Put? { TracedIsNoBreach(c.rules, h, p, target); }
    ConsumeUnrefused(c, s, h, p);
    var target' := Consume(c, s, e, p + 1).0.target;
    LiveAppend(target, e, key);
    LiveAppend(target, Delete(e.key, false), key);
    if e.key == key {
      if e.Put? { assert TracedTo(h, p + 1, target', key, p); }
    } else if ReadRecord(target, key).Some? {
      var n :| 0 <= n < |h| && TracedTo(h, p, target, key, n);
      assert TracedTo(h, p + 1, target', key, n);
    }
  }

  lemma {:induction false} ConsumeAllTraced<R(!new)>(c: Config<R>, s: Sync<R>, h: seq<Event<R>>, p: nat)
    requires p <= |h| && WellKeyed(c.rules, h) && AcceptsAll(c) && NeverRefuses(c.rules, h)
    requires forall key :: Traced(h, p, s.target, key)
    ensures ConsumeAll(c, s, h[p..], p + 1).1 == None
    decreases |h| - p
  {
    if p < |h| {
      var s', n := Consume(c, s, h[p], p + 1).0, p + 1;
      forall key ensures Traced(h, n, s'.target, key) {
        assert Traced(h, p, s.target, key) && Traced(h, p, s.target, h[p].key);
        ConsumeTraced(c, s, h, p, key);
      }
      assert Traced(h, p, s.target, h[p].key);
      ConsumeTraced(c, s, h, p, h[p].key);
      assert h[p..][0] == h[p] && h[p..][1..] == h[n..];
      ConsumeAllTraced(c, s', h, n);
    }
  }

  /** A record read at a cut is traced at every earlier position. */
  lemma {:induction false} CutTraced<R(!new)>(h: seq<Event<R>>, j: nat, cut: nat, target: seq<Event<R>>, key: string)
    requires j <= cut <= |h|
    requires ReadRecord(target, key) == None || ReadRecord(target, key) == ReadRecord(h[..cut], key)
    ensures Traced(h, j, target, key)
  {
    if ReadRecord(target, key).Some? {
      var n := Live(h[..cut], key).value.revision - 1;
      LiveSince(h[..cut], key);
      assert h[..cut][n] == h[n];
      forall k | n < k < j ensures h[k].key != key { assert h[..cut][k] == h[k]; }
      assert TracedTo(h, j, target, key, n);
    }
  }

  /** If no record is ever refused, no run from the empty target stops. */
  lemma {:induction false} UnrefusedRunsFinish<R(!new)>(
      c: Config<R>, m: Metrics, h: seq<Event<R>>, listed: nat, cut: string -> nat, items: seq<Keyed<R>>, j: nat)
    requires AcceptsAll(c) && WellKeyed(c.rules, h) && NeverRefuses(c.rules, h)
    requires j <= listed <= |h| && StaggeredSnapshot(h, listed, cut, items)
    ensures RunAll(c, Sync([], m), true, items, StreamFrom(h, j)).1 == None
  {
    SnapshotItemsGood(c.rules, h, listed, cut, items);
    var s := BootstrapAll(c, Sync([], m), items).0;
    forall key ensures Traced(h, j, s.target, key) {
      BootstrapFromEmpty(c, m, items, key);
      ItemOfKey(h, listed, cut, items, key);
      CutTraced(h, j, cut(key), s.target, key);
    }
    BootstrapFromEmpty(c, m, items, "");
    ConsumeAllTraced(c, s, h, j);
  }

  /** A refused replay at the head of the stream stops a halting run. */
  lemma {:induction false} BreachHalts<R(!new)>(c: Config<R>, s: Sync<R>, events: seq<Event<R>>, first: nat)
    requires c.haltOnBreach && AcceptsAll(c) && events != [] && events[0].Put?
    requires c.rules.keyOf(events[0].record) == Some(events[0].key) && events[0].key != ""
    requires Breach(c.rules, s.target, events[0].key, events[0].record)
    ensures ConsumeAll(c, s, events, first).1 == Some(RevocationConflict)
  {
  }
}
