/** Replication converges, and the bootstrap accounts for every record. */
module Convergence {
  import opened Common
  import opened Encodings
  import opened KeyedSort
  import opened Buckets
  import opened Backends
  import opened Replication

  ghost predicate AcceptsAll<R(!new)>(c: Config<R>) {
    forall e, revision: nat :: c.accepts(e, revision)
  }

  /** The filter accepts every event of the key; it may do anything with other keys. */
  ghost predicate AcceptsKey<R(!new)>(c: Config<R>, key: string) {
    forall e: Event<R>, revision: nat :: e.key == key ==> c.accepts(e, revision)
  }

  /** Source records under their own keys, one per key. */
  ghost predicate GoodItems<R>(rules: Rules<R>, items: seq<Keyed<R>>) {
    && DistinctKeys(items)
    && forall i :: 0 <= i < |items| ==> items[i].key != "" && rules.keyOf(items[i].value) == Some(items[i].key)
  }

  ghost predicate HasKey<R>(items: seq<Keyed<R>>, key: string) {
    exists i :: 0 <= i < |items| && items[i].key == key
  }

  /* ---------- single steps on a well-keyed record ---------- */

  /** Under either policy a PUT event puts the record unless the rules refuse it. */
  lemma {:induction false} ApplyPutEffect<R(!new)>(c: Config<R>, s: Sync<R>, key: string, record: R)
    requires key != "" && c.rules.keyOf(record) == Some(key) && !c.haltOnBreach
    ensures var (s', error) := ApplyPut(c, s, key, record);
            && error == None
            && s'.target == if Breach(c.rules, s.target, key, record) then s.target else s.target + [Put(key, record)]
  {
  }

  lemma {:induction false} BootstrapOneEffect<R(!new)>(c: Config<R>, s: Sync<R>, item: Keyed<R>)
    requires item.key != "" && c.rules.keyOf(item.value) == Some(item.key)
    ensures var (s', error) := BootstrapOne(c, s, item);
            && error == None
            && (s'.target == s.target
                || (s'.target == s.target + [Put(item.key, item.value)] && AcceptsItem(c, item)))
            && (forall key :: key != item.key ==> ReadRecord(s'.target, key) == ReadRecord(s.target, key))
            && Settled(c, s'.target, item)
  {
    LiveAppendAll(s.target, Put(item.key, item.value));
  }

  /* ---------- bootstrap ---------- */

  /** A second look at the item would leave the target alone. */
  ghost predicate Settled<R>(c: Config<R>, target: seq<Event<R>>, item: Keyed<R>) {
    || !AcceptsItem(c, item)
    || ReadRecord(target, item.key) == Some(item.value)
    || Breach(c.rules, target, item.key, item.value)
  }

  /** The bootstrap of good items never raises, settles every item, and leaves every key
      outside the items as it was. */
  lemma {:induction false} BootstrapEffect<R(!new)>(c: Config<R>, s: Sync<R>, items: seq<Keyed<R>>)
    requires GoodItems(c.rules, items)
    ensures var (s', error) := BootstrapAll(c, s, items);
            && error == None
            && (forall key :: !HasKey(items, key) ==> ReadRecord(s'.target, key) == ReadRecord(s.target, key))
            && (forall i :: 0 <= i < |items| ==> Settled(c, s'.target, items[i]))
    decreases |items|
  {
    if items != [] {
      var rest := items[1..];
      var s1 := BootstrapOne(c, s, items[0]).0;
      BootstrapOneEffect(c, s, items[0]);
      BootstrapEffect(c, s1, rest);
      var s' := BootstrapAll(c, s, items).0;
      forall key | !HasKey(items, key) ensures ReadRecord(s'.target, key) == ReadRecord(s.target, key) {
        assert items[0].key != key;
        assert forall i :: 0 <= i < |rest| ==> rest[i] == items[i + 1];
      }
      assert !HasKey(rest, items[0].key);
      forall i | 0 <= i < |items| ensures Settled(c, s'.target, items[i]) {
        if i > 0 { assert items[i] == rest[i - 1]; }
      }
    }
  }

  /** Keys the filter accepts no item for are untouched. */
  lemma {:induction false} BootstrapKeepsOthers<R(!new)>(c: Config<R>, s: Sync<R>, items: seq<Keyed<R>>, key: string)
    requires GoodItems(c.rules, items)
    requires forall i :: 0 <= i < |items| && items[i].key == key ==> !AcceptsItem(c, items[i])
    ensures ReadRecord(BootstrapAll(c, s, items).0.target, key) == ReadRecord(s.target, key)
    decreases |items|
  {
    if items != [] {
      BootstrapOneEffect(c, s, items[0]);
      BootstrapKeepsOthers(c, BootstrapOne(c, s, items[0]).0, items[1..], key);
    }
  }

  function BootstrapTotal(m: Metrics): nat {
    m.bootstrapApplied + m.bootstrapSkippedByFilter + m.bootstrapSkippedIdempotent + m.bootstrapRevocationBreaches
  }

  /** The four bootstrap counters grow by the number of source records. */
  lemma {:induction false} BootstrapAccountsForAll<R(!new)>(c: Config<R>, s: Sync<R>, items: seq<Keyed<R>>)
    requires GoodItems(c.rules, items)
    ensures BootstrapTotal(BootstrapAll(c, s, items).0.metrics) == BootstrapTotal(s.metrics) + |items|
    decreases |items|
  {
    if items != [] { BootstrapAccountsForAll(c, BootstrapOne(c, s, items[0]).0, items[1..]); }
  }

  lemma {:induction false} SettledStays<R(!new)>(c: Config<R>, s: Sync<R>, items: seq<Keyed<R>>)
    requires forall i :: 0 <= i < |items| ==> Settled(c, s.target, items[i])
    ensures var (s', error) := BootstrapAll(c, s, items);
            s'.target == s.target && s'.metrics.bootstrapApplied == s.metrics.bootstrapApplied && error == None
    decreases |items|
  {
    if items != [] {
      var s1 := BootstrapOne(c, s, items[0]).0;
      assert s1.target == s.target && BootstrapOne(c, s, items[0]).1 == None;
      SettledStays(c, s1, items[1..]);
    }
  }

  /** An immediate second bootstrap from the same items applies nothing and changes nothing. */
  lemma {:induction false} BootstrapIdempotent<R(!new)>(c: Config<R>, s: Sync<R>, items: seq<Keyed<R>>)
    requires GoodItems(c.rules, items)
    ensures var once := BootstrapAll(c, s, items).0;
            var (twice, error) := BootstrapAll(c, once, items);
            && error == None && twice.target == once.target
            && twice.metrics.bootstrapApplied == once.metrics.bootstrapApplied
  {
    BootstrapEffect(c, s, items);
    SettledStays(c, BootstrapAll(c, s, items).0, items);
  }

  /* ---------- snapshots taken key by key ---------- */

  /** Keys listed after the first `listed` operations, each then read at its own later cut. */
  ghost predicate StaggeredSnapshot<R(!new)>(h: seq<Event<R>>, listed: nat, cut: string -> nat, items: seq<Keyed<R>>)
    requires listed <= |h|
  {
    && (forall key :: listed <= cut(key) <= |h|)
    && DistinctKeys(items)
    && forall key, r :: Keyed(key, r) in items <==>
         ReadRecord(h[..listed], key).Some? && ReadRecord(h[..cut(key)], key) == Some(r)
  }

  /** A snapshot taken while nothing is written is one whose keys are all read at the same cut. */
  lemma {:induction false} SnapshotIsStaggered<R(!new)>(h: seq<Event<R>>, items: seq<Keyed<R>>, cut: string -> nat)
    requires IsSnapshot(h, items) && forall key :: cut(key) == |h|
    ensures StaggeredSnapshot(h, |h|, cut, items)
  {
    assert h[..|h|] == h;
    forall i, j | 0 <= i < j < |items| ensures items[i].key != items[j].key {
      assert LessBy(CodePoints, items[i].key, items[j].key);
      LessTrichotomy(Encode(CodePoints, items[i].key), Encode(CodePoints, items[j].key));
    }
  }

  /** The snapshot loop beside other writers: the listed keys, each read at its own later
      cut, and skipped when it has been tombstoned meanwhile. */
  function ReadKeys<R>(h: seq<Event<R>>, keys: seq<string>, cuts: seq<nat>): seq<Keyed<R>>
    requires |cuts| == |keys| && forall i :: 0 <= i < |cuts| ==> cuts[i] <= |h|
  {
    if keys == [] then []
    else
      (match ReadRecord(h[..cuts[0]], keys[0])
       case Some(r) => [Keyed(keys[0], r)]
       case None => []) + ReadKeys(h, keys[1..], cuts[1..])
  }

  lemma {:induction false} ReadKeysDistinct<R(!new)>(h: seq<Event<R>>, keys: seq<string>, cuts: seq<nat>)
    requires |cuts| == |keys| && (forall i :: 0 <= i < |cuts| ==> cuts[i] <= |h|) && Distinct(keys)
    ensures var items := ReadKeys(h, keys, cuts);
            DistinctKeys(items) && forall i :: 0 <= i < |items| ==> items[i].key in keys
  {
    if keys != [] {
      var rest, later := keys[1..], ReadKeys(h, keys[1..], cuts[1..]);
      assert forall i :: 0 <= i < |rest| ==> rest[i] == keys[i + 1];
      assert keys == [keys[0]] + rest && keys[0] !in rest;
      ReadKeysDistinct(h, rest, cuts[1..]);
      assert forall i :: 0 <= i < |later| ==> later[i].key in rest;
    }
  }

  /** The key is listed at i, and is read as the record there. */
  predicate ReadAt<R(==)>(h: seq<Event<R>>, keys: seq<string>, cuts: seq<nat>, i: nat, key: string, r: R)
    requires |cuts| == |keys| && forall k :: 0 <= k < |cuts| ==> cuts[k] <= |h|
  {
    i < |keys| && keys[i] == key && ReadRecord(h[..cuts[i]], key) == Some(r)
  }

  lemma {:induction false} ReadKeysHas<R(!new)>(h: seq<Event<R>>, keys: seq<string>, cuts: seq<nat>, key: string, r: R)
    requires |cuts| == |keys| && forall i :: 0 <= i < |cuts| ==> cuts[i] <= |h|
    ensures Keyed(key, r) in ReadKeys(h, keys, cuts) <==> exists i: nat :: ReadAt(h, keys, cuts, i, key, r)
  {
    if keys != [] {
      var rest, cuts' := keys[1..], cuts[1..];
      ReadKeysHas(h, rest, cuts', key, r);
      if Keyed(key, r) in ReadKeys(h, rest, cuts') {
        var i: nat :| ReadAt(h, rest, cuts', i, key, r);
        assert ReadAt(h, keys, cuts, i + 1, key, r);
      } else if Keyed(key, r) in ReadKeys(h, keys, cuts) {
        assert ReadAt(h, keys, cuts, 0, key, r);
      }
      if exists i: nat :: ReadAt(h, keys, cuts, i, key, r) {
        var i: nat :| ReadAt(h, keys, cuts, i, key, r);
        if i > 0 { assert ReadAt(h, rest, cuts', i - 1, key, r); }
      }
    }
  }

  /** Where the loop reads a key. */
  ghost predicate CutsOf(keys: seq<string>, cuts: seq<nat>, cut: string -> nat)
    requires |cuts| == |keys|
  {
    forall i :: 0 <= i < |keys| ==> cut(keys[i]) == cuts[i]
  }

  /** The loop gives a staggered snapshot, whatever is written between its reads. */
  lemma {:induction false} SnapshotLoopIsStaggered<R(!new)>(
      h: seq<Event<R>>, listed: nat, keys: seq<string>, cuts: seq<nat>, cut: string -> nat)
    requires listed <= |h| && |cuts| == |keys| && forall i :: 0 <= i < |cuts| ==> listed <= cuts[i] <= |h|
    requires Distinct(keys) && forall key :: key in keys <==> ReadRecord(h[..listed], key).Some?
    requires CutsOf(keys, cuts, cut) && forall key :: listed <= cut(key) <= |h|
    ensures StaggeredSnapshot(h, listed, cut, ReadKeys(h, keys, cuts))
  {
    ReadKeysDistinct(h, keys, cuts);
    var items := ReadKeys(h, keys, cuts);
    forall key, r ensures Keyed(key, r) in items <==>
        ReadRecord(h[..listed], key).Some? && ReadRecord(h[..cut(key)], key) == Some(r)
    {
      ReadKeysHas(h, keys, cuts, key, r);
      if ReadRecord(h[..listed], key).Some? {
        assert key in keys;
        var i :| 0 <= i < |keys| && keys[i] == key;
        assert ReadAt(h, keys, cuts, i, key, r) <==> ReadRecord(h[..cut(key)], key) == Some(r);
      }
    }
  }

  lemma {:induction false} SnapshotItemsGood<R(!new)>(
      rules: Rules<R>, h: seq<Event<R>>, listed: nat, cut: string -> nat, items: seq<Keyed<R>>)
    requires listed <= |h| && WellKeyed(rules, h) && StaggeredSnapshot(h, listed, cut, items)
    ensures GoodItems(rules, items)
  {
    forall i | 0 <= i < |items| ensures items[i].key != "" && rules.keyOf(items[i].value) == Some(items[i].key) {
      assert Keyed(items[i].key, items[i].value) in items;
      assert ReadRecord(h[..cut(items[i].key)], items[i].key) == Some(items[i].value);
    }
  }

  /** From the empty target a bootstrap leaves, of an accepted key, exactly its item. */
  lemma {:induction false} BootstrapFromEmpty<R(!new)>(c: Config<R>, m: Metrics, items: seq<Keyed<R>>, key: string)
    requires GoodItems(c.rules, items) && AcceptsKey(c, key)
    ensures BootstrapAll(c, Sync([], m), items).1 == None
    ensures ReadRecord(BootstrapAll(c, Sync([], m), items).0.target, key).Some? ==> HasKey(items, key)
    ensures forall i :: 0 <= i < |items| && items[i].key == key ==>
              ReadRecord(BootstrapAll(c, Sync([], m), items).0.target, key) == Some(items[i].value)
  {
    BootstrapEffect(c, Sync([], m), items);
    forall i | 0 <= i < |items| && items[i].key == key
      ensures ReadRecord(BootstrapAll(c, Sync([], m), items).0.target, key) == Some(items[i].value)
    {
      BootstrapPutsItem(c, Sync([], m), items, i);
    }
  }

  lemma {:induction false} BootstrapPutsItem<R(!new)>(c: Config<R>, s: Sync<R>, items: seq<Keyed<R>>, i: nat)
    requires GoodItems(c.rules, items) && i < |items| && AcceptsItem(c, items[i])
    requires ReadRecord(s.target, items[i].key) == None
    ensures ReadRecord(BootstrapAll(c, s, items).0.target, items[i].key) == Some(items[i].value)
    decreases |items|
  {
    if i == 0 {
      FirstItemStays(c, s, items);
    } else {
      BootstrapOneEffect(c, s, items[0]);
      RestIsGood(c.rules, items);
      assert items[1..][i - 1] == items[i] && items[0].key != items[i].key;
      BootstrapPutsItem(c, BootstrapOne(c, s, items[0]).0, items[1..], i - 1);
    }
  }

  lemma {:induction false} RestIsGood<R(!new)>(rules: Rules<R>, items: seq<Keyed<R>>)
    requires GoodItems(rules, items) && items != []
    ensures GoodItems(rules, items[1..]) && !HasKey(items[1..], items[0].key)
  {
  }

  lemma {:induction false} FirstItemStays<R(!new)>(c: Config<R>, s: Sync<R>, items: seq<Keyed<R>>)
    requires GoodItems(c.rules, items) && items != [] && AcceptsItem(c, items[0])
    requires ReadRecord(s.target, items[0].key) == None
    ensures ReadRecord(BootstrapAll(c, s, items).0.target, items[0].key) == Some(items[0].value)
  {
    var s1 := BootstrapOne(c, s, items[0]).0;
    BootstrapOneEffect(c, s, items[0]);
    assert Settled(c, s1.target, items[0]);
    RestIsGood(c.rules, items);
    BootstrapEffect(c, s1, items[1..]);
    assert BootstrapAll(c, s, items) == BootstrapAll(c, s1, items[1..]);
  }

  /* ---------- convergence of one key ---------- */

  /** The target agrees with the source after p operations, or the key still has one to come. */
  ghost predicate Caught<R>(h: seq<Event<R>>, p: nat, target: seq<Event<R>>, key: string)
    requires p <= |h|
  {
    ReadRecord(target, key) == ReadRecord(h[..p], key) || exists q :: p <= q < |h| && h[q].key == key
  }

  /** The last record the source ever puts under the key will not be refused, unless a
      tombstone of the key comes first. */
  ghost predicate Clear<R>(rules: Rules<R>, h: seq<Event<R>>, p: nat, target: seq<Event<R>>, key: string) {
    forall q :: p <= q < |h| && IsLastPut(h, q, key) && SameLife(h, p - 1, q, key) ==>
      !Breach(rules, target, key, h[q].record)
  }

  ghost predicate IsLastPut<R>(h: seq<Event<R>>, q: nat, key: string)
    requires q < |h|
  {
    h[q].key == key && h[q].Put? && forall k :: q < k < |h| ==> h[k].key != key
  }

  /** The final record of a key is not refused over any record of its last life. */
  ghost predicate Settles<R>(rules: Rules<R>, h: seq<Event<R>>) {
    forall i, q :: 0 <= i <= q < |h| && h[i].Put? && IsLastPut(h, q, h[i].key) && SameLife(h, i, q, h[i].key) ==>
      !rules.refuses(h[i].record, h[q].record)
  }

  lemma {:induction false} SteadySettles<R(!new)>(rules: Rules<R>, h: seq<Event<R>>)
    requires Steady(rules, h)
    ensures Settles(rules, h)
  {
  }

  lemma {:induction false} ReadTake<R(!new)>(h: seq<Event<R>>, p: nat, key: string)
    requires p < |h| && h[p].key != ""
    ensures ReadRecord(h[..p + 1], key) ==
              if h[p].key != key then ReadRecord(h[..p], key) else if h[p].Put? then Some(h[p].record) else None
  {
    assert h[..p + 1] == h[..p] + [h[p]];
    LiveAppend(h[..p], h[p], key);
  }

  lemma {:induction false} ConsumeKeepsKey<R(!new)>(c: Config<R>, s: Sync<R>, h: seq<Event<R>>, p: nat, key: string)
    requires p < |h| && WellKeyed(c.rules, h) && Settles(c.rules, h) && AcceptsKey(c, key) && !c.haltOnBreach
    requires Caught(h, p, s.target, key) && Clear(c.rules, h, p, s.target, key)
    ensures var (s', error) := Consume(c, s, h[p], p + 1);
            error == None && Caught(h, p + 1, s'.target, key) && Clear(c.rules, h, p + 1, s'.target, key)
  {
    var e := h[p];
    var (s', error) := Consume(c, s, e, p + 1);
    ReadTake(h, p, key);
    if !c.accepts(e, p + 1) {
      OtherKeepsKey(c, s.target, s'.target, h, p, key);
    } else if e.Put? {
      ApplyPutEffect(c, s, e.key, e.record);
      LiveAppend(s.target, e, key);
      if e.key == key {
        PutKeepsKey(c, s.target, s'.target, h, p, key);
      } else {
        OtherKeepsKey(c, s.target, s'.target, h, p, key);
      }
    } else {
      LiveAppend(s.target, Delete(e.key, false), key);
      if e.key != key { OtherKeepsKey(c, s.target, s'.target, h, p, key); }
    }
  }

  lemma {:induction false} OtherKeepsKey<R(!new)>(
      c: Config<R>, target: seq<Event<R>>, target': seq<Event<R>>, h: seq<Event<R>>, p: nat, key: string)
    requires p < |h| && h[p].key != key && h[p].key != ""
    requires Caught(h, p, target, key) && Clear(c.rules, h, p, target, key)
    requires ReadRecord(target', key) == ReadRecord(target, key)
    ensures Caught(h, p + 1, target', key) && Clear(c.rules, h, p + 1, target', key)
  {
    ReadTake(h, p, key);
    forall q | p + 1 <= q < |h| && IsLastPut(h, q, key) && SameLife(h, p, q, key)
      ensures !Breach(c.rules, target', key, h[q].record)
    {
      assert SameLife(h, p - 1, q, key);
    }
    if exists q :: p <= q < |h| && h[q].key == key {
      var q :| p <= q < |h| && h[q].key == key;
      assert p + 1 <= q;
    }
  }

  lemma {:induction false} PutKeepsKey<R(!new)>(
      c: Config<R>, target: seq<Event<R>>, target': seq<Event<R>>, h: seq<Event<R>>, p: nat, key: string)
    requires p < |h| && h[p].Put? && h[p].key == key != "" && Settles(c.rules, h)
    requires Clear(c.rules, h, p, target, key)
    requires if Breach(c.rules, target, key, h[p].record) then target' == target
             else ReadRecord(target', key) == Some(h[p].record)
    ensures Caught(h, p + 1, target', key) && Clear(c.rules, h, p + 1, target', key)
  {
    ReadTake(h, p, key);
    forall q | p + 1 <= q < |h| && IsLastPut(h, q, key) && SameLife(h, p, q, key)
      ensures !Breach(c.rules, target', key, h[q].record)
    {
      assert SameLife(h, p - 1, q, key);
      if !Breach(c.rules, target, key, h[p].record) {
        assert !c.rules.refuses(h[p].record, h[q].record);
      }
    }
    if Breach(c.rules, target, key, h[p].record) {
      assert SameLife(h, p - 1, p, key);
      assert !IsLastPut(h, p, key);
    }
  }

  /* ---------- convergence ---------- */

  lemma {:induction false} ConvergeFrom<R(!new)>(c: Config<R>, s: Sync<R>, h: seq<Event<R>>, p: nat, key: string)
    requires p <= |h| && WellKeyed(c.rules, h) && Settles(c.rules, h) && AcceptsKey(c, key) && !c.haltOnBreach
    requires Caught(h, p, s.target, key) && Clear(c.rules, h, p, s.target, key)
    ensures var (s', error) := ConsumeAll(c, s, h[p..], p + 1);
            error == None && ReadRecord(s'.target, key) == ReadRecord(h, key)
    decreases |h| - p
  {
    if p == |h| {
      assert h[..p] == h;
    } else {
      ConsumeKeepsKey(c, s, h, p, key);
      assert h[p..][0] == h[p] && h[p..][1..] == h[p + 1..];
      ConvergeFrom(c, Consume(c, s, h[p], p + 1).0, h, p + 1, key);
    }
  }

  /** A record read at a cut at or after position j meets the invariant at j. */
  lemma {:induction false} CutIsCaughtAndClear<R(!new)>(
      rules: Rules<R>, h: seq<Event<R>>, j: nat, listed: nat, cut: nat, target: seq<Event<R>>, key: string)
    requires j <= listed <= cut <= |h| && WellKeyed(rules, h) && Settles(rules, h)
    requires ReadRecord(target, key) ==
               if ReadRecord(h[..listed], key).Some? then ReadRecord(h[..cut], key) else None
    ensures Caught(h, j, target, key) && Clear(rules, h, j, target, key)
  {
    if !(exists q :: j <= q < |h| && h[q].key == key) {
      LiveUntouched(h, j, listed, key);
      LiveUntouched(h, j, cut, key);
    }
    forall q | j <= q < |h| && IsLastPut(h, q, key) && SameLife(h, j - 1, q, key)
      ensures !Breach(rules, target, key, h[q].record)
    {
      if ReadRecord(target, key).Some? { CutClear(rules, h, j, cut, q, key); }
    }
  }

  lemma {:induction false} CutClear<R(!new)>(rules: Rules<R>, h: seq<Event<R>>, j: nat, cut: nat, q: nat, key: string)
    requires j <= cut <= |h| && Settles(rules, h) && j <= q < |h| && key != ""
    requires IsLastPut(h, q, key) && SameLife(h, j - 1, q, key)
    requires Live(h[..cut], key).Some?
    ensures !rules.refuses(Live(h[..cut], key).value.record, h[q].record)
  {
    var n := Live(h[..cut], key).value.revision - 1;
    assert h[..cut][n] == h[n];
    LiveSince(h[..cut], key);
    forall k | n < k < cut ensures h[k].key != key { assert h[..cut][k] == h[k]; }
    assert SameLife(h, n, q, key);
  }

  /** After its live revision a key has no further operation. */
  lemma {:induction false} LiveSince<R(!new)>(h: seq<Event<R>>, key: string)
    requires Live(h, key).Some?
    ensures forall k :: Live(h, key).value.revision <= k < |h| ==> h[k].key != key
  {
    var last := h[|h| - 1];
    if last.key != key {
      LiveSince(h[..|h| - 1], key);
      forall k | Live(h, key).value.revision <= k < |h| ensures h[k].key != key {
        if k < |h| - 1 { assert h[..|h| - 1][k] == h[k]; }
      }
    }
  }

  /** The halting flag only turns a run into one that stops at its first breach. */
  lemma {:induction false} HaltedOrSame<R(!new)>(c: Config<R>, s: Sync<R>, events: seq<Event<R>>, first: nat)
    ensures ConsumeAll(c, s, events, first) == ConsumeAll(c.(haltOnBreach := false), s, events, first)
            || (c.haltOnBreach && ConsumeAll(c, s, events, first).1 == Some(RevocationConflict))
    decreases |events|
  {
    if events != [] && Consume(c, s, events[0], first).1 == None {
      HaltedOrSame(c, Consume(c, s, events[0], first).0, events[1..], first + 1);
    }
  }

  lemma {:induction false} BootstrapNeverHalts<R(!new)>(c: Config<R>, s: Sync<R>, items: seq<Keyed<R>>)
    ensures BootstrapAll(c, s, items) == BootstrapAll(c.(haltOnBreach := false), s, items)
    decreases |items|
  {
    if items != [] { BootstrapNeverHalts(c, BootstrapOne(c, s, items[0]).0, items[1..]); }
  }

  /** The stream from a position of the history on; revisions are positions plus one. */
  function StreamFrom<R>(h: seq<Event<R>>, j: nat): Stream<R>
    requires j <= |h|
  {
    Stream(j + 1, h[j..], false)
  }

  /** What a run from the empty target ends in. */
  ghost predicate Reaches<R(!new)>(c: Config<R>, m: Metrics, h: seq<Event<R>>, items: seq<Keyed<R>>, j: nat)
    requires j <= |h|
  {
    var (s, error) := RunAll(c, Sync([], m), true, items, StreamFrom(h, j));
    error == None && forall key :: ReadRecord(s.target, key) == ReadRecord(h, key)
  }

  ghost predicate Halts<R(!new)>(c: Config<R>, m: Metrics, h: seq<Event<R>>, items: seq<Keyed<R>>, j: nat)
    requires j <= |h|
  {
    c.haltOnBreach && RunAll(c, Sync([], m), true, items, StreamFrom(h, j)).1 == Some(WriteError(RevocationConflict))
  }

  /** From an empty target, for every filter and every key whose events it all accepts: a
      bootstrap from a snapshot read key by key, then any history suffix that starts no
      later than the listing of the keys, leaves the target with the source's record of the
      key, under either conflict policy, if the source history settles; with the halting
      flag set the run may instead stop at a breach. */
  lemma {:induction false} AcceptedKeyConverges<R(!new)>(
      c: Config<R>, m: Metrics, h: seq<Event<R>>, listed: nat, cut: string -> nat, items: seq<Keyed<R>>, j: nat,
      key: string)
    requires AcceptsKey(c, key) && WellKeyed(c.rules, h) && Settles(c.rules, h)
    requires j <= listed <= |h| && StaggeredSnapshot(h, listed, cut, items)
    ensures var (s, error) := RunAll(c, Sync([], m), true, items, StreamFrom(h, j));
            || (error == None && ReadRecord(s.target, key) == ReadRecord(h, key))
            || Halts(c, m, h, items, j)
  {
    var calm := c.(haltOnBreach := false);
    SnapshotItemsGood(c.rules, h, listed, cut, items);
    var s := BootstrapAll(calm, Sync([], m), items).0;
    BootstrapFromEmpty(calm, m, items, key);
    ItemOfKey(h, listed, cut, items, key);
    CutIsCaughtAndClear(c.rules, h, j, listed, cut(key), s.target, key);
    ConvergeFrom(calm, s, h, j, key);
    BootstrapNeverHalts(c, Sync([], m), items);
    HaltedOrSame(c, s, h[j..], j + 1);
  }

  /** With a filter that accepts everything the target ends equal to the source. */
  lemma {:induction false} ReplicationConverges<R(!new)>(
      c: Config<R>, m: Metrics, h: seq<Event<R>>, listed: nat, cut: string -> nat, items: seq<Keyed<R>>, j: nat)
    requires AcceptsAll(c) && WellKeyed(c.rules, h) && Settles(c.rules, h)
    requires j <= listed <= |h| && StaggeredSnapshot(h, listed, cut, items)
    ensures Reaches(c, m, h, items, j) || Halts(c, m, h, items, j)
  {
    AcceptedKeyConverges(c, m, h, listed, cut, items, j, "");
    forall key
      ensures ReadRecord(RunAll(c, Sync([], m), true, items, StreamFrom(h, j)).0.target, key) == ReadRecord(h, key)
              || Halts(c, m, h, items, j)
    {
      AcceptedKeyConverges(c, m, h, listed, cut, items, j, key);
    }
  }

  /** A stream that breaks after the history has been replayed leaves the target equal to
      that history; the broken envelope is counted once and raised if the flag says so. */
  lemma {:induction false} BrokenStreamKeepsTheRest<R(!new)>(
      c: Config<R>, m: Metrics, h: seq<Event<R>>, listed: nat, cut: string -> nat, items: seq<Keyed<R>>, j: nat)
    requires AcceptsAll(c) && WellKeyed(c.rules, h) && Settles(c.rules, h)
    requires j <= listed <= |h| && StaggeredSnapshot(h, listed, cut, items)
    ensures var (s, error) := RunAll(c, Sync([], m), true, items, StreamFrom(h, j).(broken := true));
            || Halts(c, m, h, items, j)
            || (&& (forall key :: ReadRecord(s.target, key) == ReadRecord(h, key))
                && s.metrics.envelopeErrors == m.envelopeErrors + 1
                && error == if c.haltOnEnvelopeError then Some(EnvelopeError) else None)
  {
    ReplicationConverges(c, m, h, listed, cut, items, j);
    var start := BootstrapAll(c, Sync([], m), items).0;
    BootstrapKeepsEnvelopeErrors(c, Sync([], m), items);
    ConsumeKeepsEnvelopeErrors(c, start, h[j..], j + 1);
  }

  lemma {:induction false} BootstrapKeepsEnvelopeErrors<R(!new)>(c: Config<R>, s: Sync<R>, items: seq<Keyed<R>>)
    ensures BootstrapAll(c, s, items).0.metrics.envelopeErrors == s.metrics.envelopeErrors
    decreases |items|
  {
    if items != [] { BootstrapKeepsEnvelopeErrors(c, BootstrapOne(c, s, items[0]).0, items[1..]); }
  }

  lemma {:induction false} ConsumeKeepsEnvelopeErrors<R(!new)>(
      c: Config<R>, s: Sync<R>, events: seq<Event<R>>, first: nat)
    ensures ConsumeAll(c, s, events, first).0.metrics.envelopeErrors == s.metrics.envelopeErrors
    decreases |events|
  {
    if events != [] { ConsumeKeepsEnvelopeErrors(c, Consume(c, s, events[0], first).0, events[1..], first + 1); }
  }

  lemma {:induction false} ItemOfKey<R(!new)>(
      h: seq<Event<R>>, listed: nat, cut: string -> nat, items: seq<Keyed<R>>, key: string)
    requires listed <= |h| && StaggeredSnapshot(h, listed, cut, items)
    ensures HasKey(items, key) <==> ReadRecord(h[..listed], key).Some? && ReadRecord(h[..cut(key)], key).Some?
    ensures forall i :: 0 <= i < |items| && items[i].key == key ==>
              ReadRecord(h[..cut(key)], key) == Some(items[i].value)
  {
    forall i | 0 <= i < |items| && items[i].key == key
      ensures ReadRecord(h[..listed], key).Some? && ReadRecord(h[..cut(key)], key) == Some(items[i].value)
    {
      assert Keyed(key, items[i].value) in items;
    }
    if ReadRecord(h[..listed], key).Some? && ReadRecord(h[..cut(key)], key).Some? {
      var r := ReadRecord(h[..cut(key)], key).value;
      assert Keyed(key, r) in items;
      var i :| 0 <= i < |items| && items[i] == Keyed(key, r);
    }
  }
}
