/** Views of a bucket kept up to date from its watch-stream. */
module LiveViews {
  import opened Common
  import opened KeyedSort
  import opened Buckets
  import opened Backends
  import opened Convergence

  /** What one event does to a live view. */
  function ApplyEvent<R>(m: map<string, R>, e: Event<R>): map<string, R> {
    if e.Put? then m[e.key := e.record] else m - {e.key}
  }

  function ApplyAll<R>(m: map<string, R>, events: seq<Event<R>>): map<string, R>
    decreases |events|
  {
    if events == [] then m else ApplyAll(ApplyEvent(m, events[0]), events[1..])
  }

  function Entry<R>(m: map<string, R>, key: string): Option<R> { if key in m then Some(m[key]) else None }

  /** The view holds exactly the live records of the bucket. */
  ghost predicate Shows<R>(m: map<string, R>, h: seq<Event<R>>) {
    forall key :: Entry(m, key) == ReadRecord(h, key)
  }

  /** The view holds the records of a snapshot. */
  ghost predicate Holds<R(!new)>(m: map<string, R>, items: seq<Keyed<R>>) {
    forall key, r :: Entry(m, key) == Some(r) <==> Keyed(key, r) in items
  }

  /** The view is up to date on the key after p operations, or an operation on it is to come. */
  ghost predicate UpToDate<R>(m: map<string, R>, h: seq<Event<R>>, p: nat, key: string)
    requires p <= |h|
  {
    Entry(m, key) == ReadRecord(h[..p], key) || exists q :: p <= q < |h| && h[q].key == key
  }

  lemma {:induction false} ApplyKeepsUpToDate<R(!new)>(m: map<string, R>, h: seq<Event<R>>, p: nat, key: string)
    requires p < |h| && h[p].key != "" && UpToDate(m, h, p, key)
    ensures UpToDate(ApplyEvent(m, h[p]), h, p + 1, key)
  {
    ReadTake(h, p, key);
    if h[p].key != key && exists q :: p <= q < |h| && h[q].key == key {
      var q :| p <= q < |h| && h[q].key == key;
      assert p + 1 <= q;
    }
  }

  lemma {:induction false} FollowTo<R(!new)>(m: map<string, R>, h: seq<Event<R>>, p: nat)
    requires p <= |h| && (forall i :: 0 <= i < |h| ==> h[i].key != "") && forall key :: UpToDate(m, h, p, key)
    ensures Shows(ApplyAll(m, h[p..]), h)
    decreases |h| - p
  {
    if p == |h| {
      assert h[..p] == h;
      forall key ensures Entry(m, key) == ReadRecord(h, key) { assert UpToDate(m, h, p, key); }
    } else {
      var m', n := ApplyEvent(m, h[p]), p + 1;
      forall key ensures UpToDate(m', h, n, key) {
        assert UpToDate(m, h, p, key);
        ApplyKeepsUpToDate(m, h, p, key);
      }
      assert h[p..][0] == h[p] && h[p..][1..] == h[n..];
      FollowTo(m', h, n);
    }
  }

  /** A view filled from a snapshot that was read key by key, then fed any suffix of the
      history that starts no later than the listing, ends equal to the final bucket. */
  lemma {:induction false} LiveViewRefinesBucket<R(!new)>(
      rules: Rules<R>, m: map<string, R>, h: seq<Event<R>>, listed: nat, cut: string -> nat,
      items: seq<Keyed<R>>, j: nat)
    requires WellKeyed(rules, h) && j <= listed <= |h| && StaggeredSnapshot(h, listed, cut, items) && Holds(m, items)
    ensures Shows(ApplyAll(m, h[j..]), h)
  {
    forall key ensures UpToDate(m, h, j, key) {
      ItemOfKey(h, listed, cut, items, key);
      if !(exists q :: j <= q < |h| && h[q].key == key) {
        LiveUntouched(h, j, listed, key);
        LiveUntouched(h, j, cut(key), key);
        SnapshotEntry(m, h, listed, cut, items, key);
      }
    }
    FollowTo(m, h, j);
  }

  lemma {:induction false} SnapshotEntry<R(!new)>(
      m: map<string, R>, h: seq<Event<R>>, listed: nat, cut: string -> nat, items: seq<Keyed<R>>, key: string)
    requires listed <= |h| && StaggeredSnapshot(h, listed, cut, items) && Holds(m, items)
    ensures Entry(m, key) == if ReadRecord(h[..listed], key).Some? then ReadRecord(h[..cut(key)], key) else None
  {
    if Entry(m, key).Some? {
      assert Keyed(key, Entry(m, key).value) in items;
    } else if ReadRecord(h[..cut(key)], key).Some? {
      assert Keyed(key, ReadRecord(h[..cut(key)], key).value) !in items;
    }
  }
}
