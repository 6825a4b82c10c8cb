/** The registry backends over a bucket.  The policy backend and the schema backend are
    the same code but for two rules: the key a record belongs under (with the validation
    gates before it), and which live records a compare-and-set write must not replace. */
module Backends {
  import opened Common
  import opened Encodings
  import opened KeyedSort
  import opened Buckets
  import Policies

  datatype Rules<!R> = Rules(keyOf: R -> Option<string>, refuses: (R, R) -> bool)

  const POLICY_RULES := Rules(Policies.KeyOf, Policies.Refuses)

  datatype BackendError = ValueError | RevocationConflict | CasConflict

  /** A read by key; the empty key is never looked up. */
  function Read<R>(h: seq<Event<R>>, key: string): Option<Versioned<R>> {
    if key == "" then None else Live(h, key)
  }

  function ReadRecord<R>(h: seq<Event<R>>, key: string): Option<R> {
    if key == "" then None else LiveRecord(h, key)
  }

  /** Every stored record lies under its own key. */
  ghost predicate WellKeyed<R>(rules: Rules<R>, h: seq<Event<R>>) {
    forall i :: 0 <= i < |h| ==> h[i].key != "" && (h[i].Put? ==> rules.keyOf(h[i].record) == Some(h[i].key))
  }

  /** No record belongs under the empty key. */
  ghost predicate NonEmptyKeys<R(!new)>(rules: Rules<R>) {
    forall r :: rules.keyOf(r) != Some("")
  }

  /* ---------- writes, as steps on a history ---------- */

  function PlainPut<R>(rules: Rules<R>, h: seq<Event<R>>, record: R): (Result<nat, BackendError>, seq<Event<R>>) {
    match rules.keyOf(record)
    case None => (Err(ValueError), h)
    case Some(key) => (Ok(|h| + 1), h + [Put(key, record)])
  }

  /** The gates of a compare-and-set write up to the update: None lets it through. */
  function GateCheck<R>(rules: Rules<R>, h: seq<Event<R>>, record: R): Option<BackendError> {
    match rules.keyOf(record)
    case None => Some(ValueError)
    case Some(key) =>
      match ReadRecord(h, key)
      case Some(live) => if rules.refuses(live, record) then Some(RevocationConflict) else None
      case None => None
  }

  /** The update itself: it succeeds only at the expected revision. */
  function Commit<R>(
      h: seq<Event<R>>, key: string, record: R, expected: nat): (Result<nat, BackendError>, seq<Event<R>>)
  {
    if Revision(h, key) == expected then (Ok(|h| + 1), h + [Put(key, record)]) else (Err(CasConflict), h)
  }

  function CasPut<R>(
      rules: Rules<R>, h: seq<Event<R>>, record: R, expected: int): (Result<nat, BackendError>, seq<Event<R>>)
  {
    if expected < 0 then (Err(ValueError), h)
    else match GateCheck(rules, h, record)
      case Some(error) => (Err(error), h)
      case None => Commit(h, rules.keyOf(record).value, record, expected)
  }

  function Tombstone<R>(h: seq<Event<R>>, key: string): seq<Event<R>> {
    if Live(h, key).None? then h else h + [Delete(key, false)]
  }

  /* ---------- snapshots ---------- */

  /** The live entries in key order. */
  ghost predicate IsSnapshot<R(!new)>(h: seq<Event<R>>, items: seq<Keyed<R>>) {
    && Increasing(CodePoints, items)
    && forall key, r :: Keyed(key, r) in items <==> ReadRecord(h, key) == Some(r)
  }

  class Backend<R(!new)> {
    const kv: Kv<R>
    const rules: Rules<R>

    ghost predicate Valid()
      reads kv
    {
      kv.Valid()
    }

    constructor (kv: Kv<R>, rules: Rules<R>)
      ensures this.kv == kv && this.rules == rules
    {
      this.kv, this.rules := kv, rules;
    }

    method GetWithRevision(key: string) returns (entry: Option<Versioned<R>>)
      requires Valid()
      ensures entry == Read(kv.history, key)
    {
      if key == "" { return None; }
      entry := kv.Get(key);
    }

    method Get(key: string) returns (record: Option<R>)
      requires Valid()
      ensures record == ReadRecord(kv.history, key)
    {
      var entry := GetWithRevision(key);
      return if entry.Some? then Some(entry.value.record) else None;
    }

    method Put(record: R) returns (r: Result<nat, BackendError>)
      requires Valid()
      modifies kv
      ensures Valid() && (r, kv.history) == PlainPut(rules, old(kv.history), record)
    {
      var key := rules.keyOf(record);
      if key.None? { return Err(ValueError); }
      var revision := kv.Put(key.value, record);
      return Ok(revision);
    }

    method PutWithRevision(record: R, expected: int) returns (r: Result<nat, BackendError>)
      requires Valid()
      modifies kv
      ensures Valid() && (r, kv.history) == CasPut(rules, old(kv.history), record, expected)
    {
      if expected < 0 { return Err(ValueError); }
      var key := rules.keyOf(record);
      if key.None? { return Err(ValueError); }
      var existing := Get(key.value);
      if existing.Some? && rules.refuses(existing.value, record) { return Err(RevocationConflict); }
      var revision := kv.Update(key.value, record, expected);
      return if revision.Some? then Ok(revision.value) else Err(CasConflict);
    }

    method Delete(key: string) returns (r: Result<(), BackendError>)
      requires Valid()
      modifies kv
      ensures Valid()
      ensures r == if key == "" then Err(ValueError) else Ok(())
      ensures kv.history == if key == "" then old(kv.history) else Tombstone(old(kv.history), key)
    {
      if key == "" { return Err(ValueError); }
      kv.Delete(key);
      return Ok(());
    }

    method Snapshot() returns (items: seq<Keyed<R>>)
      requires Valid()
      ensures IsSnapshot(kv.history, items)
    {
      var keys := kv.Keys();
      var sorted := SortStrings(CodePoints, keys);
      SortStringsProperties(CodePoints, keys);
      items := [];
      for n := 0 to |sorted|
        invariant SnapshotSoFar(kv.history, sorted, n, items)
      {
        var record := Get(sorted[n]);
        NextSnapshotKey(kv.history, sorted, n, items);
        if record.Some? { items := items + [Keyed(sorted[n], record.value)]; }
      }
      forall key, r ensures Keyed(key, r) in items <==> ReadRecord(kv.history, key) == Some(r) {
        assert ReadRecord(kv.history, key) == Some(r) ==> key in sorted;
      }
    }
  }

  /** The snapshot after the first n keys of the listing. */
  ghost predicate SnapshotSoFar<R(!new)>(h: seq<Event<R>>, sorted: seq<string>, n: nat, items: seq<Keyed<R>>)
    requires n <= |sorted|
  {
    && Increasing(CodePoints, items)
    && (forall i :: 0 <= i < |items| ==> items[i].key in sorted[..n])
    && forall key, r :: Keyed(key, r) in items <==> key in sorted[..n] && ReadRecord(h, key) == Some(r)
  }

  lemma {:induction false} NextSnapshotKey<R(!new)>(h: seq<Event<R>>, sorted: seq<string>, n: nat, items: seq<Keyed<R>>)
    requires n < |sorted| && IncreasingStrings(CodePoints, sorted) && SnapshotSoFar(h, sorted, n, items)
    ensures var record := ReadRecord(h, sorted[n]);
            SnapshotSoFar(h, sorted, n + 1, if record.Some? then items + [Keyed(sorted[n], record.value)] else items)
  {
    assert sorted[..n + 1] == sorted[..n] + [sorted[n]];
    forall i | 0 <= i < |items| ensures LessBy(CodePoints, items[i].key, sorted[n]) {
      var m :| 0 <= m < n && sorted[m] == items[i].key;
    }
  }

  /* ---------- histories without refused replacements ---------- */

  /** No tombstone on the key strictly between the two positions. */
  ghost predicate SameLife<R>(h: seq<Event<R>>, i: int, j: nat, key: string)
    requires -1 <= i && j <= |h|
  {
    forall k :: i < k < j && h[k].key == key ==> h[k].Put?
  }

  /** Between two tombstones of a key, no record is one the rules would refuse over itself
      or an earlier one.  For policies: a revocation instant, once set, does not change. */
  ghost predicate Steady<R>(rules: Rules<R>, h: seq<Event<R>>) {
    forall i, j :: 0 <= i <= j < |h| && h[i].Put? && h[j].Put? && h[i].key == h[j].key
                   && SameLife(h, i, j, h[i].key) ==>
      !rules.refuses(h[i].record, h[j].record)
  }

  /* ---------- what every backend write keeps ---------- */

  /** A bucket written only through the backend stays well-keyed. */
  lemma {:induction false} WritesKeepWellKeyed<R(!new)>(
      rules: Rules<R>, h: seq<Event<R>>, record: R, expected: int, key: string)
    requires NonEmptyKeys(rules) && WellKeyed(rules, h)
    ensures WellKeyed(rules, PlainPut(rules, h, record).1)
    ensures WellKeyed(rules, CasPut(rules, h, record, expected).1)
    ensures WellKeyed(rules, Tombstone(h, key))
  {
  }

  lemma {:induction false} PolicyKeysNonEmpty()
    ensures NonEmptyKeys(POLICY_RULES)
  {
  }
}
