/** Key-value buckets with a history: the contract of the NATS key-value store that the
    backends write through.  The revision of an operation is its position in the history. */
module Buckets {
  import opened Common
  import opened KeyedSort

  /** One operation of the history, as the watch-stream delivers it. */
  datatype Event<+R> =
    | Put(key: string, record: R)
    | Delete(key: string, purge: bool)

  datatype Versioned<+R> = Versioned(record: R, revision: nat)

  /** The live entry of a key: what its last operation left. */
  function Live<R>(h: seq<Event<R>>, key: string): (v: Option<Versioned<R>>)
    ensures v.Some? ==> 0 < v.value.revision <= |h| && h[v.value.revision - 1] == Put(key, v.value.record)
  {
    if h == [] then None
    else
      var last := h[|h| - 1];
      if last.key != key then Live(h[..|h| - 1], key)
      else if last.Put? then Some(Versioned(last.record, |h|))
      else None
  }

  function LiveRecord<R>(h: seq<Event<R>>, key: string): Option<R> {
    match Live(h, key)
    case None => None
    case Some(v) => Some(v.record)
  }

  /** The live revision of a key, 0 when it is absent. */
  function Revision<R>(h: seq<Event<R>>, key: string): nat {
    match Live(h, key)
    case None => 0
    case Some(v) => v.revision
  }

  lemma {:induction false} LiveAppend<R>(h: seq<Event<R>>, e: Event<R>, key: string)
    ensures Live(h + [e], key) == if e.key != key then Live(h, key)
                                  else if e.Put? then Some(Versioned(e.record, |h| + 1)) else None
  {
    assert (h + [e])[..|h|] == h;
  }

  /** Operations on other keys leave a key alone. */
  lemma {:induction false} LiveUntouched<R>(h: seq<Event<R>>, a: nat, b: nat, key: string)
    requires a <= b <= |h|
    requires forall i :: a <= i < b ==> h[i].key != key
    ensures Live(h[..b], key) == Live(h[..a], key)
  {
    if a < b {
      assert h[..b][..b - 1] == h[..b - 1];
      LiveUntouched(h, a, b - 1, key);
    }
  }

  /** A live entry was live, unchanged, ever since its revision. */
  lemma {:induction false} LiveSinceRevision<R>(h: seq<Event<R>>, n: nat, key: string)
    requires n <= |h| && Live(h, key).Some? && Live(h, key).value.revision <= n
    ensures Live(h[..n], key) == Live(h, key)
  {
    if n == |h| {
      assert h[..n] == h;
    } else {
      assert h[..|h| - 1][..n] == h[..n];
      LiveSinceRevision(h[..|h| - 1], n, key);
    }
  }

  /** An observed revision identifies the operation: while a key is live at it, nothing
      has happened to the key since. */
  lemma {:induction false} RevisionPins<R>(h: seq<Event<R>>, a: nat, key: string)
    requires a <= |h| && Live(h[..a], key).Some?
    requires Revision(h, key) == Revision(h[..a], key)
    ensures Live(h, key) == Live(h[..a], key)
    ensures forall i :: a <= i < |h| ==> h[i].key != key
  {
    assert h[..|h|] == h;
    if a < |h| {
      var h' := h[..|h| - 1];
      assert h'[..a] == h[..a];
      assert Revision(h', key) == Revision(h[..a], key);
      RevisionPins(h', a, key);
      forall i | a <= i < |h| ensures h[i].key != key {
        if i < |h| - 1 { assert h'[i] == h[i]; }
      }
    }
  }

  /* ---------- the store ---------- */

  /** The store itself: the live entries, a revision counter, and (for proofs) the history. */
  class Kv<R> {
    var store: map<string, Versioned<R>>
    var revision: nat
    ghost var history: seq<Event<R>>

    ghost predicate Valid()
      reads this
    {
      && revision == |history|
      && forall key :: Live(history, key) == if key in store then Some(store[key]) else None
    }

    constructor ()
      ensures Valid() && history == []
    {
      store, revision, history := map[], 0, [];
    }

    method Get(key: string) returns (entry: Option<Versioned<R>>)
      requires Valid()
      ensures entry == Live(history, key)
    {
      return if key in store then Some(store[key]) else None;
    }

    method Put(key: string, record: R) returns (rev: nat)
      requires Valid()
      modifies this
      ensures Valid() && history == old(history) + [Event.Put(key, record)] && rev == |history|
    {
      LiveAppendAll(history, Event.Put(key, record));
      revision := revision + 1;
      store := store[key := Versioned(record, revision)];
      history := history + [Event.Put(key, record)];
      return revision;
    }

    /** update(key, value, last=...): None when the live revision is not the expected one. */
    method Update(key: string, record: R, last: nat) returns (rev: Option<nat>)
      requires Valid()
      modifies this
      ensures Valid()
      ensures Revision(old(history), key) == last ==>
                rev == Some(|history|) && history == old(history) + [Event.Put(key, record)]
      ensures Revision(old(history), key) != last ==> rev == None && history == old(history)
    {
      var live := if key in store then store[key].revision else 0;
      assert live == Revision(history, key);
      if live != last { return None; }
      var r := Put(key, record);
      return Some(r);
    }

    /** A tombstone; nothing happens when the key is absent. */
    method Delete(key: string)
      requires Valid()
      modifies this
      ensures Valid()
      ensures history == if Live(old(history), key).None? then old(history)
                         else old(history) + [Event.Delete(key, false)]
    {
      if key !in store { return; }
      LiveAppendAll(history, Event.Delete(key, false));
      store := store - {key};
      revision := revision + 1;
      history := history + [Event.Delete(key, false)];
    }

    /** All live keys, in some order. */
    method Keys() returns (keys: seq<string>)
      requires Valid()
      ensures Distinct(keys)
      ensures forall k :: k in keys <==> Live(history, k).Some?
    {
      keys := KeyList(store);
    }
  }

  lemma {:induction false} LiveAppendAll<R>(h: seq<Event<R>>, e: Event<R>)
    ensures forall key :: Live(h + [e], key) == if e.key != key then Live(h, key)
                                                else if e.Put? then Some(Versioned(e.record, |h| + 1)) else None
  {
    forall key { LiveAppend(h, e, key); }
  }
}
