/** Looking up the members of a Python dict by key. */
module Dicts {
  import opened Common
  import opened Encodings
  import opened KeyedSort
  import opened Json

  function IndexOf<T>(members: seq<Keyed<T>>, key: string): (i: int)
    ensures -1 <= i < |members|
    ensures i >= 0 ==> members[i].key == key
    ensures i < 0 ==> forall k :: 0 <= k < |members| ==> members[k].key != key
  {
    if members == [] then -1
    else if members[0].key == key then 0
    else
      var i := IndexOf(members[1..], key);
      if i < 0 then -1 else i + 1
  }

  predicate Has<T>(members: seq<Keyed<T>>, key: string) { IndexOf(members, key) >= 0 }

  function Value<T>(members: seq<Keyed<T>>, key: string): T
    requires Has(members, key)
  {
    members[IndexOf(members, key)].value
  }

  /** d.get(key) */
  function Field(members: seq<Member>, key: string): Option<Json> {
    var i := IndexOf(members, key);
    if i < 0 then None else Some(members[i].value)
  }

  /** A dict as the function d.get. */
  type Lookup = string -> Option<Json>

  function Get(members: seq<Member>): Lookup { key => Field(members, key) }

  /* ---------- dicts printed with their keys sorted ---------- */

  /** The members as they are read back from a canonical text. */
  function Sorted(e: Encoding, members: seq<Member>): seq<Member> { Sort(e, NormValues(e, members)) }

  lemma {:induction false} SortedLookup(e: Encoding, members: seq<Member>, key: string)
    requires DistinctKeys(members)
    ensures Has(Sorted(e, members), key) == Has(members, key)
    ensures Has(members, key) ==> Value(Sorted(e, members), key) == Norm(e, Value(members, key))
  {
    var normed, sorted := NormValues(e, members), Sorted(e, members);
    if Has(members, key) {
      var k := SortedTo(e, normed, IndexOf(members, key));
      assert sorted[k].key == key;
    }
    if Has(sorted, key) {
      var i := SortedFrom(e, normed, IndexOf(sorted, key));
      assert members[i].key == key;
      assert i == IndexOf(members, key);
    }
  }
}
