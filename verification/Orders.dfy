/** Duplicate-free lists of keys in insertion order, as the caches keep them. */
module Orders {
  import opened KeyedSort

  /** list.remove: the first occurrence, if any. */
  function Without(order: seq<string>, key: string): seq<string> {
    if order == [] then [] else if order[0] == key then order[1..] else [order[0]] + Without(order[1..], key)
  }

  lemma {:induction false} WithoutListing(order: seq<string>, key: string)
    requires Distinct(order)
    ensures Distinct(Without(order, key))
    ensures forall k :: k in Without(order, key) <==> k in order && k != key
    ensures |Without(order, key)| == |order| - if key in order then 1 else 0
  {
    if order != [] {
      assert order == [order[0]] + order[1..];
      assert forall i :: 0 <= i < |order[1..]| ==> order[1..][i] == order[i + 1];
      assert order[0] !in order[1..];
      WithoutListing(order[1..], key);
    }
  }

  lemma {:induction false} WithoutSplits(order: seq<string>, key: string) returns (i: nat)
    requires key in order
    ensures i < |order| && order[i] == key && Without(order, key) == order[..i] + order[i + 1..]
  {
    if order[0] == key {
      i := 0;
    } else {
      assert order == [order[0]] + order[1..];
      var j := WithoutSplits(order[1..], key);
      i := j + 1;
      assert order[..i] == [order[0]] + order[1..][..j];
    }
  }

  lemma {:induction false} WithoutAppend(a: seq<string>, b: seq<string>, key: string)
    ensures Without(a + b, key) == if key in a then Without(a, key) + b else a + Without(b, key)
  {
    if a == [] {
      assert a + b == b;
    } else {
      assert (a + b)[1..] == a[1..] + b && a == [a[0]] + a[1..];
      if a[0] != key { WithoutAppend(a[1..], b, key); }
    }
  }

  lemma {:induction false} WithoutAbsent(a: seq<string>, key: string)
    requires key !in a
    ensures Without(a, key) == a
  {
    if a != [] {
      assert a == [a[0]] + a[1..];
      WithoutAbsent(a[1..], key);
    }
  }

  lemma {:induction false} NotInBoth(a: seq<string>, b: seq<string>, x: string)
    requires Distinct(a + b) && x in b
    ensures x !in a
  {
    var j :| 0 <= j < |b| && b[j] == x;
    forall i | 0 <= i < |a| ensures a[i] != x { assert (a + b)[i] == a[i] && (a + b)[|a| + j] == x; }
  }

  lemma {:induction false} Associate(a: seq<string>, b: seq<string>, c: seq<string>)
    ensures (a + b) + c == a + (b + c)
  {
  }

  /** Moving the head of the second list to the end of the first. */
  lemma {:induction false} Regroup(a: seq<string>, b: seq<string>, key: string)
    requires b != []
    ensures (a + b) + [key] == (a + [b[0]]) + (b[1..] + [key])
  {
    assert b == [b[0]] + b[1..];
  }
}
