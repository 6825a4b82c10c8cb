/** Python's stable sort of (key, value) pairs by an encoding of the key. */
module KeyedSort {
  import opened Encodings

  datatype Keyed<+T> = Keyed(key: string, value: T)

  function Insert<T>(e: Encoding, m: Keyed<T>, xs: seq<Keyed<T>>): seq<Keyed<T>> {
    if xs == [] || !LessBy(e, xs[0].key, m.key) then [m] + xs
    else [xs[0]] + Insert(e, m, xs[1..])
  }

  function Sort<T>(e: Encoding, xs: seq<Keyed<T>>): seq<Keyed<T>> {
    if xs == [] then [] else Insert(e, xs[0], Sort(e, xs[1..]))
  }

  ghost predicate DistinctKeys<T>(xs: seq<Keyed<T>>) {
    forall i, j :: 0 <= i < j < |xs| ==> xs[i].key != xs[j].key
  }

  ghost predicate Increasing<T>(e: Encoding, xs: seq<Keyed<T>>) {
    forall i, j :: 0 <= i < j < |xs| ==> LessBy(e, xs[i].key, xs[j].key)
  }

  lemma {:induction false} InsertPermutes<T>(e: Encoding, m: Keyed<T>, xs: seq<Keyed<T>>)
    ensures multiset(Insert(e, m, xs)) == multiset{m} + multiset(xs)
  {
    if xs != [] {
      assert xs == [xs[0]] + xs[1..];
      InsertPermutes(e, m, xs[1..]);
    }
  }

  lemma {:induction false} SortPermutes<T>(e: Encoding, xs: seq<Keyed<T>>)
    ensures multiset(Sort(e, xs)) == multiset(xs)
    ensures |Sort(e, xs)| == |xs|
    ensures forall m :: m in Sort(e, xs) <==> m in xs
  {
    if xs != [] {
      assert xs == [xs[0]] + xs[1..];
      SortPermutes(e, xs[1..]);
      InsertPermutes(e, xs[0], Sort(e, xs[1..]));
    }
    SameMultiset(Sort(e, xs), xs);
  }

  /** Where an item of the sorted sequence comes from. */
  lemma {:induction false} SortedFrom<T>(e: Encoding, xs: seq<Keyed<T>>, k: nat) returns (i: nat)
    requires k < |Sort(e, xs)|
    ensures i < |xs| && xs[i] == Sort(e, xs)[k]
  {
    SortPermutes(e, xs);
    assert Sort(e, xs)[k] in multiset(Sort(e, xs)) && Sort(e, xs)[k] in multiset(xs);
    i :| 0 <= i < |xs| && xs[i] == Sort(e, xs)[k];
  }

  /** Where an item goes in the sorted sequence. */
  lemma {:induction false} SortedTo<T>(e: Encoding, xs: seq<Keyed<T>>, i: nat) returns (k: nat)
    requires i < |xs|
    ensures k < |Sort(e, xs)| && Sort(e, xs)[k] == xs[i]
  {
    SortPermutes(e, xs);
    assert xs[i] in multiset(xs) && xs[i] in multiset(Sort(e, xs));
    k :| 0 <= k < |Sort(e, xs)| && Sort(e, xs)[k] == xs[i];
  }

  lemma {:induction false} SameMultiset<T>(xs: seq<T>, ys: seq<T>)
    requires multiset(xs) == multiset(ys)
    ensures |xs| == |ys|
    ensures forall x :: x in xs <==> x in ys
  {
    assert |multiset(xs)| == |xs| && |multiset(ys)| == |ys|;
    forall x ensures x in xs <==> x in ys {
      assert x in xs <==> x in multiset(xs);
      assert x in ys <==> x in multiset(ys);
    }
  }

  lemma {:induction false} InsertIncreasing<T>(e: Encoding, m: Keyed<T>, xs: seq<Keyed<T>>)
    requires Increasing(e, xs) && forall i :: 0 <= i < |xs| ==> xs[i].key != m.key
    ensures Increasing(e, Insert(e, m, xs))
  {
    var ys := Insert(e, m, xs);
    if xs == [] {
    } else if !LessBy(e, xs[0].key, m.key) {
      forall j | 0 <= j < |xs| ensures LessBy(e, m.key, xs[j].key) {
        KeysComparable(e, m.key, xs[0].key);
        if j > 0 { LessTransitive(Encode(e, m.key), Encode(e, xs[0].key), Encode(e, xs[j].key)); }
      }
    } else {
      var rest := Insert(e, m, xs[1..]);
      InsertIncreasing(e, m, xs[1..]);
      InsertPermutes(e, m, xs[1..]);
      forall j | 0 <= j < |rest| ensures LessBy(e, xs[0].key, rest[j].key) {
        assert rest[j] in multiset(rest);
        assert rest[j] == m || rest[j] in xs[1..];
      }
    }
  }

  lemma {:induction false} KeysComparable(e: Encoding, j: string, k: string)
    requires j != k
    ensures LessBy(e, j, k) || LessBy(e, k, j)
  {
    if Encode(e, j) == Encode(e, k) { EncodeInjective(e, j, k); }
    LessTrichotomy(Encode(e, j), Encode(e, k));
  }

  /** Sorting a dict's items puts them in strictly increasing order. */
  lemma {:induction false} SortIncreasing<T>(e: Encoding, xs: seq<Keyed<T>>)
    requires DistinctKeys(xs)
    ensures Increasing(e, Sort(e, xs))
  {
    if xs != [] {
      SortIncreasing(e, xs[1..]);
      SortPermutes(e, xs[1..]);
      var rest := Sort(e, xs[1..]);
      forall i | 0 <= i < |rest| ensures rest[i].key != xs[0].key {
        assert rest[i] in multiset(rest) && rest[i] in multiset(xs[1..]);
        var j :| 0 <= j < |xs[1..]| && xs[1..][j] == rest[i];
        assert xs[j + 1] == rest[i];
      }
      InsertIncreasing(e, xs[0], rest);
    }
  }

  /** Two increasing sequences of the same items are equal. */
  lemma {:induction false} IncreasingUnique<T>(e: Encoding, xs: seq<Keyed<T>>, ys: seq<Keyed<T>>)
    requires Increasing(e, xs) && Increasing(e, ys)
    requires forall m :: m in xs <==> m in ys
    ensures xs == ys
  {
    assert ys != [] ==> ys[0] in ys;
    if xs != [] {
      assert xs[0] in xs && xs[0] in ys;
      assert ys[0] in ys && ys[0] in xs;
      HeadsAgree(e, xs, ys);
      forall m ensures m in xs[1..] <==> m in ys[1..] {
        TailMembers(e, xs, m);
        TailMembers(e, ys, m);
      }
      IncreasingUnique(e, xs[1..], ys[1..]);
      assert xs == [xs[0]] + xs[1..] && ys == [ys[0]] + ys[1..];
    }
  }

  lemma {:induction false} HeadsAgree<T>(e: Encoding, xs: seq<Keyed<T>>, ys: seq<Keyed<T>>)
    requires Increasing(e, xs) && Increasing(e, ys) && xs != [] && ys != []
    requires xs[0] in ys && ys[0] in xs
    ensures xs[0] == ys[0]
  {
    var i :| 0 <= i < |ys| && ys[i] == xs[0];
    var j :| 0 <= j < |xs| && xs[j] == ys[0];
    if i > 0 && j > 0 {
      LessTrichotomy(Encode(e, xs[0].key), Encode(e, ys[0].key));
    }
  }

  lemma {:induction false} TailMembers<T>(e: Encoding, xs: seq<Keyed<T>>, m: Keyed<T>)
    requires Increasing(e, xs) && xs != []
    ensures m in xs[1..] <==> m in xs && m != xs[0]
  {
    LessTrichotomy(Encode(e, xs[0].key), Encode(e, xs[0].key));
  }

  /* ---------- sorting commutes with changing the values ---------- */

  function MapValues<T, U>(f: T -> U, xs: seq<Keyed<T>>): (ys: seq<Keyed<U>>)
    ensures |ys| == |xs|
    ensures forall i :: 0 <= i < |xs| ==> ys[i] == Keyed(xs[i].key, f(xs[i].value))
  {
    if xs == [] then [] else [Keyed(xs[0].key, f(xs[0].value))] + MapValues(f, xs[1..])
  }

  lemma {:induction false} InsertMap<T, U>(e: Encoding, f: T -> U, m: Keyed<T>, xs: seq<Keyed<T>>)
    ensures Insert(e, Keyed(m.key, f(m.value)), MapValues(f, xs)) == MapValues(f, Insert(e, m, xs))
  {
    var fm := Keyed(m.key, f(m.value));
    if xs == [] || !LessBy(e, xs[0].key, m.key) {
      assert ([m] + xs)[1..] == xs;
    } else {
      InsertMap(e, f, m, xs[1..]);
      assert MapValues(f, xs)[1..] == MapValues(f, xs[1..]);
      assert ([xs[0]] + Insert(e, m, xs[1..]))[1..] == Insert(e, m, xs[1..]);
    }
  }

  lemma {:induction false} SortMap<T, U>(e: Encoding, f: T -> U, xs: seq<Keyed<T>>)
    ensures Sort(e, MapValues(f, xs)) == MapValues(f, Sort(e, xs))
  {
    if xs != [] {
      SortMap(e, f, xs[1..]);
      assert MapValues(f, xs)[1..] == MapValues(f, xs[1..]);
      InsertMap(e, f, xs[0], Sort(e, xs[1..]));
    }
  }

  /* ---------- sorting strings ---------- */

  function Wrap(xs: seq<string>): (items: seq<Keyed<()>>)
    ensures |items| == |xs|
    ensures forall i :: 0 <= i < |xs| ==> items[i] == Keyed(xs[i], ())
  {
    seq(|xs|, i requires 0 <= i < |xs| => Keyed(xs[i], ()))
  }

  function Unwrap(items: seq<Keyed<()>>): (xs: seq<string>)
    ensures |xs| == |items|
    ensures forall i :: 0 <= i < |items| ==> xs[i] == items[i].key
  {
    seq(|items|, i requires 0 <= i < |items| => items[i].key)
  }

  /** sorted(xs, key=...) on bare strings. */
  function SortStrings(e: Encoding, xs: seq<string>): seq<string> {
    Unwrap(Sort(e, Wrap(xs)))
  }

  predicate IncreasingStrings(e: Encoding, xs: seq<string>) {
    forall i, j :: 0 <= i < j < |xs| ==> LessBy(e, xs[i], xs[j])
  }

  predicate Distinct(xs: seq<string>) {
    forall i, j :: 0 <= i < j < |xs| ==> xs[i] != xs[j]
  }

  lemma {:induction false} SortStringsProperties(e: Encoding, xs: seq<string>)
    requires Distinct(xs)
    ensures IncreasingStrings(e, SortStrings(e, xs))
    ensures forall x :: x in SortStrings(e, xs) <==> x in xs
  {
    var items := Wrap(xs);
    SortIncreasing(e, items);
    forall x ensures x in SortStrings(e, xs) <==> x in xs {
      if x in xs {
        var i :| 0 <= i < |xs| && xs[i] == x;
        var k := SortedTo(e, items, i);
        assert SortStrings(e, xs)[k] == x;
      }
      if x in SortStrings(e, xs) {
        var k :| 0 <= k < |SortStrings(e, xs)| && SortStrings(e, xs)[k] == x;
        var i := SortedFrom(e, items, k);
        assert xs[i] == x;
      }
    }
  }

  lemma {:induction false} IncreasingStringsUnique(e: Encoding, xs: seq<string>, ys: seq<string>)
    requires IncreasingStrings(e, xs) && IncreasingStrings(e, ys) && forall x :: x in xs <==> x in ys
    ensures xs == ys
  {
    var wx, wy := Wrap(xs), Wrap(ys);
    forall m ensures m in wx <==> m in wy {
      if m in wx { var i :| 0 <= i < |wx| && wx[i] == m; InWrap(ys, xs[i]); }
      if m in wy { var i :| 0 <= i < |wy| && wy[i] == m; InWrap(xs, ys[i]); }
    }
    IncreasingUnique(e, wx, wy);
    assert xs == Unwrap(wx) && ys == Unwrap(wy);
  }

  lemma {:induction false} InWrap(xs: seq<string>, x: string)
    requires x in xs
    ensures Keyed(x, ()) in Wrap(xs)
  {
    var i :| 0 <= i < |xs| && xs[i] == x;
    assert Wrap(xs)[i] == Keyed(x, ());
  }

  /** The keys of a dict, in some order. */
  method KeyList<T>(m: map<string, T>) returns (keys: seq<string>)
    ensures Distinct(keys)
    ensures forall key :: key in keys <==> key in m
  {
    keys := [];
    var rest := m.Keys;
    while rest != {}
      invariant rest <= m.Keys
      invariant Distinct(keys)
      invariant forall key :: key in keys <==> key in m.Keys && key !in rest
      decreases |rest|
    {
      var key :| key in rest;
      rest := rest - {key};
      keys := keys + [key];
    }
  }
}
