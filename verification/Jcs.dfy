/** What the canonical printers mean: they print unambiguously, two values have one
    canonical form exactly when they are equal as JSON, and the two printers agree
    exactly when no object holds two keys that UTF-16 order and code-point order
    put differently. */
module Jcs {
  import opened Common
  import opened Encodings
  import opened KeyedSort
  import opened Json
  import opened Dicts
  import opened JsonParse

  /* ---------- the imperative parts of the serialiser ---------- */

  method SerializeString(value: string) returns (text: string)
    ensures text == StringText(value)
  {
    text := "\"";
    for i := 0 to |value|
      invariant text + EscapeAll(value[i..]) == "\"" + EscapeAll(value)
    {
      var ch := value[i];
      assert value[i..][1..] == value[i + 1..];
      ghost var before, rest := text, EscapeAll(value[i + 1..]);
      if ch == '"' { text := text + "\\\""; }
      else if ch == '\\' { text := text + "\\\\"; }
      else if ch == BACKSPACE { text := text + "\\b"; }
      else if ch == FORM_FEED { text := text + "\\f"; }
      else if ch == '\n' { text := text + "\\n"; }
      else if ch == '\r' { text := text + "\\r"; }
      else if ch == '\t' { text := text + "\\t"; }
      else if ch as int < 0x20 {
        text := text + ("\\u00" + [HEX_DIGITS[ch as int / 16], HEX_DIGITS[ch as int % 16]]);
      }
      else { text := text + [ch]; }
      assert text == before + EscapeChar(ch);
      Append(before, EscapeChar(ch), rest);
    }
    assert text + "" == text;
    text := text + "\"";
  }

  lemma {:induction false} Append(a: string, b: string, c: string)
    ensures a + (b + c) == (a + b) + c
  {
  }

  /** The keys of a dict, as bare items to be sorted. */
  function Keys<T>(members: seq<Keyed<T>>): seq<Keyed<()>> { MapValues((x: T) => (), members) }

  method SerializeObject(members: seq<Member>) returns (text: string)
    requires DistinctKeys(members)
    ensures text == Serialize(Utf16, Obj(members))
  {
    var items := CollectKeys(members);
    items := Sort(Utf16, items);
    ghost var entries := Sort(Utf16, SerializeValues(Utf16, members));
    SortedItems(members);
    var parts: seq<string> := [];
    for k := 0 to |items|
      invariant parts + EntryTexts(entries[k..]) == EntryTexts(entries)
    {
      var key := items[k].key;
      var name := SerializeString(key);
      var part := name + ":" + Serialize(Utf16, Value(members, key));
      assert entries[k..][1..] == entries[k + 1..];
      parts := parts + [part];
    }
    assert parts + [] == parts;
    text := "{" + Commas(parts) + "}";
  }

  method CollectKeys(members: seq<Member>) returns (items: seq<Keyed<()>>)
    ensures items == Keys(members)
  {
    items := [];
    for i := 0 to |members|
      invariant |items| == i && forall k :: 0 <= k < i ==> items[k] == Keyed(members[k].key, ())
    {
      items := items + [Keyed(members[i].key, ())];
    }
  }

  /** Sorted key k leads to entry k: its member's value, serialised. */
  lemma {:induction false} SortedItems(members: seq<Member>)
    requires DistinctKeys(members)
    ensures var items, entries := Sort(Utf16, Keys(members)), Sort(Utf16, SerializeValues(Utf16, members));
            && |items| == |entries|
            && forall k :: 0 <= k < |items| ==>
                 && Has(members, items[k].key)
                 && entries[k] == Keyed(items[k].key, Serialize(Utf16, Value(members, items[k].key)))
  {
    var items, sorted := Sort(Utf16, Keys(members)), Sort(Utf16, members);
    SortMap(Utf16, (x: Json) => (), members);
    SortedEntries(members);
    forall k | 0 <= k < |items|
      ensures Has(members, items[k].key) && Value(members, items[k].key) == sorted[k].value
    {
      var i := SortedFrom(Utf16, members, k);
    }
  }

  /** Entry k of the sorted entries is the text of member k of the sorted members. */
  lemma {:induction false} SortedEntries(members: seq<Member>)
    ensures Sort(Utf16, SerializeValues(Utf16, members))
         == MapValues((v: Json) => Serialize(Utf16, v), Sort(Utf16, members))
  {
    SerializeValuesMap(members);
    SortMap(Utf16, (v: Json) => Serialize(Utf16, v), members);
  }

  lemma {:induction false} SerializeValuesMap(members: seq<Member>)
    ensures SerializeValues(Utf16, members) == MapValues((v: Json) => Serialize(Utf16, v), members)
  {
    if members != [] { SerializeValuesMap(members[1..]); }
  }

  /* ---------- serialising is printing the normalised value ---------- */

  lemma {:induction false} SerializeIsPrintNorm(e: Encoding, v: Json)
    ensures Serialize(e, v) == Print(Norm(e, v))
    decreases v, 1
  {
    match v
    case Arr(items) => SerializeItemsIsPrintNorm(e, items);
    case Obj(members) =>
      var normed := NormValues(e, members);
      SerializeValuesIsPrintNorm(e, members);
      SortMap(e, Print, normed);
      EntriesArePrinted(Sort(e, normed));
    case _ =>
  }

  lemma {:induction false} SerializeItemsIsPrintNorm(e: Encoding, items: seq<Json>)
    ensures Commas(SerializeItems(e, items)) == PrintItems(NormItems(e, items))
    decreases items, 0
  {
    if items != [] {
      SerializeIsPrintNorm(e, items[0]);
      SerializeItemsIsPrintNorm(e, items[1..]);
      assert SerializeItems(e, items)[1..] == SerializeItems(e, items[1..]);
      assert NormItems(e, items)[1..] == NormItems(e, items[1..]);
      assert |SerializeItems(e, items)| == 1 <==> |items| == 1 by {
        if |items| > 1 { assert SerializeItems(e, items[1..]) != []; }
      }
    }
  }

  lemma {:induction false} SerializeValuesIsPrintNorm(e: Encoding, members: seq<Member>)
    ensures SerializeValues(e, members) == MapValues(Print, NormValues(e, members))
    decreases members, 0
  {
    if members != [] {
      SerializeIsPrintNorm(e, members[0].value);
      SerializeValuesIsPrintNorm(e, members[1..]);
      assert NormValues(e, members)[1..] == NormValues(e, members[1..]);
    }
  }

  lemma {:induction false} EntriesArePrinted(members: seq<Member>)
    ensures Commas(EntryTexts(MapValues(Print, members))) == PrintMembers(members)
    ensures |EntryTexts(MapValues(Print, members))| == |members|
  {
    if members != [] {
      EntriesArePrinted(members[1..]);
      assert MapValues(Print, members)[1..] == MapValues(Print, members[1..]);
      var texts := EntryTexts(MapValues(Print, members));
      assert texts[1..] == EntryTexts(MapValues(Print, members[1..]));
      assert texts[0] == PrintMember(members[0]);
    }
  }

  /* ---------- normal forms and equality as JSON ---------- */

  lemma {:induction false} DistinctCardinality<T>(xs: seq<Keyed<T>>)
    requires DistinctKeys(xs)
    ensures |set m | m in xs| == |xs|
  {
    if xs != [] {
      DistinctCardinality(xs[1..]);
      var all, others := set m | m in xs, set m | m in xs[1..];
      assert xs[0] !in others;
      assert all == {xs[0]} + others;
    }
  }

  lemma {:induction false} SubsetOfSameSize<T>(a: set<T>, b: set<T>)
    requires a <= b && |a| == |b|
    ensures a == b
  {
    assert |b - a| == |b| - |a|;
    assert b == a + (b - a);
  }

  /** A dict included in a dict of the same size has the same items. */
  lemma {:induction false} SameSizeInclusion<T>(xs: seq<Keyed<T>>, ys: seq<Keyed<T>>)
    requires DistinctKeys(xs) && DistinctKeys(ys) && |xs| == |ys|
    requires forall m :: m in xs ==> m in ys
    ensures forall m :: m in ys ==> m in xs
  {
    var a, b := set m | m in xs, set m | m in ys;
    DistinctCardinality(xs);
    DistinctCardinality(ys);
    SubsetOfSameSize(a, b);
    forall m | m in ys ensures m in xs { assert m in b; }
  }

  lemma {:induction false} EqualValuesNormalise(e: Encoding, v: Json, w: Json)
    requires IsDict(v) && IsDict(w) && JsonEq(v, w)
    ensures Norm(e, v) == Norm(e, w)
    decreases v, 1
  {
    if v.Arr? {
      forall i | 0 <= i < |v.items| ensures Norm(e, v.items[i]) == Norm(e, w.items[i]) {
        EqualValuesNormalise(e, v.items[i], w.items[i]);
      }
      assert NormItems(e, v.items) == NormItems(e, w.items);
    } else if v.Obj? {
      EqualDictsNormalise(e, v, w);
    }
  }

  lemma {:induction false} EqualDictsNormalise(e: Encoding, v: Json, w: Json)
    requires v.Obj? && w.Obj? && IsDict(v) && IsDict(w) && JsonEq(v, w)
    ensures Sort(e, NormValues(e, v.members)) == Sort(e, NormValues(e, w.members))
    decreases v, 0
  {
    var a, b := v.members, w.members;
    var na, nb := NormValues(e, a), NormValues(e, b);
    forall m | m in na ensures m in nb {
      var i :| 0 <= i < |na| && na[i] == m;
      var j :| 0 <= j < |b| && b[j].key == a[i].key && JsonEq(a[i].value, b[j].value);
      EqualValuesNormalise(e, a[i].value, b[j].value);
      assert nb[j] == m;
    }
    SameSizeInclusion(na, nb);
    SortedAlike(e, na, nb);
  }

  lemma {:induction false} SortedAlike<T>(e: Encoding, xs: seq<Keyed<T>>, ys: seq<Keyed<T>>)
    requires DistinctKeys(xs) && DistinctKeys(ys) && forall m :: m in xs <==> m in ys
    ensures Sort(e, xs) == Sort(e, ys)
  {
    SortIncreasing(e, xs);
    SortIncreasing(e, ys);
    SortPermutes(e, xs);
    SortPermutes(e, ys);
    IncreasingUnique(e, Sort(e, xs), Sort(e, ys));
  }

  /** A member of one dict, found in another of the same normal form. */
  lemma {:induction false} SameMember(e: Encoding, a: seq<Member>, b: seq<Member>, i: nat) returns (j: nat)
    requires Sort(e, NormValues(e, a)) == Sort(e, NormValues(e, b)) && i < |a|
    ensures j < |b| && b[j].key == a[i].key && Norm(e, b[j].value) == Norm(e, a[i].value)
  {
    var k := SortedTo(e, NormValues(e, a), i);
    j := SortedFrom(e, NormValues(e, b), k);
  }

  lemma {:induction false} EqualNormsAreEqualValues(e: Encoding, v: Json, w: Json)
    requires Norm(e, v) == Norm(e, w)
    ensures JsonEq(v, w)
    decreases v, 1
  {
    if v.Arr? {
      assert w.Arr?;
      var nx, ny := NormItems(e, v.items), NormItems(e, w.items);
      forall i | 0 <= i < |v.items| ensures JsonEq(v.items[i], w.items[i]) {
        assert nx[i] == ny[i];
        EqualNormsAreEqualValues(e, v.items[i], w.items[i]);
      }
    } else if v.Obj? {
      assert w.Obj?;
      EqualNormsAreEqualDicts(e, v, w);
    }
  }

  lemma {:induction false} EqualNormsAreEqualDicts(e: Encoding, v: Json, w: Json)
    requires v.Obj? && w.Obj? && Sort(e, NormValues(e, v.members)) == Sort(e, NormValues(e, w.members))
    ensures JsonEq(v, w)
    decreases v, 0
  {
    SameSize(e, v.members, w.members);
    forall i | 0 <= i < |v.members| ensures HasEqual(w.members, v.members[i]) {
      var j := SameMember(e, v.members, w.members, i);
      EqualNormsAreEqualValues(e, v.members[i].value, w.members[j].value);
    }
    assert JsonEq(Obj(v.members), Obj(w.members));
  }

  /** A member of the same key and an equal value. */
  ghost predicate HasEqual(b: seq<Member>, m: Member) {
    exists j :: 0 <= j < |b| && b[j].key == m.key && JsonEq(m.value, b[j].value)
  }

  lemma {:induction false} SameSize(e: Encoding, a: seq<Member>, b: seq<Member>)
    requires Sort(e, NormValues(e, a)) == Sort(e, NormValues(e, b))
    ensures |a| == |b|
  {
    SortPermutes(e, NormValues(e, a));
    SortPermutes(e, NormValues(e, b));
  }

  /* ---------- the main results ---------- */

  /** The parser reads a canonical text back as the normalised value, whatever follows it. */
  lemma {:induction false} SerializeReadsBack(e: Encoding, v: Json, rest: string)
    requires NoDigitAhead(rest)
    ensures ParseValue(Serialize(e, v) + rest) == Some(Parsed(Norm(e, v), rest))
    ensures JsonEq(v, Norm(e, v))
  {
    SerializeIsPrintNorm(e, v);
    ParsePrint(Norm(e, v), rest);
    NormIsEqualValue(e, v);
  }

  lemma {:induction false} NormIsEqualValue(e: Encoding, v: Json)
    ensures JsonEq(v, Norm(e, v))
    decreases v
  {
    match v
    case Arr(items) =>
      forall i | 0 <= i < |items| ensures JsonEq(items[i], Norm(e, items[i])) {
        NormIsEqualValue(e, items[i]);
      }
    case Obj(members) =>
      var normed := NormValues(e, members);
      var sorted := Sort(e, normed);
      SortPermutes(e, normed);
      forall i | 0 <= i < |members|
        ensures HasEqual(sorted, members[i])
      {
        var j := SortedTo(e, normed, i);
        NormIsEqualValue(e, members[i].value);
      }
      assert JsonEq(Obj(members), Obj(sorted));
    case _ =>
  }

  lemma {:induction false} EqualBytesEqualNorms(e: Encoding, v: Json, w: Json)
    requires EncodeUtf8(Serialize(e, v)) == EncodeUtf8(Serialize(e, w))
    ensures Norm(e, v) == Norm(e, w)
  {
    SerializeIsPrintNorm(e, v);
    SerializeIsPrintNorm(e, w);
    EncodeInjective(Utf8, Serialize(e, v), Serialize(e, w));
    PrintInjective(Norm(e, v), Norm(e, w));
  }

  /** Two values have the same canonical bytes iff they are equal as JSON values with
      objects as maps: insertion order never matters, anything else always does. */
  lemma {:induction false} CanonicalBytesDecideEquality(e: Encoding, v: Json, w: Json)
    requires IsDict(v) && IsDict(w)
    ensures EncodeUtf8(Serialize(e, v)) == EncodeUtf8(Serialize(e, w)) <==> JsonEq(v, w)
  {
    if EncodeUtf8(Serialize(e, v)) == EncodeUtf8(Serialize(e, w)) {
      EqualBytesEqualNorms(e, v, w);
      EqualNormsAreEqualValues(e, v, w);
    }
    if JsonEq(v, w) {
      EqualValuesNormalise(e, v, w);
      SerializeIsPrintNorm(e, v);
      SerializeIsPrintNorm(e, w);
    }
  }

  /* ---------- when the two printers agree ---------- */

  /** No object of the value has two keys that the two orders put differently. */
  ghost predicate NoConflictingKeys(v: Json) {
    match v
    case Arr(items) => forall i :: 0 <= i < |items| ==> NoConflictingKeys(items[i])
    case Obj(members) =>
      && (forall i, j :: 0 <= i < |members| && 0 <= j < |members| ==> !OrdersConflict(members[i].key, members[j].key))
      && forall i :: 0 <= i < |members| ==> NoConflictingKeys(members[i].value)
    case _ => true
  }

  lemma {:induction false} IncreasingBothWays<T>(xs: seq<Keyed<T>>)
    requires forall i, j :: 0 <= i < |xs| && 0 <= j < |xs| ==> !OrdersConflict(xs[i].key, xs[j].key)
    requires Increasing(Utf16, xs)
    ensures Increasing(CodePoints, xs)
  {
    forall i, j | 0 <= i < j < |xs| ensures LessBy(CodePoints, xs[i].key, xs[j].key) {
      Utf16OrderDiffersExactlyOnConflicts(xs[i].key, xs[j].key);
    }
  }

  lemma {:induction false} NoConflictsNormAlike(v: Json)
    requires IsDict(v) && NoConflictingKeys(v)
    ensures Norm(Utf16, v) == Norm(CodePoints, v)
    decreases v
  {
    match v
    case Arr(items) =>
      forall i | 0 <= i < |items| ensures Norm(Utf16, items[i]) == Norm(CodePoints, items[i]) {
        NoConflictsNormAlike(items[i]);
      }
      assert NormItems(Utf16, items) == NormItems(CodePoints, items);
    case Obj(members) =>
      var normed := NormValues(Utf16, members);
      forall i | 0 <= i < |members| ensures Norm(Utf16, members[i].value) == Norm(CodePoints, members[i].value) {
        NoConflictsNormAlike(members[i].value);
      }
      assert normed == NormValues(CodePoints, members);
      SortsAlike(normed);
    case _ =>
  }

  lemma {:induction false} SortsAlike<T>(xs: seq<Keyed<T>>)
    requires DistinctKeys(xs)
    requires forall i, j :: 0 <= i < |xs| && 0 <= j < |xs| ==> !OrdersConflict(xs[i].key, xs[j].key)
    ensures Sort(Utf16, xs) == Sort(CodePoints, xs)
  {
    var sorted := Sort(Utf16, xs);
    SortIncreasing(Utf16, xs);
    SortIncreasing(CodePoints, xs);
    SortPermutes(Utf16, xs);
    SortPermutes(CodePoints, xs);
    forall i, j | 0 <= i < |sorted| && 0 <= j < |sorted| ensures !OrdersConflict(sorted[i].key, sorted[j].key) {
      var i' := SortedFrom(Utf16, xs, i);
      var j' := SortedFrom(Utf16, xs, j);
    }
    IncreasingBothWays(sorted);
    IncreasingUnique(CodePoints, sorted, Sort(CodePoints, xs));
  }

  lemma {:induction false} ConflictSymmetric(s: string, t: string)
    ensures OrdersConflict(s, t) == OrdersConflict(t, s)
    ensures OrdersConflict(s, t) ==> s != t
  {
    if s != "" && t != "" { ConflictSymmetric(s[1..], t[1..]); }
  }

  lemma {:induction false} SortedAlikeNeverConflicts<T>(xs: seq<Keyed<T>>, ys: seq<Keyed<T>>, m: Keyed<T>, n: Keyed<T>)
    requires DistinctKeys(xs) && DistinctKeys(ys) && Sort(Utf16, xs) == Sort(CodePoints, ys)
    requires m in xs && n in xs
    ensures !OrdersConflict(m.key, n.key)
  {
    var sorted := Sort(Utf16, xs);
    SortIncreasing(Utf16, xs);
    SortIncreasing(CodePoints, ys);
    SortPermutes(Utf16, xs);
    assert m in sorted && n in sorted;
    var i :| 0 <= i < |sorted| && sorted[i] == m;
    var j :| 0 <= j < |sorted| && sorted[j] == n;
    InBothOrders(sorted, i, j);
  }

  lemma {:induction false} InBothOrders<T>(sorted: seq<Keyed<T>>, i: nat, j: nat)
    requires Increasing(Utf16, sorted) && Increasing(CodePoints, sorted) && i < |sorted| && j < |sorted|
    ensures !OrdersConflict(sorted[i].key, sorted[j].key)
  {
    ConflictSymmetric(sorted[i].key, sorted[j].key);
    Utf16OrderDiffersExactlyOnConflicts(sorted[i].key, sorted[j].key);
    Utf16OrderDiffersExactlyOnConflicts(sorted[j].key, sorted[i].key);
  }

  lemma {:induction false} NormsAlikeNeverConflict(v: Json)
    requires IsDict(v) && Norm(Utf16, v) == Norm(CodePoints, v)
    ensures NoConflictingKeys(v)
    decreases v
  {
    match v
    case Arr(items) =>
      forall i | 0 <= i < |items| ensures NoConflictingKeys(items[i]) {
        assert NormItems(Utf16, items)[i] == NormItems(CodePoints, items)[i];
        NormsAlikeNeverConflict(items[i]);
      }
    case Obj(members) =>
      var xs, ys := NormValues(Utf16, members), NormValues(CodePoints, members);
      forall i, j | 0 <= i < |members| && 0 <= j < |members| ensures !OrdersConflict(members[i].key, members[j].key) {
        assert xs[i] in xs && xs[j] in xs;
        SortedAlikeNeverConflicts(xs, ys, xs[i], xs[j]);
      }
      SortPermutes(Utf16, xs);
      SortPermutes(CodePoints, ys);
      forall i | 0 <= i < |members| ensures NoConflictingKeys(members[i].value) {
        var k := SortedTo(Utf16, xs, i);
        var j := SortedFrom(CodePoints, ys, k);
        assert j == i;
        NormsAlikeNeverConflict(members[i].value);
      }
    case _ =>
  }

  /** The FTD verifier's printer agrees with the RFC 8785 printer exactly on the values
      in which no object has a conflicting pair of keys. */
  lemma {:induction false} PrintersAgreeIff(v: Json)
    requires IsDict(v)
    ensures LocalJcs(v) == Canonicalize(v) <==> NoConflictingKeys(v)
  {
    SerializeIsPrintNorm(Utf16, v);
    SerializeIsPrintNorm(CodePoints, v);
    if NoConflictingKeys(v) { NoConflictsNormAlike(v); }
    if LocalJcs(v) == Canonicalize(v) {
      EncodeInjective(Utf8, Serialize(CodePoints, v), Serialize(Utf16, v));
      PrintInjective(Norm(Utf16, v), Norm(CodePoints, v));
      NormsAlikeNeverConflict(v);
    }
  }

  /** All object keys stay in the basic multilingual plane. */
  ghost predicate BmpKeys(v: Json) {
    match v
    case Arr(items) => forall i :: 0 <= i < |items| ==> BmpKeys(items[i])
    case Obj(members) => forall i :: 0 <= i < |members| ==> InBmp(members[i].key) && BmpKeys(members[i].value)
    case _ => true
  }

  lemma {:induction false} BmpKeysNeverConflict(v: Json)
    requires BmpKeys(v)
    ensures NoConflictingKeys(v)
  {
    match v
    case Arr(items) =>
      forall i | 0 <= i < |items| ensures NoConflictingKeys(items[i]) { BmpKeysNeverConflict(items[i]); }
    case Obj(members) =>
      forall i, j | 0 <= i < |members| && 0 <= j < |members| ensures !OrdersConflict(members[i].key, members[j].key) {
        BmpNeverConflicts(members[i].key, members[j].key);
      }
      forall i | 0 <= i < |members|
        ensures NoConflictingKeys(members[i].value)
      {
        BmpKeysNeverConflict(members[i].value);
      }
    case _ =>
  }

  /** So the two printers agree on every value whose keys stay in the BMP. */
  lemma PrintersAgreeOnBmpKeys(v: Json)
    requires IsDict(v) && BmpKeys(v)
    ensures LocalJcs(v) == Canonicalize(v)
  {
    BmpKeysNeverConflict(v);
    PrintersAgreeIff(v);
  }

  /** A value on which they differ: keys U+FF61 and U+10000. */
  lemma PrintersDisagree()
    ensures var v := Obj([Keyed("\U{FF61}", Null), Keyed("\U{10000}", Null)]);
            IsDict(v) && LocalJcs(v) != Canonicalize(v)
  {
    var v := Obj([Keyed("\U{FF61}", Null), Keyed("\U{10000}", Null)]);
    assert OrdersConflict(v.members[0].key, v.members[1].key);
    PrintersAgreeIff(v);
  }
}
