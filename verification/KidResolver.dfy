/** Resolving a key identifier against an identity document, the listing twin of the
    resolver, and exactly when the two agree. */
module KidResolver {
  import opened Common
  import opened Encodings
  import opened KeyedSort
  import opened Json
  import opened Dicts

  type Instant = int

  /** Hexadecimal decoding and RFC 3339 parsing, left to the library; a time without a
      zone is read as UTC. */
  datatype Formats = Formats(fromHex: string -> Option<Bytes>, parseTime: string -> Option<Instant>)

  datatype ResolvedPublicKey = ResolvedPublicKey(
    kid: string,
    publicKey: Bytes,
    validAfter: Option<Instant>,
    validUntil: Option<Instant>,
    purpose: Option<string>)

  datatype KidResolverError = KidResolverError

  /** What is asked for besides the kid. */
  datatype Filter = Filter(asOf: Option<Instant>, purpose: Option<string>)

  const KEY_LEN := 32
  const KEY_HEX_LEN := 64

  /* ---------- one entry ---------- */

  function KeyBytes(f: Formats, entry: seq<Member>): Option<Bytes> {
    match Field(entry, "key_hex")
    case Some(Str(hex)) =>
      if |hex| != KEY_HEX_LEN then None
      else
        var bytes :- f.fromHex(hex);
        if |bytes| == KEY_LEN then Some(bytes) else None
    case _ => None
  }

  /** A time, null or absent; None where the parse raises. */
  function ReadTime(f: Formats, v: Option<Json>): Option<Option<Instant>> {
    match v
    case None => Some(None)
    case Some(Null) => Some(None)
    case Some(Str(s)) =>
      var t :- f.parseTime(s);
      Some(Some(t))
    case _ => None
  }

  datatype Window = Window(after: Option<Instant>, until: Option<Instant>)

  function WindowOf(f: Formats, entry: seq<Member>): Option<Window> {
    var after :- ReadTime(f, Field(entry, "validafter"));
    var until :- ReadTime(f, Field(entry, "validuntil"));
    Some(Window(after, until))
  }

  predicate Contains(w: Window, asOf: Instant) {
    (w.after.Some? ==> w.after.value <= asOf) && (w.until.Some? ==> asOf < w.until.value)
  }

  predicate IsEd25519(entry: seq<Member>) { Field(entry, "alg") == Some(Str("Ed25519")) }

  predicate HasPurpose(entry: seq<Member>, purpose: Option<string>) {
    purpose.Some? ==> Field(entry, "purpose") == Some(Str(purpose.value))
  }

  function PurposeOf(entry: seq<Member>): Option<string> {
    match Field(entry, "purpose")
    case Some(Str(s)) => Some(s)
    case _ => None
  }

  /** What the resolver makes of the entry it has picked. */
  function ResolveEntry(f: Formats, entry: seq<Member>, kid: string, filter: Filter): Option<ResolvedPublicKey> {
    if !IsEd25519(entry) then None
    else
      var key :- KeyBytes(f, entry);
      var window :- WindowOf(f, entry);
      if filter.asOf.Some? && !Contains(window, filter.asOf.value) then None
      else if !HasPurpose(entry, filter.purpose) then None
      else Some(ResolvedPublicKey(kid, key, window.after, window.until, PurposeOf(entry)))
  }

  /** Whether the listing keeps the entry; it reads the window only when there is a time
      to compare it with. */
  predicate ListsEntry(f: Formats, entry: seq<Member>, filter: Filter) {
    && IsEd25519(entry)
    && KeyBytes(f, entry).Some?
    && (filter.asOf.Some? ==> WindowOf(f, entry).Some? && Contains(WindowOf(f, entry).value, filter.asOf.value))
    && HasPurpose(entry, filter.purpose)
  }

  /* ---------- the document ---------- */

  /** The public_keys sequence; None where its absence or shape is an error. */
  function KeysOf(doc: Json): Option<seq<Json>> {
    if !doc.Obj? then None
    else match Field(doc.members, "public_keys")
      case Some(Arr(items)) => Some(items)
      case _ => None
  }

  predicate HasKid(entry: Json, kid: string) { entry.Obj? && Field(entry.members, "kid") == Some(Str(kid)) }

  /** The entry is the only one with the kid. */
  predicate OnlyEntry(keys: seq<Json>, kid: string, i: int) {
    && 0 <= i < |keys| && HasKid(keys[i], kid)
    && forall j | 0 <= j < |keys| :: HasKid(keys[j], kid) ==> j == i
  }

  predicate AllMappings(keys: seq<Json>) { forall i | 0 <= i < |keys| :: keys[i].Obj? }

  ghost predicate ResolvesTo(f: Formats, doc: Json, kid: string, filter: Filter, key: ResolvedPublicKey) {
    && kid != "" && KeysOf(doc).Some? && AllMappings(KeysOf(doc).value)
    && exists i :: OnlyEntry(KeysOf(doc).value, kid, i)
                && ResolveEntry(f, KeysOf(doc).value[i].members, kid, filter) == Some(key)
  }

  ghost predicate Resolves(f: Formats, doc: Json, kid: string, filter: Filter) {
    exists key :: ResolvesTo(f, doc, kid, filter, key)
  }

  ghost predicate Lists(f: Formats, keys: seq<Json>, kid: string, filter: Filter) {
    kid != "" && exists i :: OnlyEntry(keys, kid, i) && ListsEntry(f, keys[i].members, filter)
  }

  /** The kids the listing returns. */
  ghost predicate IsListing(f: Formats, doc: Json, filter: Filter, kids: seq<string>) {
    && KeysOf(doc).Some?
    && IncreasingStrings(CodePoints, kids)
    && forall kid :: kid in kids <==> Lists(f, KeysOf(doc).value, kid, filter)
  }

  /* ---------- counting entries ---------- */

  function Count(keys: seq<Json>, kid: string): nat {
    if keys == [] then 0
    else Count(keys[..|keys| - 1], kid) + if HasKid(keys[|keys| - 1], kid) then 1 else 0
  }

  lemma {:induction false} CountNext(keys: seq<Json>, i: nat, kid: string)
    requires i < |keys|
    ensures Count(keys[..i + 1], kid) == Count(keys[..i], kid) + if HasKid(keys[i], kid) then 1 else 0
  {
    assert keys[..i + 1][..i] == keys[..i];
  }

  lemma {:induction false} CountZero(keys: seq<Json>, kid: string)
    ensures Count(keys, kid) == 0 <==> forall i :: 0 <= i < |keys| ==> !HasKid(keys[i], kid)
  {
    if keys != [] {
      var rest := keys[..|keys| - 1];
      CountZero(rest, kid);
      assert forall i :: 0 <= i < |rest| ==> rest[i] == keys[i];
    }
  }

  lemma {:induction false} CountOne(keys: seq<Json>, kid: string)
    ensures Count(keys, kid) == 1 <==> exists i :: OnlyEntry(keys, kid, i)
  {
    if keys != [] {
      var n := |keys| - 1;
      var rest := keys[..n];
      assert forall i :: 0 <= i < n ==> rest[i] == keys[i];
      CountZero(rest, kid);
      CountOne(rest, kid);
      if HasKid(keys[n], kid) {
        if Count(rest, kid) == 0 { assert OnlyEntry(keys, kid, n); }
      } else if Count(rest, kid) == 1 {
        var i :| OnlyEntry(rest, kid, i);
        assert OnlyEntry(keys, kid, i);
      } else if exists i :: OnlyEntry(keys, kid, i) {
        var i :| OnlyEntry(keys, kid, i);
        assert OnlyEntry(rest, kid, i);
      }
    }
  }

  /* ---------- the resolver ---------- */

  method ResolveKid(f: Formats, doc: Json, kid: string, filter: Filter)
      returns (r: Result<ResolvedPublicKey, KidResolverError>)
    ensures r.Ok? ==> ResolvesTo(f, doc, kid, filter, r.value)
    ensures r.Err? ==> !Resolves(f, doc, kid, filter)
  {
    if kid == "" { return Err(KidResolverError); }
    var found := KeysOf(doc);
    if found.None? || found.value == [] { return Err(KidResolverError); }
    var keys := found.value;
    var collected := CollectMatches(keys, kid);
    if collected.None? { return Err(KidResolverError); }
    var matches := collected.value;
    if |matches| != 1 {
      NotTheOnlyMatch(keys, kid, matches);
      return Err(KidResolverError);
    }
    assert OnlyEntry(keys, kid, matches[0]);
    var resolved := CheckEntry(f, keys[matches[0]].members, kid, filter);
    return if resolved.Some? then Ok(resolved.value) else Err(KidResolverError);
  }

  /** The indices of the entries with the kid; None at an entry that is not a mapping. */
  method CollectMatches(keys: seq<Json>, kid: string) returns (r: Option<seq<nat>>)
    ensures r.Some? <==> AllMappings(keys)
    ensures r.Some? ==> forall n :: 0 <= n < |r.value| ==> r.value[n] < |keys| && HasKid(keys[r.value[n]], kid)
    ensures r.Some? ==> forall m, n :: 0 <= m < n < |r.value| ==> r.value[m] < r.value[n]
    ensures r.Some? ==> forall j :: 0 <= j < |keys| && HasKid(keys[j], kid) ==> j in r.value
  {
    var matches: seq<nat> := [];
    for i := 0 to |keys|
      invariant AllMappings(keys[..i])
      invariant forall n :: 0 <= n < |matches| ==> matches[n] < i && HasKid(keys[matches[n]], kid)
      invariant forall m, n :: 0 <= m < n < |matches| ==> matches[m] < matches[n]
      invariant forall j :: 0 <= j < i && HasKid(keys[j], kid) ==> j in matches
    {
      if !keys[i].Obj? { return None; }
      if HasKid(keys[i], kid) {
        assert i in matches + [i] && forall j :: j in matches ==> j in matches + [i];
        matches := matches + [i];
      }
    }
    return Some(matches);
  }

  /** The checks on the matching entry, in the order of the source. */
  method CheckEntry(f: Formats, entry: seq<Member>, kid: string, filter: Filter) returns (r: Option<ResolvedPublicKey>)
    ensures r == ResolveEntry(f, entry, kid, filter)
  {
    if !IsEd25519(entry) { return None; }
    var key := KeyBytes(f, entry);
    if key.None? { return None; }
    var after := ReadTime(f, Field(entry, "validafter"));
    if after.None? { return None; }
    var until := ReadTime(f, Field(entry, "validuntil"));
    if until.None? { return None; }
    if filter.asOf.Some? {
      if after.value.Some? && filter.asOf.value < after.value.value { return None; }
      if until.value.Some? && filter.asOf.value >= until.value.value { return None; }
    }
    if filter.purpose.Some? && Field(entry, "purpose") != Some(Str(filter.purpose.value)) { return None; }
    return Some(ResolvedPublicKey(kid, key.value, after.value, until.value, PurposeOf(entry)));
  }

  lemma {:induction false} NotTheOnlyMatch(keys: seq<Json>, kid: string, matches: seq<nat>)
    requires |matches| != 1
    requires forall n :: 0 <= n < |matches| ==> matches[n] < |keys| && HasKid(keys[matches[n]], kid)
    requires forall m, n :: 0 <= m < n < |matches| ==> matches[m] < matches[n]
    requires forall j :: 0 <= j < |keys| && HasKid(keys[j], kid) ==> j in matches
    ensures forall i :: !OnlyEntry(keys, kid, i)
  {
    if |matches| > 1 {
      assert matches[0] < matches[1] && HasKid(keys[matches[0]], kid) && HasKid(keys[matches[1]], kid);
    }
  }

  /* ---------- the listing ---------- */

  method ListResolvableKids(f: Formats, doc: Json, filter: Filter) returns (r: Result<seq<string>, KidResolverError>)
    ensures r.Err? <==> KeysOf(doc).None?
    ensures r.Ok? ==> IsListing(f, doc, filter, r.value)
  {
    var found := KeysOf(doc);
    if found.None? { return Err(KidResolverError); }
    var keys := found.value;
    var counts := CountKids(keys);
    var resolvable: seq<string> := [];
    for i := 0 to |keys|
      invariant Distinct(resolvable)
      invariant forall kid :: kid in resolvable <==> ListedBefore(f, keys, kid, filter, i)
    {
      var listed := ListsAt(f, keys, counts, filter, i);
      NextListed(f, keys, filter, i);
      if listed.Some? { resolvable := resolvable + [listed.value]; }
    }
    SortStringsProperties(CodePoints, resolvable);
    forall kid ensures kid in resolvable <==> Lists(f, keys, kid, filter) {
      assert Lists(f, keys, kid, filter) <==> ListedBefore(f, keys, kid, filter, |keys|);
    }
    return Ok(SortStrings(CodePoints, resolvable));
  }

  /** Listed on account of an entry before position i. */
  ghost predicate ListedBefore(f: Formats, keys: seq<Json>, kid: string, filter: Filter, i: nat) {
    kid != "" && exists k :: k < i && OnlyEntry(keys, kid, k) && ListsEntry(f, keys[k].members, filter)
  }

  /** The body of the second pass: the kid to append, if the entry passes the filters. */
  method ListsAt(f: Formats, keys: seq<Json>, counts: map<string, nat>, filter: Filter, i: nat)
      returns (kid: Option<string>)
    requires i < |keys|
    requires forall k :: (if k in counts then counts[k] else 0) == if k == "" then 0 else Count(keys, k)
    ensures kid.Some? ==> kid.value != "" && OnlyEntry(keys, kid.value, i) && ListsEntry(f, keys[i].members, filter)
    ensures kid.None? ==> forall k :: k != "" && OnlyEntry(keys, k, i) ==> !ListsEntry(f, keys[i].members, filter)
  {
    if !keys[i].Obj? { return None; }
    var entry := keys[i].members;
    var k := Field(entry, "kid");
    if k.None? || !k.value.Str? || k.value.s == "" { return None; }
    var name := k.value.s;
    CountOne(keys, name);
    if name !in counts || counts[name] != 1 { return None; }
    if !IsEd25519(entry) { return None; }
    if KeyBytes(f, entry).None? { return None; }
    if filter.asOf.Some? {
      var after := ReadTime(f, Field(entry, "validafter"));
      if after.None? { return None; }
      var until := ReadTime(f, Field(entry, "validuntil"));
      if until.None? { return None; }
      if after.value.Some? && filter.asOf.value < after.value.value { return None; }
      if until.value.Some? && filter.asOf.value >= until.value.value { return None; }
    }
    if filter.purpose.Some? && Field(entry, "purpose") != Some(Str(filter.purpose.value)) { return None; }
    return Some(name);
  }

  /** The first pass: how often each non-empty kid occurs. */
  method CountKids(keys: seq<Json>) returns (counts: map<string, nat>)
    ensures forall k :: (if k in counts then counts[k] else 0) == if k == "" then 0 else Count(keys, k)
  {
    counts := map[];
    for i := 0 to |keys|
      invariant forall k :: (if k in counts then counts[k] else 0) == if k == "" then 0 else Count(keys[..i], k)
    {
      forall k ensures Count(keys[..i + 1], k) == Count(keys[..i], k) + if HasKid(keys[i], k) then 1 else 0 {
        CountNext(keys, i, k);
      }
      if keys[i].Obj? {
        var k := Field(keys[i].members, "kid");
        if k.Some? && k.value.Str? && k.value.s != "" {
          counts := counts[k.value.s := (if k.value.s in counts then counts[k.value.s] else 0) + 1];
        }
      }
    }
    assert keys[..|keys|] == keys;
  }

  lemma {:induction false} NextListed(f: Formats, keys: seq<Json>, filter: Filter, i: nat)
    requires i < |keys|
    ensures forall kid :: ListedBefore(f, keys, kid, filter, i + 1) <==>
              ListedBefore(f, keys, kid, filter, i)
              || (kid != "" && OnlyEntry(keys, kid, i) && ListsEntry(f, keys[i].members, filter))
    ensures forall kid :: OnlyEntry(keys, kid, i) ==> !ListedBefore(f, keys, kid, filter, i)
  {
    forall kid ensures OnlyEntry(keys, kid, i) ==> !ListedBefore(f, keys, kid, filter, i) {
      forall k | OnlyEntry(keys, kid, i) && OnlyEntry(keys, kid, k) ensures k == i {}
    }
  }

  /* ---------- what resolves, field by field ---------- */

  /** The member is absent, or it is null, or it is a time that parses. */
  predicate TimeReads(f: Formats, v: Option<Json>) {
    v.None? || v.value.Null? || (v.value.Str? && f.parseTime(v.value.s).Some?)
  }

  /** The time of a member that is one. */
  function TimeOf(f: Formats, v: Option<Json>): Option<Instant> {
    if v.Some? && v.value.Str? then f.parseTime(v.value.s) else None
  }

  /** At the instant, the bounds that are given hold: the first included, the last not. */
  predicate Within(after: Option<Instant>, t: Instant, until: Option<Instant>) {
    (after == None || after.value <= t) && (until == None || t < until.value)
  }

  /** An entry resolves exactly when it is an Ed25519 key of 64 hexadecimal digits that
      decode to 32 bytes, its times read, and the instant and the purpose asked for, if any,
      are within them and its own; the answer is then made of these fields. */
  lemma {:induction false} EntryResolvesOnFields(f: Formats, entry: seq<Member>, kid: string, filter: Filter)
    ensures var hex, r := Field(entry, "key_hex"), ResolveEntry(f, entry, kid, filter);
            var after, until := Field(entry, "validafter"), Field(entry, "validuntil");
            && (r.Some? <==>
                  && Field(entry, "alg") == Some(Str("Ed25519"))
                  && hex.Some? && hex.value.Str? && |hex.value.s| == 64
                  && f.fromHex(hex.value.s).Some? && |f.fromHex(hex.value.s).value| == 32
                  && TimeReads(f, after) && TimeReads(f, until)
                  && (filter.asOf.Some? ==> Within(TimeOf(f, after), filter.asOf.value, TimeOf(f, until)))
                  && (filter.purpose.Some? ==> Field(entry, "purpose") == Some(Str(filter.purpose.value))))
            && (r.Some? ==>
                  && r.value.kid == kid && Some(r.value.publicKey) == f.fromHex(hex.value.s)
                  && r.value.validAfter == TimeOf(f, after) && r.value.validUntil == TimeOf(f, until)
                  && (filter.purpose.Some? ==> r.value.purpose == filter.purpose))
  {
  }

  /** The instants at which an entry with no other obstacle resolves are those from its first
      bound up to, but not including, its last. */
  lemma {:induction false} ResolvesWithinItsWindow(
      f: Formats, entry: seq<Member>, kid: string, filter: Filter, t: Instant)
    requires ResolveEntry(f, entry, kid, filter.(asOf := None)).Some?
    ensures ResolveEntry(f, entry, kid, filter.(asOf := Some(t))).Some? <==>
              Within(TimeOf(f, Field(entry, "validafter")), t, TimeOf(f, Field(entry, "validuntil")))
  {
    EntryResolvesOnFields(f, entry, kid, filter.(asOf := None));
    EntryResolvesOnFields(f, entry, kid, filter.(asOf := Some(t)));
  }

  /* ---------- the listing against the resolver ---------- */

  /** The windows of the kid's entry parse. */
  ghost predicate WindowsParse(f: Formats, keys: seq<Json>, kid: string) {
    exists i :: OnlyEntry(keys, kid, i) && WindowOf(f, keys[i].members).Some?
  }

  /** A kid resolves exactly when it is listed, no entry of the document is malformed, and
      its own windows parse. */
  lemma {:induction false} ResolvesIffListed(f: Formats, doc: Json, kid: string, filter: Filter, kids: seq<string>)
    requires IsListing(f, doc, filter, kids)
    ensures Resolves(f, doc, kid, filter) <==>
              kid in kids && AllMappings(KeysOf(doc).value)
              && (filter.asOf.Some? || WindowsParse(f, KeysOf(doc).value, kid))
  {
    var keys := KeysOf(doc).value;
    if Resolves(f, doc, kid, filter) {
      var key :| ResolvesTo(f, doc, kid, filter, key);
      var i :| OnlyEntry(keys, kid, i) && ResolveEntry(f, keys[i].members, kid, filter) == Some(key);
    }
    if kid in kids && AllMappings(keys) && (filter.asOf.Some? || WindowsParse(f, keys, kid)) {
      var i :| OnlyEntry(keys, kid, i) && ListsEntry(f, keys[i].members, filter);
      assert ResolvesTo(f, doc, kid, filter, ResolveEntry(f, keys[i].members, kid, filter).value);
    }
  }

  /** The kid of an entry, if it has one that is not empty. */
  function KidOf(entry: Json): string {
    if !entry.Obj? then ""
    else match Field(entry.members, "kid")
      case Some(Str(kid)) => kid
      case _ => ""
  }

  /** The entry passes the filters: it alone has its kid, and the listing keeps it. */
  predicate Passes(f: Formats, keys: seq<Json>, filter: Filter, i: int) {
    && 0 <= i < |keys| && KidOf(keys[i]) != "" && OnlyEntry(keys, KidOf(keys[i]), i)
    && ListsEntry(f, keys[i].members, filter)
  }

  predicate WindowParses(f: Formats, entry: Json) { entry.Obj? && WindowOf(f, entry.members).Some? }

  lemma {:induction false} ListedKidHasEntry(f: Formats, doc: Json, filter: Filter, kids: seq<string>, kid: string)
      returns (i: int)
    requires IsListing(f, doc, filter, kids) && kid in kids
    ensures Passes(f, KeysOf(doc).value, filter, i) && KidOf(KeysOf(doc).value[i]) == kid
  {
    assert Lists(f, KeysOf(doc).value, kid, filter);
    i :| OnlyEntry(KeysOf(doc).value, kid, i) && ListsEntry(f, KeysOf(doc).value[i].members, filter);
  }

  /** The listing is the set of kids that resolve exactly when no entry passes the filters,
      or all entries are mappings and the windows of the passing entries parse. */
  lemma {:induction false} ListingAgreesIff(f: Formats, doc: Json, filter: Filter, kids: seq<string>)
    requires IsListing(f, doc, filter, kids)
    ensures var keys := KeysOf(doc).value;
            (forall kid :: kid in kids <==> Resolves(f, doc, kid, filter)) <==>
              || (forall i :: !Passes(f, keys, filter, i))
              || (AllMappings(keys) && forall i :: Passes(f, keys, filter, i) ==> WindowParses(f, keys[i]))
  {
    var keys := KeysOf(doc).value;
    forall kid ensures Resolves(f, doc, kid, filter) <==>
              kid in kids && AllMappings(keys) && (filter.asOf.Some? || WindowsParse(f, keys, kid))
    {
      ResolvesIffListed(f, doc, kid, filter, kids);
    }
    forall kid | kid in kids
      ensures exists i :: Passes(f, keys, filter, i) && KidOf(keys[i]) == kid
    {
      var i := ListedKidHasEntry(f, doc, filter, kids, kid);
    }
    forall i | Passes(f, keys, filter, i)
      ensures KidOf(keys[i]) in kids && (WindowsParse(f, keys, KidOf(keys[i])) <==> WindowParses(f, keys[i]))
    {
    }
  }

  function MalformedEntry(hex: string): seq<Member> {
    [Keyed("kid", Str("k")), Keyed("alg", Str("Ed25519")), Keyed("key_hex", Str(hex)), Keyed("validuntil", Str("soon"))]
  }

  lemma {:induction false} MalformedEntryFields(hex: string)
    ensures var entry := MalformedEntry(hex);
            && Field(entry, "kid") == Some(Str("k")) && Field(entry, "alg") == Some(Str("Ed25519"))
            && Field(entry, "key_hex") == Some(Str(hex)) && Field(entry, "validuntil") == Some(Str("soon"))
            && Field(entry, "validafter") == None
  {
    var e := MalformedEntry(hex);
    assert e[1..] == [e[1], e[2], e[3]] && e[1..][1..] == [e[2], e[3]];
    assert e[1..][1..][1..] == [e[3]] && e[1..][1..][1..][1..] == [];
  }

  /** Without a time, a kid with a malformed window is listed and does not resolve. */
  lemma {:induction false} MalformedWindowIsListed(f: Formats, hex: string)
    requires |hex| == KEY_HEX_LEN && f.fromHex(hex).Some? && |f.fromHex(hex).value| == KEY_LEN
    requires f.parseTime("soon").None?
    ensures var keys := [Obj(MalformedEntry(hex))];
            var doc := Obj([Keyed("public_keys", Arr(keys))]);
            && KeysOf(doc) == Some(keys)
            && Lists(f, keys, "k", Filter(None, None))
            && !Resolves(f, doc, "k", Filter(None, None))
  {
    MalformedEntryFields(hex);
    assert OnlyEntry([Obj(MalformedEntry(hex))], "k", 0);
  }
}
