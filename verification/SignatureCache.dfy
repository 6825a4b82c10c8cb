/** The bounded, time-limited cache in front of the signature verifier: its exact
    agreement with the verifier, and its bookkeeping. */
module SignatureCache {
  import opened Common
  import opened Encodings
  import opened KeyedSort
  import opened Orders
  import opened Json
  import opened SignatureKeys

  /** The cryptography, left abstract. */
  datatype Crypto = Crypto(
    sha256: Bytes -> Bytes,
    fromHex: string -> Option<Bytes>,
    verifies: (Bytes, Bytes, Bytes) -> bool)

  predicate Ascii(s: string) { forall i | 0 <= i < |s| :: s[i] as int < 0x80 }

  /** Only ASCII texts without NUL are hexadecimal. */
  ghost predicate PlainHex(crypto: Crypto) { forall s :: crypto.fromHex(s).Some? ==> Ascii(s) && NulFree(s) }

  /** A call: the document, the fields of the signature block, and the raw public key. */
  datatype Call = Call(
    doc: seq<Member>,
    alg: Option<string>,
    kid: Option<string>,
    signature: Option<string>,
    pubKey: Bytes)

  datatype Outcome = Verdict(valid: bool) | ValueError | KeyError

  /* ---------- the verifier ---------- */

  function WithoutSignature(doc: seq<Member>): seq<Member> {
    if doc == [] then []
    else (if doc[0].key == "document_signature" then [] else [doc[0]]) + WithoutSignature(doc[1..])
  }

  /** SHA-256 of the canonical body. */
  function Payload(crypto: Crypto, doc: seq<Member>): Bytes {
    crypto.sha256(Canonicalize(Obj(WithoutSignature(doc))))
  }

  /** verify_aip_signature; it does not look at the kid. */
  function Fresh(crypto: Crypto, c: Call): Outcome {
    if c.alg.None? || c.signature.None? then ValueError
    else if c.alg.value != "Ed25519" || |c.pubKey| != 32 then ValueError
    else match crypto.fromHex(c.signature.value)
      case None => ValueError
      case Some(signature) =>
        if |signature| != 64 then ValueError
        else Verdict(crypto.verifies(c.pubKey, signature, Payload(crypto, c.doc)))
  }

  /* ---------- the key ---------- */

  function KeyText(crypto: Crypto, c: Call): string
    requires c.alg.Some? && c.kid.Some? && c.signature.Some?
  {
    Joined(HexText(Payload(crypto, c.doc)), c.alg.value, c.kid.value, c.signature.value, HexText(c.pubKey))
  }

  function CacheKey(crypto: Crypto, c: Call): Result<string, Outcome> {
    if c.alg.None? || c.kid.None? || c.signature.None? then Err(KeyError)
    else if !Ascii(c.signature.value) then Err(ValueError)
    else Ok(HexText(crypto.sha256(EncodeUtf8(KeyText(crypto, c)))))
  }

  /* ---------- the cache as a value ---------- */

  datatype Entry = Entry(outcome: bool, insertedAt: real)

  /** The counters and, for the accounting, how many entries clear() has dropped. */
  datatype Stats = Stats(hits: nat, misses: nat, evictions: nat, expired: nat, cleared: nat)

  datatype Cache = Cache(entries: map<string, Entry>, order: seq<string>, stats: Stats)

  datatype Limits = Limits(maxEntries: nat, ttl: real)

  const EMPTY := Cache(map[], [], Stats(0, 0, 0, 0, 0))

  function Remove(s: Cache, key: string): Cache {
    s.(entries := s.entries - {key}, order := Without(s.order, key))
  }

  /** A removal on account of age. */
  function Expire(s: Cache, key: string): Cache {
    Remove(s, key).(stats := s.stats.(expired := s.stats.expired + 1))
  }

  /** Drops the head of the order when the cache is full. */
  function MakeRoom(limits: Limits, s: Cache): Cache {
    if |s.entries| < limits.maxEntries || s.order == [] then s
    else Cache(s.entries - {s.order[0]}, s.order[1..], s.stats.(evictions := s.stats.evictions + 1))
  }

  function Store(limits: Limits, s: Cache, key: string, entry: Entry): Cache {
    var roomy := MakeRoom(limits, s);
    roomy.(entries := roomy.entries[key := entry], order := roomy.order + [key])
  }

  /** A miss: the verifier decides, and its verdict is stored. */
  function Miss(crypto: Crypto, limits: Limits, s: Cache, c: Call, key: string, now: real): (Cache, Outcome) {
    match Fresh(crypto, c)
    case Verdict(valid) =>
      (Store(limits, s.(stats := s.stats.(misses := s.stats.misses + 1)), key, Entry(valid, now)), Verdict(valid))
    case error => (s, error)
  }

  function Hit(s: Cache, key: string): (Cache, Outcome)
    requires key in s.entries
  {
    (s.(stats := s.stats.(hits := s.stats.hits + 1)), Verdict(s.entries[key].outcome))
  }

  function Verify(crypto: Crypto, limits: Limits, s: Cache, c: Call, now: real): (Cache, Outcome) {
    match CacheKey(crypto, c)
    case Err(error) => (s, error)
    case Ok(key) =>
      if key !in s.entries then Miss(crypto, limits, s, c, key, now)
      else if now - s.entries[key].insertedAt < limits.ttl then Hit(s, key)
      else Miss(crypto, limits, Expire(s, key), c, key, now)
  }

  function Clear(s: Cache): Cache {
    Cache(map[], [], s.stats.(cleared := s.stats.cleared + |s.entries|))
  }

  predicate Stale(limits: Limits, s: Cache, now: real, key: string) {
    key in s.entries && s.entries[key].insertedAt <= now - limits.ttl
  }

  /** The stale keys, in order. */
  function StaleKeys(limits: Limits, s: Cache, now: real, order: seq<string>): seq<string> {
    if order == [] then []
    else (if Stale(limits, s, now, order[0]) then [order[0]] else []) + StaleKeys(limits, s, now, order[1..])
  }

  lemma {:induction false} StaleKeysFrom(limits: Limits, s: Cache, now: real, done: seq<string>, i: nat)
    requires i < |s.order|
    ensures done + StaleKeys(limits, s, now, s.order[i..])
         == (if Stale(limits, s, now, s.order[i]) then done + [s.order[i]] else done)
            + StaleKeys(limits, s, now, s.order[i + 1..])
  {
    assert s.order[i..][1..] == s.order[i + 1..];
  }

  function ExpireAll(s: Cache, keys: seq<string>): Cache
    decreases |keys|
  {
    if keys == [] then s else ExpireAll(Expire(s, keys[0]), keys[1..])
  }

  function EvictExpired(limits: Limits, s: Cache, now: real): Cache {
    ExpireAll(s, StaleKeys(limits, s, now, s.order))
  }

  /* ---------- the class ---------- */

  class AipSignatureVerificationCache {
    const crypto: Crypto
    const limits: Limits
    var entries: map<string, Entry>
    var order: seq<string>
    var hits: nat
    var misses: nat
    var evictions: nat
    var expired: nat
    ghost var cleared: nat

    ghost function State(): Cache
      reads this
    {
      Cache(entries, order, Stats(hits, misses, evictions, expired, cleared))
    }

    /** What the source keeps without stating it. */
    ghost predicate Valid()
      reads this
    {
      0 < limits.maxEntries && Kept(limits, State())
    }

    /** The source raises ValueError outside these bounds. */
    constructor (crypto: Crypto, maxEntries: nat, ttl: real)
      requires maxEntries > 0 && ttl > 0.0
      ensures this.crypto == crypto && limits == Limits(maxEntries, ttl)
      ensures Valid() && State() == EMPTY
    {
      this.crypto, limits := crypto, Limits(maxEntries, ttl);
      entries, order := map[], [];
      hits, misses, evictions, expired, cleared := 0, 0, 0, 0, 0;
    }

    method VerifySignature(c: Call, now: real) returns (outcome: Outcome)
      requires Valid()
      modifies this
      ensures Valid() && (State(), outcome) == Verify(crypto, limits, old(State()), c, now)
    {
      ghost var start := State();
      VerifyKeeps(crypto, limits, start, c, now);
      FullIsNotEmpty(limits, start);
      var k := CacheKey(crypto, c);
      if k.Err? { return k.error; }
      var key := k.value;
      if key in entries {
        var entry := entries[key];
        if now - entry.insertedAt < limits.ttl {
          hits := hits + 1;
          assert (State(), Verdict(entry.outcome)) == Hit(start, key);
          return Verdict(entry.outcome);
        }
        DropExpired(key);
        ExpireKeeps(limits, start, key);
        FullIsNotEmpty(limits, Expire(start, key));
      }
      outcome := VerifyAfresh(c, key, now);
    }

    /** The miss path: call the verifier, then memoise. */
    method VerifyAfresh(c: Call, key: string, now: real) returns (outcome: Outcome)
      requires order != [] || |entries| < limits.maxEntries
      modifies this
      ensures (State(), outcome) == Miss(crypto, limits, old(State()), c, key, now)
    {
      outcome := Fresh(crypto, c);
      if outcome.Verdict? {
        misses := misses + 1;
        ghost var counted := State();
        InsertEntry(key, Entry(outcome.valid, now));
        assert State() == Store(limits, counted, key, Entry(outcome.valid, now));
      }
    }

    method DropExpired(key: string)
      modifies this`entries, this`order, this`expired
      ensures State() == Expire(old(State()), key)
    {
      RemoveKey(key);
      expired := expired + 1;
    }

    method ClearAll()
      requires Valid()
      modifies this
      ensures Valid() && State() == Clear(old(State()))
    {
      ListingSize(State());
      cleared := cleared + |entries|;
      entries := map[];
      order := [];
    }

    method EvictAllExpired(now: real) returns (count: nat)
      requires Valid()
      modifies this
      ensures Valid() && State() == EvictExpired(limits, old(State()), now)
      ensures count == expired - old(expired)
    {
      var toRemove := StaleOnes(now);
      ghost var start := State();
      EvictExpiredKeeps(limits, start, now);
      for i := 0 to |toRemove|
        invariant ExpireAll(State(), toRemove[i..]) == ExpireAll(start, toRemove)
        invariant expired == start.stats.expired + i
      {
        assert toRemove[i..][1..] == toRemove[i + 1..];
        DropExpired(toRemove[i]);
      }
      return |toRemove|;
    }

    method StaleOnes(now: real) returns (toRemove: seq<string>)
      requires Valid()
      ensures toRemove == StaleKeys(limits, State(), now, order)
    {
      toRemove := [];
      for i := 0 to |order|
        invariant toRemove + StaleKeys(limits, State(), now, order[i..]) == StaleKeys(limits, State(), now, order)
      {
        StaleKeysFrom(limits, State(), now, toRemove, i);
        if entries[order[i]].insertedAt <= now - limits.ttl { toRemove := toRemove + [order[i]]; }
      }
    }

    method InsertEntry(key: string, entry: Entry)
      requires order != [] || |entries| < limits.maxEntries
      modifies this`entries, this`order, this`evictions
      ensures State() == Store(limits, old(State()), key, entry)
    {
      if |entries| >= limits.maxEntries {
        var oldest := order[0];
        order := order[1..];
        entries := entries - {oldest};
        evictions := evictions + 1;
      }
      entries := entries[key := entry];
      order := order + [key];
    }

    method RemoveKey(key: string)
      modifies this`entries, this`order
      ensures State() == Remove(old(State()), key)
    {
      entries := entries - {key};
      order := Without(order, key);
    }
  }

  /* ---------- bookkeeping ---------- */

  /** The order is a duplicate-free listing of the entries. */
  ghost predicate Listing(s: Cache) {
    && Distinct(s.order)
    && forall key :: key in s.order <==> key in s.entries
  }

  /** The listing is within the bound, and every miss is accounted for: it is still stored,
      or was evicted, expired or cleared. */
  ghost predicate Kept(limits: Limits, s: Cache) {
    && Listing(s)
    && |s.order| <= limits.maxEntries
    && s.stats.misses == |s.order| + s.stats.evictions + s.stats.expired + s.stats.cleared
  }

  lemma {:induction false} OrderSize(order: seq<string>)
    requires Distinct(order)
    ensures |set key | key in order| == |order|
  {
    if order != [] {
      var rest := order[1..];
      assert forall i :: 0 <= i < |rest| ==> rest[i] == order[i + 1];
      OrderSize(rest);
      HeadAndRest(order);
    }
  }

  lemma {:induction false} HeadAndRest(order: seq<string>)
    requires order != [] && order[0] !in order[1..]
    ensures |set key | key in order| == 1 + |set key | key in order[1..]|
  {
    var all, rest := set key | key in order, set key | key in order[1..];
    assert order == [order[0]] + order[1..];
    assert all == {order[0]} + rest;
  }

  lemma {:induction false} ListingSize(s: Cache)
    requires Listing(s)
    ensures |s.entries| == |s.order|
  {
    OrderSize(s.order);
    assert s.entries.Keys == set key | key in s.order;
  }

  /** A cache that is full has an oldest entry. */
  lemma {:induction false} FullIsNotEmpty(limits: Limits, s: Cache)
    requires Kept(limits, s) && 0 < limits.maxEntries
    ensures s.order != [] || |s.entries| < limits.maxEntries
  {
    ListingSize(s);
  }

  lemma {:induction false} ExpireKeeps(limits: Limits, s: Cache, key: string)
    requires Kept(limits, s) && key in s.entries
    ensures Kept(limits, Expire(s, key))
  {
    WithoutListing(s.order, key);
  }

  lemma {:induction false} MakeRoomKeeps(limits: Limits, s: Cache)
    requires Kept(limits, s) && 0 < limits.maxEntries
    ensures Kept(limits, MakeRoom(limits, s)) && |MakeRoom(limits, s).order| < limits.maxEntries
  {
    ListingSize(s);
    if |s.entries| >= limits.maxEntries {
      assert Without(s.order, s.order[0]) == s.order[1..];
      WithoutListing(s.order, s.order[0]);
    }
  }

  lemma {:induction false} StoreKeeps(limits: Limits, s: Cache, key: string, entry: Entry)
    requires Kept(limits, s) && 0 < limits.maxEntries && key !in s.entries
    ensures Kept(limits, Store(limits, s.(stats := s.stats.(misses := s.stats.misses + 1)), key, entry))
  {
    MakeRoomKeeps(limits, s);
  }

  lemma {:induction false} MissKeeps(crypto: Crypto, limits: Limits, s: Cache, c: Call, key: string, now: real)
    requires Kept(limits, s) && 0 < limits.maxEntries && key !in s.entries
    ensures Kept(limits, Miss(crypto, limits, s, c, key, now).0)
  {
    if Fresh(crypto, c).Verdict? { StoreKeeps(limits, s, key, Entry(Fresh(crypto, c).valid, now)); }
  }

  lemma {:induction false} VerifyKeeps(crypto: Crypto, limits: Limits, s: Cache, c: Call, now: real)
    requires Kept(limits, s) && 0 < limits.maxEntries
    ensures Kept(limits, Verify(crypto, limits, s, c, now).0)
  {
    if CacheKey(crypto, c).Ok? {
      var key := CacheKey(crypto, c).value;
      if key !in s.entries {
        MissKeeps(crypto, limits, s, c, key, now);
      } else {
        ExpireKeeps(limits, s, key);
        MissKeeps(crypto, limits, Expire(s, key), c, key, now);
      }
    }
  }

  lemma {:induction false} StaleKeysOf(limits: Limits, s: Cache, now: real, order: seq<string>)
    requires Distinct(order)
    ensures var stale := StaleKeys(limits, s, now, order);
            && Distinct(stale)
            && forall key :: key in stale <==> key in order && Stale(limits, s, now, key)
  {
    if order != [] {
      assert order == [order[0]] + order[1..];
      assert forall i :: 0 <= i < |order[1..]| ==> order[1..][i] == order[i + 1];
      assert order[0] !in order[1..];
      StaleKeysOf(limits, s, now, order[1..]);
    }
  }

  lemma {:induction false} ExpireAllKeeps(limits: Limits, s: Cache, keys: seq<string>)
    requires Kept(limits, s) && Distinct(keys) && forall key :: key in keys ==> key in s.entries
    ensures var s' := ExpireAll(s, keys);
            && Kept(limits, s')
            && (forall key :: key in s'.entries <==> key in s.entries && key !in keys)
            && (forall key :: key in s'.entries ==> s'.entries[key] == s.entries[key])
            && s'.stats.expired == s.stats.expired + |keys|
    decreases |keys|
  {
    if keys != [] {
      assert keys == [keys[0]] + keys[1..];
      assert forall i :: 0 <= i < |keys[1..]| ==> keys[1..][i] == keys[i + 1];
      ExpireKeeps(limits, s, keys[0]);
      ExpireAllKeeps(limits, Expire(s, keys[0]), keys[1..]);
    }
  }

  /** The sweep leaves exactly the entries that are still fresh, so a lookup at the same
      instant expires nothing. */
  lemma {:induction false} EvictExpiredKeeps(limits: Limits, s: Cache, now: real)
    requires Kept(limits, s)
    ensures var s' := EvictExpired(limits, s, now);
            && Kept(limits, s')
            && (forall key :: key in s'.entries <==> key in s.entries && now - s.entries[key].insertedAt < limits.ttl)
            && (forall key :: key in s'.entries ==> s'.entries[key] == s.entries[key])
  {
    StaleKeysOf(limits, s, now, s.order);
    ExpireAllKeeps(limits, s, StaleKeys(limits, s, now, s.order));
  }

  /* ---------- runs ---------- */

  datatype Op = DoVerify(call: Call, at: real) | DoClear | DoEvict(at: real)

  function Step(crypto: Crypto, limits: Limits, s: Cache, op: Op): Cache {
    match op
    case DoVerify(c, now) => Verify(crypto, limits, s, c, now).0
    case DoClear => Clear(s)
    case DoEvict(now) => EvictExpired(limits, s, now)
  }

  function Run(crypto: Crypto, limits: Limits, s: Cache, ops: seq<Op>): Cache
    decreases |ops|
  {
    if ops == [] then s else Run(crypto, limits, Step(crypto, limits, s, ops[0]), ops[1..])
  }

  /** Bound, listing and accounting hold after any run. */
  lemma {:induction false} RunKeeps(crypto: Crypto, limits: Limits, s: Cache, ops: seq<Op>)
    requires Kept(limits, s) && 0 < limits.maxEntries
    ensures Kept(limits, Run(crypto, limits, s, ops))
    decreases |ops|
  {
    if ops != [] {
      match ops[0] {
        case DoVerify(c, now) => VerifyKeeps(crypto, limits, s, c, now);
        case DoClear => ListingSize(s);
        case DoEvict(now) => EvictExpiredKeeps(limits, s, now);
      }
      RunKeeps(crypto, limits, Step(crypto, limits, s, ops[0]), ops[1..]);
    }
  }

  /* ---------- agreement with the verifier ---------- */

  /** The entry was made by one of the operations: a call with this key, at the entry's
      time, with the verifier's own verdict. */
  ghost predicate Verified(crypto: Crypto, ops: seq<Op>, key: string, entry: Entry) {
    exists op :: op in ops && op.DoVerify? && op.at == entry.insertedAt
      && CacheKey(crypto, op.call) == Ok(key) && Fresh(crypto, op.call) == Verdict(entry.outcome)
  }

  lemma {:induction false} StoredBy(crypto: Crypto, ops: seq<Op>, key: string, entry: Entry) returns (d: Call)
    requires Verified(crypto, ops, key, entry)
    ensures DoVerify(d, entry.insertedAt) in ops
    ensures CacheKey(crypto, d) == Ok(key) && Fresh(crypto, d) == Verdict(entry.outcome)
  {
    var op :| op in ops && op.DoVerify? && op.at == entry.insertedAt
              && CacheKey(crypto, op.call) == Ok(key) && Fresh(crypto, op.call) == Verdict(entry.outcome);
    d := op.call;
  }

  ghost predicate Sound(crypto: Crypto, ops: seq<Op>, s: Cache) {
    forall key :: key in s.entries ==> Verified(crypto, ops, key, s.entries[key])
  }

  lemma {:induction false} MissKeepsSound(
      crypto: Crypto, limits: Limits, ops: seq<Op>, s: Cache, c: Call, key: string, now: real)
    requires Sound(crypto, ops, s) && CacheKey(crypto, c) == Ok(key) && DoVerify(c, now) in ops
    ensures Sound(crypto, ops, Miss(crypto, limits, s, c, key, now).0)
  {
    if Fresh(crypto, c).Verdict? { assert Verified(crypto, ops, key, Entry(Fresh(crypto, c).valid, now)); }
  }

  lemma {:induction false} ExpireAllKeepsSound(crypto: Crypto, ops: seq<Op>, s: Cache, keys: seq<string>)
    requires Sound(crypto, ops, s)
    ensures Sound(crypto, ops, ExpireAll(s, keys))
    decreases |keys|
  {
    if keys != [] { ExpireAllKeepsSound(crypto, ops, Expire(s, keys[0]), keys[1..]); }
  }

  lemma {:induction false} StepKeepsSound(crypto: Crypto, limits: Limits, ops: seq<Op>, s: Cache, op: Op)
    requires Sound(crypto, ops, s) && op in ops
    ensures Sound(crypto, ops, Step(crypto, limits, s, op))
  {
    match op
    case DoVerify(c, now) =>
      if CacheKey(crypto, c).Ok? {
        var key := CacheKey(crypto, c).value;
        MissKeepsSound(crypto, limits, ops, if key in s.entries then Expire(s, key) else s, c, key, now);
      }
    case DoClear =>
    case DoEvict(now) => ExpireAllKeepsSound(crypto, ops, s, StaleKeys(limits, s, now, s.order));
  }

  lemma {:induction false} RunKeepsSound(crypto: Crypto, limits: Limits, ops: seq<Op>, s: Cache, rest: seq<Op>)
    requires Sound(crypto, ops, s) && forall op :: op in rest ==> op in ops
    ensures Sound(crypto, ops, Run(crypto, limits, s, rest))
    decreases |rest|
  {
    if rest != [] {
      assert rest[0] in rest;
      StepKeepsSound(crypto, limits, ops, s, rest[0]);
      RunKeepsSound(crypto, limits, ops, Step(crypto, limits, s, rest[0]), rest[1..]);
    }
  }

  /** All three fields of the signature block are there. */
  predicate Complete(c: Call) { c.alg.Some? && c.kid.Some? && c.signature.Some? }

  function BlockOf(c: Call): Block
    requires Complete(c)
  {
    Block(c.alg.value, c.kid.value, c.signature.value)
  }

  /** The call with the same key whose alg and signature are NUL-free. */
  function Alias(c: Call): Call
    requires Complete(c)
  {
    var b := Resplit(BlockOf(c));
    c.(alg := Some(b.alg), kid := Some(b.kid), signature := Some(b.signature))
  }

  /** What a caller can check: neither the alg nor the signature holds a NUL. */
  predicate Plain(c: Call)
    requires Complete(c)
  {
    NulFree(c.alg.value) && NulFree(c.signature.value)
  }

  /** The hash collides on the key texts of the two calls. */
  predicate KeysCollide(crypto: Crypto, c: Call, d: Call) {
    && Complete(c) && Complete(d)
    && var m, n := EncodeUtf8(KeyText(crypto, c)), EncodeUtf8(KeyText(crypto, d));
       m != n && crypto.sha256(m) == crypto.sha256(n)
  }

  /** The hash collides on the key text of the call and that of an earlier one. */
  ghost predicate Collides(crypto: Crypto, ops: seq<Op>, c: Call) {
    exists op :: op in ops && op.DoVerify? && KeysCollide(crypto, c, op.call)
  }

  lemma {:induction false} EqualKeys(crypto: Crypto, c: Call, d: Call)
    requires Complete(c) && Complete(d) && !KeysCollide(crypto, c, d)
    requires CacheKey(crypto, c).Ok? && CacheKey(crypto, c) == CacheKey(crypto, d)
    ensures Payload(crypto, c.doc) == Payload(crypto, d.doc) && c.pubKey == d.pubKey
    ensures Resplit(BlockOf(c)) == Resplit(BlockOf(d))
  {
    var s, t := KeyText(crypto, c), KeyText(crypto, d);
    HexInjective(crypto.sha256(EncodeUtf8(s)), crypto.sha256(EncodeUtf8(t)));
    EncodeInjective(Utf8, s, t);
    var p, q := Payload(crypto, c.doc), Payload(crypto, d.doc);
    HexNulFree(p);
    HexNulFree(q);
    HexNulFree(c.pubKey);
    HexNulFree(d.pubKey);
    JoinedEqualIff(HexText(p), BlockOf(c), HexText(c.pubKey), HexText(q), BlockOf(d), HexText(d.pubKey));
    HexInjective(p, q);
    HexInjective(c.pubKey, d.pubKey);
  }

  /** The verifier sees the payload, the key, the alg and the signature. */
  lemma {:induction false} FreshDependsOn(crypto: Crypto, c: Call, d: Call)
    requires Payload(crypto, c.doc) == Payload(crypto, d.doc) && c.pubKey == d.pubKey
    requires c.alg == d.alg && c.signature == d.signature
    ensures Fresh(crypto, c) == Fresh(crypto, d)
  {
  }

  lemma {:induction false} VerifiableIsPlain(crypto: Crypto, d: Call)
    requires PlainHex(crypto) && Complete(d) && Fresh(crypto, d).Verdict?
    ensures Plain(d)
  {
  }

  /** A verified call is plain, so it is what any call with its key resplits to. */
  lemma {:induction false} HitIsAlias(crypto: Crypto, ops: seq<Op>, c: Call, key: string, entry: Entry)
    requires PlainHex(crypto) && CacheKey(crypto, c) == Ok(key) && Verified(crypto, ops, key, entry)
    requires !Collides(crypto, ops, c)
    ensures Complete(c) && Fresh(crypto, Alias(c)) == Verdict(entry.outcome)
  {
    var d := StoredBy(crypto, ops, key, entry);
    assert DoVerify(d, entry.insertedAt) in ops && !KeysCollide(crypto, c, d);
    EqualKeys(crypto, c, d);
    VerifiableIsPlain(crypto, d);
    PlainIsItsAlias(d);
    FreshDependsOn(crypto, Alias(c), d);
  }

  lemma {:induction false} PlainIsItsAlias(c: Call)
    requires Complete(c) && Plain(c)
    ensures Alias(c) == c
  {
    SplitUnique(Resplit(BlockOf(c)), BlockOf(c));
  }

  /** After the run the cache answers as the verifier would, or the hash has collided. */
  ghost predicate FreshAfter(crypto: Crypto, limits: Limits, ops: seq<Op>, c: Call, now: real) {
    || Verify(crypto, limits, Run(crypto, limits, EMPTY, ops), c, now).1 == Fresh(crypto, c)
    || Collides(crypto, ops, c)
  }

  /** So it does after any run and at any time. */
  ghost predicate AlwaysFresh(crypto: Crypto, limits: Limits, c: Call) {
    forall ops: seq<Op>, now: real :: FreshAfter(crypto, limits, ops, c, now)
  }

  lemma {:induction false} StoredOrFresh(crypto: Crypto, limits: Limits, s: Cache, c: Call, now: real)
    requires CacheKey(crypto, c).Ok?
    ensures var key, outcome := CacheKey(crypto, c).value, Verify(crypto, limits, s, c, now).1;
            outcome == Fresh(crypto, c) || (key in s.entries && outcome == Verdict(s.entries[key].outcome))
  {
  }

  lemma {:induction false} NoKeyIsFresh(crypto: Crypto, limits: Limits, s: Cache, c: Call, now: real)
    requires PlainHex(crypto) && Complete(c) && CacheKey(crypto, c).Err?
    ensures Verify(crypto, limits, s, c, now).1 == Fresh(crypto, c) == ValueError
  {
  }

  /** Every answer is the verifier's own, or the hash collided on two of the calls made, or
      else the call is not plain and its alias is verifiable. */
  lemma {:induction false} AnswersAreFresh(crypto: Crypto, limits: Limits, ops: seq<Op>, c: Call, now: real)
    requires PlainHex(crypto) && Complete(c)
    requires Plain(c) || !Fresh(crypto, Alias(c)).Verdict?
    ensures FreshAfter(crypto, limits, ops, c, now)
  {
    var s := Run(crypto, limits, EMPTY, ops);
    RunKeepsSound(crypto, limits, ops, EMPTY, ops);
    if CacheKey(crypto, c).Err? {
      NoKeyIsFresh(crypto, limits, s, c, now);
    } else if !Collides(crypto, ops, c) {
      var key := CacheKey(crypto, c).value;
      StoredOrFresh(crypto, limits, s, c, now);
      if key in s.entries {
        HitIsAlias(crypto, ops, c, key, s.entries[key]);
        if Plain(c) { PlainIsItsAlias(c); }
      }
    }
  }

  lemma {:induction false} RunOne(crypto: Crypto, limits: Limits, op: Op)
    ensures Run(crypto, limits, EMPTY, [op]) == Step(crypto, limits, EMPTY, op)
  {
    assert [op][1..] == [];
  }

  /** A call that is not plain, after its verifiable alias: the verifier would raise, the
      cache answers, and no collision is involved, because the two key texts are the same. */
  lemma {:induction false} AliasAnswers(crypto: Crypto, limits: Limits, c: Call)
    requires PlainHex(crypto) && Complete(c) && !Plain(c) && Fresh(crypto, Alias(c)).Verdict?
    requires limits.maxEntries > 0 && limits.ttl > 0.0 && Ascii(c.signature.value)
    ensures var (s, stored) := Verify(crypto, limits, EMPTY, Alias(c), 0.0);
            Verify(crypto, limits, s, c, 0.0).1 == stored != Fresh(crypto, c) == ValueError
    ensures !Collides(crypto, [DoVerify(Alias(c), 0.0)], c)
  {
    assert KeyText(crypto, Alias(c)) == KeyText(crypto, c);
  }

  /** The cache is indistinguishable from the verifier on a complete call, collisions of the
      hash aside, exactly when the call is plain, its signature has no key text, or its alias
      would be refused. */
  lemma {:induction false} AlwaysFreshIff(crypto: Crypto, limits: Limits, c: Call)
    requires PlainHex(crypto) && limits.maxEntries > 0 && limits.ttl > 0.0 && Complete(c)
    ensures AlwaysFresh(crypto, limits, c) <==>
              Plain(c) || !Ascii(c.signature.value) || !Fresh(crypto, Alias(c)).Verdict?
  {
    if Plain(c) || !Ascii(c.signature.value) || !Fresh(crypto, Alias(c)).Verdict? {
      forall ops: seq<Op>, now: real ensures FreshAfter(crypto, limits, ops, c, now) {
        if !Ascii(c.signature.value) {
          NoKeyIsFresh(crypto, limits, Run(crypto, limits, EMPTY, ops), c, now);
        } else {
          AnswersAreFresh(crypto, limits, ops, c, now);
        }
      }
    } else {
      var ops := [DoVerify(Alias(c), 0.0)];
      AliasAnswers(crypto, limits, c);
      RunOne(crypto, limits, ops[0]);
      assert !FreshAfter(crypto, limits, ops, c, 0.0);
    }
  }

  /** An incomplete block raises KeyError, where the verifier raises ValueError, or, if only
      the kid is missing, answers. */
  lemma {:induction false} IncompleteRaises(crypto: Crypto, limits: Limits, s: Cache, c: Call, now: real)
    requires !Complete(c)
    ensures Verify(crypto, limits, s, c, now) == (s, KeyError)
    ensures c.kid.Some? ==> Fresh(crypto, c) == ValueError
    ensures Fresh(crypto, c) == Fresh(crypto, c.(kid := Some("")))
  {
  }

  /* ---------- the sweep, with a clock that does not go back ---------- */

  /** Insertion times do not decrease along the order, and none is later than now. */
  ghost predicate InOrder(entries: map<string, Entry>, order: seq<string>, now: real) {
    && (forall i :: 0 <= i < |order| ==> order[i] in entries && entries[order[i]].insertedAt <= now)
    && forall i, j :: 0 <= i < j < |order| ==> entries[order[i]].insertedAt <= entries[order[j]].insertedAt
  }

  ghost predicate Timely(s: Cache, now: real) { Listing(s) && InOrder(s.entries, s.order, now) }

  lemma {:induction false} ExpirePrefix(s: Cache, n: nat)
    requires Listing(s) && n <= |s.order|
    ensures ExpireAll(s, s.order[..n]).order == s.order[n..]
    decreases n
  {
    if n > 0 {
      var key, s' := s.order[0], Expire(s, s.order[0]);
      WithoutListing(s.order, key);
      assert s.order[..n][0] == key && s.order[..n][1..] == s'.order[..n - 1];
      ExpirePrefix(s', n - 1);
      assert s'.order[n - 1..] == s.order[n..];
    }
  }

  /** Of a prefix of the order that is stale and a rest that is not, the prefix is listed. */
  lemma {:induction false} StaleKeysPrefix(limits: Limits, s: Cache, now: real, i: nat, n: nat)
    requires i <= n <= |s.order|
    requires forall k :: i <= k < |s.order| ==> (Stale(limits, s, now, s.order[k]) <==> k < n)
    ensures StaleKeys(limits, s, now, s.order[i..]) == s.order[i..n]
    decreases |s.order| - i
  {
    if i < |s.order| {
      assert s.order[i..][0] == s.order[i] && s.order[i..][1..] == s.order[i + 1..];
      if i < n {
        StaleKeysPrefix(limits, s, now, i + 1, n);
        assert s.order[i..n] == [s.order[i]] + s.order[i + 1..n];
      } else {
        NoStaleKeys(limits, s, now, i);
      }
    }
  }

  lemma {:induction false} NoStaleKeys(limits: Limits, s: Cache, now: real, i: nat)
    requires i <= |s.order| && forall k :: i <= k < |s.order| ==> !Stale(limits, s, now, s.order[k])
    ensures StaleKeys(limits, s, now, s.order[i..]) == []
    decreases |s.order| - i
  {
    if i < |s.order| {
      assert s.order[i..][0] == s.order[i] && s.order[i..][1..] == s.order[i + 1..];
      NoStaleKeys(limits, s, now, i + 1);
    }
  }

  /** How many keys at the head of the order are stale; none is after them. */
  lemma {:induction false} StaleBoundary(limits: Limits, s: Cache, now: real) returns (n: nat)
    requires Timely(s, now)
    ensures n <= |s.order|
    ensures forall k :: 0 <= k < |s.order| ==> (Stale(limits, s, now, s.order[k]) <==> k < n)
  {
    n := 0;
    while n < |s.order| && Stale(limits, s, now, s.order[n])
      invariant n <= |s.order|
      invariant forall k :: 0 <= k < n ==> Stale(limits, s, now, s.order[k])
    {
      n := n + 1;
    }
    if n < |s.order| {
      forall k | n <= k < |s.order| ensures !Stale(limits, s, now, s.order[k]) {
        assert s.entries[s.order[n]].insertedAt <= s.entries[s.order[k]].insertedAt;
      }
    }
  }

  /** With a clock that does not go back the sweep removes exactly a prefix of the order. */
  lemma {:induction false} EvictRemovesAPrefix(limits: Limits, s: Cache, now: real) returns (n: nat)
    requires Timely(s, now)
    ensures n <= |s.order| && EvictExpired(limits, s, now).order == s.order[n..]
    ensures forall k :: 0 <= k < |s.order| ==> (Stale(limits, s, now, s.order[k]) <==> k < n)
  {
    n := StaleBoundary(limits, s, now);
    StaleKeysPrefix(limits, s, now, 0, n);
    assert s.order[0..] == s.order && s.order[0..n] == s.order[..n];
    ExpirePrefix(s, n);
  }

  /* ---------- runs with a clock that does not go back stay timely ---------- */

  function TimeOf(op: Op, last: real): real { if op.DoClear? then last else op.at }

  /** Each operation happens no earlier than the one before. */
  ghost predicate Forward(ops: seq<Op>, last: real)
    decreases |ops|
  {
    ops != [] ==> TimeOf(ops[0], last) >= last && Forward(ops[1..], TimeOf(ops[0], last))
  }

  function EndTime(ops: seq<Op>, last: real): real
    decreases |ops|
  {
    if ops == [] then last else EndTime(ops[1..], TimeOf(ops[0], last))
  }

  lemma {:induction false} RemovalStaysInOrder(entries: map<string, Entry>, order: seq<string>, i: nat, now: real)
    requires i < |order| && InOrder(entries, order, now)
    requires forall k :: 0 <= k < |order| && k != i ==> order[k] != order[i]
    ensures InOrder(entries - {order[i]}, order[..i] + order[i + 1..], now)
  {
    var rest := order[..i] + order[i + 1..];
    assert forall k :: 0 <= k < |rest| ==> rest[k] == order[Behind(i, k)] && Behind(i, k) != i;
  }

  /** Where the k-th key was before the i-th was removed. */
  function Behind(i: nat, k: nat): nat { if k < i then k else k + 1 }

  lemma {:induction false} ExpireStaysTimely(s: Cache, key: string, now: real)
    requires Timely(s, now) && key in s.entries
    ensures Timely(Expire(s, key), now)
  {
    var i := WithoutSplits(s.order, key);
    WithoutListing(s.order, key);
    RemovalStaysInOrder(s.entries, s.order, i, now);
  }

  lemma {:induction false} MakeRoomStaysTimely(limits: Limits, s: Cache, now: real)
    requires Timely(s, now)
    ensures Timely(MakeRoom(limits, s), now)
    ensures forall key :: key !in s.entries ==> key !in MakeRoom(limits, s).entries
  {
    if MakeRoom(limits, s) != s {
      assert Without(s.order, s.order[0]) == s.order[1..];
      ExpireStaysTimely(s, s.order[0], now);
    }
  }

  lemma {:induction false} AppendStaysInOrder(
      entries: map<string, Entry>, order: seq<string>, key: string, valid: bool, now: real)
    requires InOrder(entries, order, now) && key !in entries
    ensures InOrder(entries[key := Entry(valid, now)], order + [key], now)
  {
  }

  lemma {:induction false} StoreStaysTimely(limits: Limits, s: Cache, key: string, valid: bool, now: real)
    requires Timely(s, now) && key !in s.entries
    ensures Timely(Store(limits, s, key, Entry(valid, now)), now)
  {
    MakeRoomStaysTimely(limits, s, now);
    var roomy := MakeRoom(limits, s);
    AppendStaysInOrder(roomy.entries, roomy.order, key, valid, now);
  }

  lemma {:induction false} ExpireAllStaysTimely(s: Cache, keys: seq<string>, now: real)
    requires Timely(s, now) && Distinct(keys) && forall key :: key in keys ==> key in s.entries
    ensures Timely(ExpireAll(s, keys), now)
    decreases |keys|
  {
    if keys != [] {
      assert keys == [keys[0]] + keys[1..];
      assert forall i :: 0 <= i < |keys[1..]| ==> keys[1..][i] == keys[i + 1];
      ExpireStaysTimely(s, keys[0], now);
      ExpireAllStaysTimely(Expire(s, keys[0]), keys[1..], now);
    }
  }

  lemma {:induction false} MissStaysTimely(crypto: Crypto, limits: Limits, s: Cache, c: Call, key: string, now: real)
    requires Timely(s, now) && key !in s.entries && 0 < limits.maxEntries
    ensures Timely(Miss(crypto, limits, s, c, key, now).0, now)
  {
    if Fresh(crypto, c).Verdict? {
      StoreStaysTimely(limits, s.(stats := s.stats.(misses := s.stats.misses + 1)), key, Fresh(crypto, c).valid, now);
    }
  }

  lemma {:induction false} StepStaysTimely(crypto: Crypto, limits: Limits, s: Cache, op: Op, last: real)
    requires Timely(s, last) && TimeOf(op, last) >= last && 0 < limits.maxEntries
    ensures Timely(Step(crypto, limits, s, op), TimeOf(op, last))
  {
    var now := TimeOf(op, last);
    assert Timely(s, now);
    match op {
      case DoVerify(c, _) =>
        if CacheKey(crypto, c).Ok? {
          var key := CacheKey(crypto, c).value;
          if key !in s.entries {
            MissStaysTimely(crypto, limits, s, c, key, now);
          } else {
            ExpireStaysTimely(s, key, now);
            MissStaysTimely(crypto, limits, Expire(s, key), c, key, now);
          }
        }
      case DoClear =>
      case DoEvict(_) =>
        StaleKeysOf(limits, s, now, s.order);
        ExpireAllStaysTimely(s, StaleKeys(limits, s, now, s.order), now);
    }
  }

  lemma {:induction false} RunStaysTimely(crypto: Crypto, limits: Limits, s: Cache, ops: seq<Op>, last: real)
    requires Timely(s, last) && Forward(ops, last) && 0 < limits.maxEntries
    ensures Timely(Run(crypto, limits, s, ops), EndTime(ops, last))
    decreases |ops|
  {
    if ops != [] {
      StepStaysTimely(crypto, limits, s, ops[0], last);
      RunStaysTimely(crypto, limits, Step(crypto, limits, s, ops[0]), ops[1..], TimeOf(ops[0], last));
    }
  }

  /** So the sweep after any such run, at any later time, removes a prefix of the order. */
  lemma {:induction false} SweepAfterAnyRun(crypto: Crypto, limits: Limits, ops: seq<Op>, start: real, now: real)
      returns (n: nat)
    requires 0 < limits.maxEntries && Forward(ops, start) && now >= EndTime(ops, start)
    ensures var s := Run(crypto, limits, EMPTY, ops);
            var swept := EvictExpired(limits, s, now);
            && n <= |s.order| && swept.order == s.order[n..]
            && (forall k :: 0 <= k < |s.order| ==> (Stale(limits, s, now, s.order[k]) <==> k < n))
            && (forall key :: key in swept.entries ==> now - swept.entries[key].insertedAt < limits.ttl)
  {
    var s := Run(crypto, limits, EMPTY, ops);
    RunStaysTimely(crypto, limits, EMPTY, ops, start);
    n := EvictRemovesAPrefix(limits, s, now);
    RunKeeps(crypto, limits, EMPTY, ops);
    EvictExpiredKeeps(limits, s, now);
  }
}
