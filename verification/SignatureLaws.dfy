/** The signature cache in terms of documents, times and counters: what two calls must share
    to have one payload, when the verifier gives a verdict, how old an answer can be, and
    what is counted and evicted. */
module SignatureLaws {
  import opened Common
  import opened Encodings
  import opened KeyedSort
  import opened Json
  import opened Dicts
  import opened SignatureCache
  import Jcs

  /* ---------- payloads ---------- */

  /** The dicts hold the same keys with equal values, one key aside. */
  ghost predicate AgreeBut(a: seq<Member>, b: seq<Member>, except: string) {
    forall key :: key != except ==> SameUnder(a, b, key)
  }

  ghost predicate SameUnder(a: seq<Member>, b: seq<Member>, key: string) {
    && (Has(a, key) <==> Has(b, key))
    && (Has(a, key) ==> JsonEq(Value(a, key), Value(b, key)))
  }

  lemma {:induction false} WithoutSignatureLookup(doc: seq<Member>, key: string)
    ensures Has(WithoutSignature(doc), key) <==> key != "document_signature" && Has(doc, key)
    ensures Has(WithoutSignature(doc), key) ==> Value(WithoutSignature(doc), key) == Value(doc, key)
  {
    if doc != [] {
      var rest := WithoutSignature(doc[1..]);
      WithoutSignatureLookup(doc[1..], key);
      LookupCons(doc[0], rest, key);
      LookupCons(doc[0], doc[1..], key);
      assert doc == [doc[0]] + doc[1..] && [] + rest == rest;
    }
  }

  lemma {:induction false} LookupCons(m: Member, rest: seq<Member>, key: string)
    ensures Has([m] + rest, key) <==> m.key == key || Has(rest, key)
    ensures Has([m] + rest, key) ==>
              Value([m] + rest, key) == if m.key == key then m.value else Value(rest, key)
  {
    assert ([m] + rest)[1..] == rest;
  }

  lemma {:induction false} WithoutSignatureIsDict(doc: seq<Member>)
    requires IsDict(Obj(doc))
    ensures IsDict(Obj(WithoutSignature(doc)))
    ensures forall m :: m in WithoutSignature(doc) ==> m in doc
  {
    if doc != [] {
      var rest := WithoutSignature(doc[1..]);
      assert forall i :: 0 <= i < |doc[1..]| ==> doc[1..][i] == doc[i + 1];
      WithoutSignatureIsDict(doc[1..]);
      forall i | 0 <= i < |rest| ensures rest[i].key != doc[0].key {
        assert rest[i] in doc[1..];
        var j :| 0 <= j < |doc[1..]| && doc[1..][j] == rest[i];
      }
    }
  }

  function KeySet(members: seq<Member>): set<string> { set m | m in members :: m.key }

  lemma {:induction false} KeySetSize(members: seq<Member>)
    requires DistinctKeys(members)
    ensures |KeySet(members)| == |members|
    ensures forall key :: key in KeySet(members) <==> Has(members, key)
  {
    if members != [] {
      var rest := members[1..];
      assert forall i :: 0 <= i < |rest| ==> rest[i] == members[i + 1];
      KeySetSize(rest);
      KeySetCons(members);
      assert !Has(rest, members[0].key);
    }
  }

  lemma {:induction false} KeySetCons(members: seq<Member>)
    requires members != []
    ensures KeySet(members) == {members[0].key} + KeySet(members[1..])
  {
    assert members == [members[0]] + members[1..];
  }

  /** Dicts are equal as JSON exactly when they hold the same keys with equal values. */
  lemma {:induction false} DictsEqualIff(a: seq<Member>, b: seq<Member>)
    requires DistinctKeys(a) && DistinctKeys(b)
    ensures JsonEq(Obj(a), Obj(b)) <==> forall key :: SameUnder(a, b, key)
  {
    KeySetSize(a);
    KeySetSize(b);
    if forall key :: SameUnder(a, b, key) {
      assert KeySet(a) == KeySet(b) by {
        forall key ensures key in KeySet(a) <==> key in KeySet(b) { assert SameUnder(a, b, key); }
      }
      forall i | 0 <= i < |a|
        ensures exists j :: 0 <= j < |b| && b[j].key == a[i].key && JsonEq(a[i].value, b[j].value)
      {
        assert SameUnder(a, b, a[i].key) && IndexOf(a, a[i].key) == i;
        assert b[IndexOf(b, a[i].key)].key == a[i].key;
      }
    }
    if JsonEq(Obj(a), Obj(b)) {
      forall key | Has(a, key) ensures Has(b, key) && JsonEq(Value(a, key), Value(b, key)) {
        var i := IndexOf(a, key);
        var j :| 0 <= j < |b| && b[j].key == a[i].key && JsonEq(a[i].value, b[j].value);
        assert IndexOf(b, key) == j;
      }
      assert KeySet(a) <= KeySet(b);
      Jcs.SubsetOfSameSize(KeySet(a), KeySet(b));
      forall key ensures SameUnder(a, b, key) { assert key in KeySet(a) <==> key in KeySet(b); }
    }
  }

  /** The bytes of a signed document without its signature. */
  function SignedBytes(doc: seq<Member>): Bytes { Canonicalize(Obj(WithoutSignature(doc))) }

  lemma {:induction false} SignedBytesEqualIff(a: seq<Member>, b: seq<Member>)
    requires IsDict(Obj(a)) && IsDict(Obj(b))
    ensures SignedBytes(a) == SignedBytes(b) <==> AgreeBut(a, b, "document_signature")
  {
    var p, q := WithoutSignature(a), WithoutSignature(b);
    WithoutSignatureIsDict(a);
    WithoutSignatureIsDict(b);
    Jcs.CanonicalBytesDecideEquality(Utf16, Obj(p), Obj(q));
    DictsEqualIff(p, q);
    forall key ensures SameUnder(p, q, key) <==> key == "document_signature" || SameUnder(a, b, key) {
      WithoutSignatureLookup(a, key);
      WithoutSignatureLookup(b, key);
    }
    if AgreeBut(a, b, "document_signature") {
      forall key ensures SameUnder(p, q, key) { assert key == "document_signature" || SameUnder(a, b, key); }
    }
  }

  /** Two documents have one payload exactly when they agree on everything but the
      signature, or the hash collides on their signed bytes. */
  lemma {:induction false} PayloadsEqualIff(crypto: Crypto, a: seq<Member>, b: seq<Member>)
    requires IsDict(Obj(a)) && IsDict(Obj(b))
    ensures Payload(crypto, a) == Payload(crypto, b) <==>
              || AgreeBut(a, b, "document_signature")
              || (SignedBytes(a) != SignedBytes(b) && crypto.sha256(SignedBytes(a)) == crypto.sha256(SignedBytes(b)))
  {
    SignedBytesEqualIff(a, b);
  }

  /* ---------- the verifier ---------- */

  /** The verifier gives a verdict exactly for an Ed25519 block with a 32-byte key and a
      hexadecimal signature of 64 bytes; it is that of the primitive on the hash of the
      signed bytes.  In every other case it raises ValueError. */
  lemma {:induction false} VerdictIff(crypto: Crypto, c: Call)
    ensures Fresh(crypto, c).Verdict? <==>
              && c.alg == Some("Ed25519") && |c.pubKey| == 32 && c.signature.Some?
              && crypto.fromHex(c.signature.value).Some? && |crypto.fromHex(c.signature.value).value| == 64
    ensures Fresh(crypto, c).Verdict? ==>
              Fresh(crypto, c).valid ==
                crypto.verifies(c.pubKey, crypto.fromHex(c.signature.value).value, crypto.sha256(SignedBytes(c.doc)))
    ensures !Fresh(crypto, c).Verdict? ==> Fresh(crypto, c) == ValueError
  {
  }

  /* ---------- how old an answer can be ---------- */

  lemma {:induction false} HitIsStored(crypto: Crypto, limits: Limits, s: Cache, c: Call, now: real)
    requires Verify(crypto, limits, s, c, now).0.stats.hits > s.stats.hits
    ensures CacheKey(crypto, c).Ok? && CacheKey(crypto, c).value in s.entries
    ensures var entry := s.entries[CacheKey(crypto, c).value];
            now - entry.insertedAt < limits.ttl && Verify(crypto, limits, s, c, now).1 == Verdict(entry.outcome)
  {
  }

  /** An answer that the verifier is not asked for was given, less than the limit before, to
      a call of the run with the same key. */
  lemma {:induction false} HitsAreYoung(crypto: Crypto, limits: Limits, ops: seq<Op>, c: Call, now: real)
    ensures var s := Run(crypto, limits, EMPTY, ops);
            var (s', outcome) := Verify(crypto, limits, s, c, now);
            s'.stats.hits > s.stats.hits ==>
              && outcome.Verdict?
              && exists op :: op in ops && op.DoVerify? && now - op.at < limits.ttl
                   && CacheKey(crypto, op.call) == CacheKey(crypto, c) && Fresh(crypto, op.call) == outcome
  {
    var s := Run(crypto, limits, EMPTY, ops);
    RunKeepsSound(crypto, limits, ops, EMPTY, ops);
    if Verify(crypto, limits, s, c, now).0.stats.hits > s.stats.hits {
      HitIsStored(crypto, limits, s, c, now);
      var key := CacheKey(crypto, c).value;
      var d := StoredBy(crypto, ops, key, s.entries[key]);
      assert DoVerify(d, s.entries[key].insertedAt) in ops;
    }
  }

  /** Each call that gets a verdict is counted once, as a hit or as a miss, and no other is. */
  lemma {:induction false} VerdictsCounted(crypto: Crypto, limits: Limits, s: Cache, c: Call, now: real)
    ensures var (s', outcome) := Verify(crypto, limits, s, c, now);
            s'.stats.hits + s'.stats.misses == s.stats.hits + s.stats.misses + (if outcome.Verdict? then 1 else 0)
  {
  }

  lemma {:induction false} MissIsStored(crypto: Crypto, limits: Limits, s: Cache, c: Call, now: real)
    requires Verify(crypto, limits, s, c, now).0.stats.misses > s.stats.misses
    ensures var (s', outcome) := Verify(crypto, limits, s, c, now);
            && outcome.Verdict? && Fresh(crypto, c) == outcome && CacheKey(crypto, c).Ok?
            && var key := CacheKey(crypto, c).value;
               key in s'.entries && s'.entries[key] == Entry(outcome.valid, now)
  {
  }

  /** A verdict that the verifier has just been asked for is remembered: the same call, at a
      later time, is answered alike, without the verifier exactly within the time to live. */
  lemma {:induction false} MissIsRemembered(
      crypto: Crypto, limits: Limits, s: Cache, c: Call, now: real, later: real)
    requires Verify(crypto, limits, s, c, now).0.stats.misses > s.stats.misses
    ensures var (s', outcome) := Verify(crypto, limits, s, c, now);
            var (s'', again) := Verify(crypto, limits, s', c, later);
            && again == outcome
            && (later - now < limits.ttl ==> s''.stats == s'.stats.(hits := s'.stats.hits + 1))
            && (later - now >= limits.ttl ==>
                  s''.stats.misses == s'.stats.misses + 1 && s''.stats.expired == s'.stats.expired + 1)
  {
    MissIsStored(crypto, limits, s, c, now);
  }

  /** A call counts an expiry exactly when its own entry is there and too old. */
  lemma {:induction false} ExpiryCounted(crypto: Crypto, limits: Limits, s: Cache, c: Call, now: real)
    ensures var s', key := Verify(crypto, limits, s, c, now).0, CacheKey(crypto, c);
            var tooOld := key.Ok? && key.value in s.entries && s.entries[key.value].insertedAt + limits.ttl <= now;
            s'.stats.expired == s.stats.expired + (if tooOld then 1 else 0)
  {
  }

  /** A sweep counts every entry that it removes as expired, and moves no other counter. */
  lemma {:induction false} SweepCounted(limits: Limits, s: Cache, now: real)
    requires Kept(limits, s)
    ensures var s' := EvictExpired(limits, s, now);
            && s'.stats.expired + |s'.entries| == s.stats.expired + |s.entries|
            && s'.stats == s.stats.(expired := s'.stats.expired)
  {
    var stale := StaleKeys(limits, s, now, s.order);
    StaleKeysOf(limits, s, now, s.order);
    ExpireAllKeeps(limits, s, stale);
    OnlyExpiredMoves(s, stale);
    ListingSize(s);
    ListingSize(EvictExpired(limits, s, now));
  }

  lemma {:induction false} OnlyExpiredMoves(s: Cache, keys: seq<string>)
    ensures ExpireAll(s, keys).stats == s.stats.(expired := s.stats.expired + |keys|)
    decreases |keys|
  {
    if keys != [] { OnlyExpiredMoves(Expire(s, keys[0]), keys[1..]); }
  }

  /* ---------- eviction ---------- */

  /** When a full cache takes a new entry, the one dropped is among the oldest, the others
      stay, and nothing else is dropped. */
  lemma {:induction false} OldestEvicted(limits: Limits, s: Cache, key: string, entry: Entry, now: real)
    requires Kept(limits, s) && Timely(s, now) && 0 < limits.maxEntries && key !in s.entries
    ensures var s' := Store(limits, s, key, entry);
            && key in s'.entries && s'.entries[key] == entry
            && (forall k :: k in s.entries && k in s'.entries ==> s'.entries[k] == s.entries[k])
            && (forall k, k' :: k in s.entries && k !in s'.entries && k' in s.entries ==>
                  s.entries[k].insertedAt <= s.entries[k'].insertedAt)
            && (|s.entries| < limits.maxEntries ==> s'.entries.Keys == s.entries.Keys + {key})
            && (|s.entries| == limits.maxEntries ==> |s'.entries| == limits.maxEntries)
  {
    ListingSize(s);
    if |s.entries| >= limits.maxEntries { FullStore(limits, s, key, entry, now); }
  }

  lemma {:induction false} HeadIsOldest(s: Cache, now: real)
    requires Timely(s, now) && s.order != []
    ensures s.order[0] in s.entries
    ensures forall k :: k in s.entries ==> s.entries[s.order[0]].insertedAt <= s.entries[k].insertedAt
  {
    forall k | k in s.entries ensures s.entries[s.order[0]].insertedAt <= s.entries[k].insertedAt {
      var j :| 0 <= j < |s.order| && s.order[j] == k;
    }
  }

  lemma {:induction false} FullStore(limits: Limits, s: Cache, key: string, entry: Entry, now: real)
    requires Timely(s, now) && |s.entries| >= limits.maxEntries && s.order != [] && key !in s.entries
    ensures var s' := Store(limits, s, key, entry);
            && s'.entries == (s.entries - {s.order[0]})[key := entry]
            && |s'.entries| == |s.entries|
            && forall k :: k in s.entries ==> s.entries[s.order[0]].insertedAt <= s.entries[k].insertedAt
  {
    var oldest := s.order[0];
    HeadIsOldest(s, now);
    assert (s.entries - {oldest}).Keys == s.entries.Keys - {oldest};
    assert Store(limits, s, key, entry).entries.Keys == (s.entries.Keys - {oldest}) + {key};
  }
}
