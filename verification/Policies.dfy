/** Capability policies, the records the policy bucket stores, and their keys. */
module Policies {
  import opened Common

  /** Wall-clock instants, as integers; equal instants are equal whatever their zone. */
  type Instant = int

  datatype Policy = Policy(
    registeredBy: string,
    allowedKids: seq<string>,
    allowedTriples: seq<(string, string)>,
    notBefore: Option<Instant>,
    notAfter: Option<Instant>,
    disabled: bool,
    note: Option<string>,
    revokedAt: Option<Instant>,
    revocationReason: Option<string>)

  /** What the constructor of a policy enforces. */
  predicate ValidPolicy(p: Policy) {
    && p.registeredBy != ""
    && p.allowedKids != [] && (forall k | k in p.allowedKids :: k != "")
    && p.allowedTriples != [] && (forall t | t in p.allowedTriples :: t.0 != "" && t.1 != "")
    && (p.notBefore.Some? && p.notAfter.Some? ==> p.notBefore.value < p.notAfter.value)
    && (p.revocationReason.Some? ==> p.revokedAt.Some?)
  }

  /** The witness of an operator's deliberate unrevoke. */
  datatype Marker = Marker(
    unrevokeReason: Option<string>,
    previousRevokedAt: Instant,
    previousRevocationReason: Option<string>)

  datatype Record = Record(
    policy: Policy,
    policyId: string,
    registeredAt: Instant,
    registeredByPublisher: string,
    marker: Option<Marker>)

  /** What the constructor of a record enforces. */
  predicate ValidRecord(r: Record) {
    && ValidPolicy(r.policy)
    && r.policyId != "" && Matches(r.policyId, false)
    && r.registeredByPublisher != ""
    && (r.marker.Some? ==> r.policy.revokedAt.None?)
  }

  /* ---------- keys ---------- */

  const KEY_PREFIX := "capability-policies/"

  predicate IsAlnum(c: char) { 'A' <= c <= 'Z' || 'a' <= c <= 'z' || '0' <= c <= '9' }

  predicate IsIdChar(c: char, colon: bool) {
    IsAlnum(c) || c == '_' || c == '.' || c == '-' || (colon && c == ':')
  }

  predicate MatchesWhole(s: string, colon: bool) {
    s != "" && IsAlnum(s[0]) && forall i | 0 <= i < |s| :: IsIdChar(s[i], colon)
  }

  /** The permitted-character patterns; "$" also matches before a final newline. */
  predicate Matches(s: string, colon: bool) {
    || MatchesWhole(s, colon)
    || (s != "" && s[|s| - 1] == '\n' && MatchesWhole(s[..|s| - 1], colon))
  }

  /** A final newline is all that the patterns let through beyond the documented characters. */
  lemma {:induction false} NewlineIsMatched(s: string, colon: bool)
    ensures Matches(s, colon) && !MatchesWhole(s, colon) <==>
              s != "" && s[|s| - 1] == '\n' && MatchesWhole(s[..|s| - 1], colon)
    ensures MatchesWhole(s, colon) ==> Matches(s + "\n", colon) && !MatchesWhole(s + "\n", colon)
  {
    assert (s + "\n")[..|s|] == s && (s + "\n")[|s|] == '\n';
  }

  /** key_for_policy_pair; None where it raises ValueError. */
  function KeyForPair(registeredBy: string, policyId: string): Option<string> {
    if registeredBy == "" || '/' in registeredBy || !Matches(registeredBy, true) then None
    else if policyId == "" || '/' in policyId || !Matches(policyId, false) then None
    else Some(KEY_PREFIX + registeredBy + "/" + policyId)
  }

  /** s.split("/") */
  function Split(s: string): (parts: seq<string>)
    ensures |parts| > 0
  {
    if s == "" then [""]
    else
      var rest := Split(s[1..]);
      if s[0] == '/' then [""] + rest else [[s[0]] + rest[0]] + rest[1..]
  }

  /** pair_for_key; None where it raises ValueError. */
  function PairForKey(key: string): Option<(string, string)> {
    if !(KEY_PREFIX <= key) then None
    else
      var parts := Split(key[|KEY_PREFIX|..]);
      if |parts| != 2 || parts[0] == "" || parts[1] == "" then None else Some((parts[0], parts[1]))
  }

  function KeyOf(r: Record): Option<string> { KeyForPair(r.policy.registeredBy, r.policyId) }

  /** The revocation-monotonic test, of the CAS write and of the replicator alike: a live
      revoked record is replaced only by one with the same revocation instant. */
  predicate Refuses(live: Record, incoming: Record) {
    live.policy.revokedAt.Some? && incoming.policy.revokedAt != live.policy.revokedAt
  }

  /* ---------- key lemmas ---------- */

  lemma {:induction false} SplitNoSlash(s: string)
    requires '/' !in s
    ensures Split(s) == [s]
  {
    if s != "" {
      SplitNoSlash(s[1..]);
      assert s == [s[0]] + s[1..];
    }
  }

  lemma {:induction false} SplitAtSlash(a: string, b: string)
    requires '/' !in a
    ensures Split(a + ("/" + b)) == [a] + Split(b)
  {
    var s := a + ("/" + b);
    if a == "" {
      assert s == "/" + b && s[1..] == b;
    } else {
      assert s[1..] == a[1..] + ("/" + b) && s[0] == a[0];
      SplitAtSlash(a[1..], b);
      assert a == [a[0]] + a[1..];
    }
  }

  /** "/".join(parts) */
  function Join(parts: seq<string>): string {
    if parts == [] then "" else if |parts| == 1 then parts[0] else parts[0] + "/" + Join(parts[1..])
  }

  lemma {:induction false} JoinSplit(s: string)
    ensures Join(Split(s)) == s
  {
    if s != "" {
      JoinSplit(s[1..]);
      var rest := Split(s[1..]);
      assert s == [s[0]] + s[1..];
      if s[0] == '/' {
        assert Split(s)[1..] == rest;
      } else {
        assert Split(s)[1..] == rest[1..];
      }
    }
  }

  lemma {:induction false} PartsHaveNoSlash(s: string)
    ensures forall i :: 0 <= i < |Split(s)| ==> '/' !in Split(s)[i]
  {
    if s != "" { PartsHaveNoSlash(s[1..]); }
  }

  /** pair_for_key inverts key_for_policy_pair, so distinct pairs have distinct keys. */
  lemma {:induction false} KeyRoundTrip(registeredBy: string, policyId: string)
    requires KeyForPair(registeredBy, policyId).Some?
    ensures PairForKey(KeyForPair(registeredBy, policyId).value) == Some((registeredBy, policyId))
  {
    var key := KeyForPair(registeredBy, policyId).value;
    assert key[|KEY_PREFIX|..] == registeredBy + ("/" + policyId);
    SplitAtSlash(registeredBy, policyId);
    SplitNoSlash(policyId);
    assert KEY_PREFIX <= key;
  }

  /** In the other direction the key is recovered exactly when its parts pass the patterns. */
  lemma {:induction false} PairRoundTrip(key: string)
    requires PairForKey(key).Some?
    ensures var (registeredBy, policyId) := PairForKey(key).value;
            KeyForPair(registeredBy, policyId)
            == if Matches(registeredBy, true) && Matches(policyId, false) then Some(key) else None
  {
    var rest := key[|KEY_PREFIX|..];
    var parts := Split(rest);
    JoinSplit(rest);
    PartsHaveNoSlash(rest);
    assert '/' !in parts[0] && '/' !in parts[1];
    assert rest == parts[0] + "/" + parts[1];
    assert key == KEY_PREFIX + rest == KEY_PREFIX + parts[0] + "/" + parts[1];
  }

  lemma {:induction false} KeysIdentifyPairs(r: Record, s: Record)
    requires KeyOf(r).Some? && KeyOf(r) == KeyOf(s)
    ensures r.policy.registeredBy == s.policy.registeredBy && r.policyId == s.policyId
  {
    KeyRoundTrip(r.policy.registeredBy, r.policyId);
    KeyRoundTrip(s.policy.registeredBy, s.policyId);
  }
}
