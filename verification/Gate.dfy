/** The capability gate: may the publisher of a schema-registry entry, with the signing
    key it used, register that entry at that time? */
module Gate {
  import opened Common
  import opened Policies

  datatype Source =
    | PolicyMatch
    | PolicyDisabled
    | NoPolicyForIssuer
    | KidNotAllowed
    | TripleNotAllowed
    | OutsideValidityWindow
    | PolicyRevoked

  datatype Decision = Decision(allowed: bool, source: Source, policy: Option<Policy>)

  datatype GateError = MalformedSignatureBlock

  /** What the gate is asked about; glob is the file-name matching of the library. */
  datatype Query = Query(
    registeredBy: string,
    layer: string,
    name: string,
    kid: string,
    asOf: Option<Instant>,
    glob: (string, string) -> bool)

  /* ---------- the checks ---------- */

  predicate IsRevoked(p: Policy, asOf: Option<Instant>) {
    p.revokedAt.Some? && (asOf.Some? ==> asOf.value >= p.revokedAt.value)
  }

  predicate WindowContains(p: Policy, asOf: Option<Instant>) {
    asOf.Some? ==>
      (p.notBefore.Some? ==> asOf.value >= p.notBefore.value) && (p.notAfter.Some? ==> asOf.value < p.notAfter.value)
  }

  predicate CoversTriple(glob: (string, string) -> bool, p: Policy, layer: string, name: string) {
    exists i | 0 <= i < |p.allowedTriples| ::
      (p.allowedTriples[i].0 == "*" || p.allowedTriples[i].0 == layer) && glob(name, p.allowedTriples[i].1)
  }

  /** The loop of the source over the allowed triples. */
  method CoversTripleLoop(glob: (string, string) -> bool, p: Policy, layer: string, name: string) returns (covers: bool)
    ensures covers == CoversTriple(glob, p, layer, name)
  {
    for i := 0 to |p.allowedTriples|
      invariant forall k :: 0 <= k < i ==>
        !((p.allowedTriples[k].0 == "*" || p.allowedTriples[k].0 == layer) && glob(name, p.allowedTriples[k].1))
    {
      var (patLayer, patName) := p.allowedTriples[i];
      if patLayer != "*" && patLayer != layer { continue; }
      if !glob(name, patName) { continue; }
      return true;
    }
    return false;
  }

  /** What one policy says: the first check it fails, or a match. */
  function Verdict(q: Query, p: Policy): Source {
    if IsRevoked(p, q.asOf) then PolicyRevoked
    else if p.disabled then PolicyDisabled
    else if q.kid !in p.allowedKids then KidNotAllowed
    else if !CoversTriple(q.glob, p, q.layer, q.name) then TripleNotAllowed
    else if !WindowContains(p, q.asOf) then OutsideValidityWindow
    else PolicyMatch
  }

  /** Denials by rank: the gate reports the highest. */
  function Rank(source: Source): nat {
    match source
    case PolicyDisabled => 1
    case KidNotAllowed => 2
    case TripleNotAllowed => 3
    case OutsideValidityWindow => 4
    case PolicyRevoked => 5
    case _ => 0
  }

  /* ---------- the specification ---------- */

  predicate FirstMatch(q: Query, cs: seq<Policy>, i: nat)
    requires i < |cs|
  {
    Verdict(q, cs[i]).PolicyMatch? && forall k :: 0 <= k < i ==> !Verdict(q, cs[k]).PolicyMatch?
  }

  /** Policy i has the highest rank, and is the first of that rank. */
  predicate FirstHighest(q: Query, cs: seq<Policy>, i: nat)
    requires i < |cs|
  {
    && (forall k :: 0 <= k < |cs| ==> Rank(Verdict(q, cs[k])) <= Rank(Verdict(q, cs[i])))
    && (forall k :: 0 <= k < i ==> Rank(Verdict(q, cs[k])) < Rank(Verdict(q, cs[i])))
  }

  predicate Matched(q: Query, cs: seq<Policy>) { exists i :: 0 <= i < |cs| && Verdict(q, cs[i]).PolicyMatch? }

  /** What the gate decides on a list of candidate policies. */
  ghost predicate Decides(q: Query, cs: seq<Policy>, d: Decision) {
    if cs == [] then d == Decision(false, NoPolicyForIssuer, None)
    else if Matched(q, cs) then
      exists i :: 0 <= i < |cs| && FirstMatch(q, cs, i) && d == Decision(true, PolicyMatch, Some(cs[i]))
    else
      exists i :: 0 <= i < |cs| && FirstHighest(q, cs, i) && d == Decision(false, Verdict(q, cs[i]), Some(cs[i]))
  }

  /* ---------- the registry and the gate loop ---------- */

  class CapabilityPolicyRegistry {
    var byIssuer: map<string, seq<Policy>>

    constructor ()
      ensures byIssuer == map[]
    {
      byIssuer := map[];
    }

    function PoliciesFor(registeredBy: string): seq<Policy>
      reads this
    {
      if registeredBy in byIssuer then byIssuer[registeredBy] else []
    }

    method AddPolicy(p: Policy)
      modifies this
      ensures PoliciesFor(p.registeredBy) == old(PoliciesFor(p.registeredBy)) + [p]
      ensures forall issuer :: issuer != p.registeredBy ==> PoliciesFor(issuer) == old(PoliciesFor(issuer))
    {
      byIssuer := byIssuer[p.registeredBy := PoliciesFor(p.registeredBy) + [p]];
    }
  }

  method CheckRegisteredByCapability(q: Query, registry: CapabilityPolicyRegistry)
      returns (r: Result<Decision, GateError>)
    ensures q.kid == "" ==> r == Err(MalformedSignatureBlock)
    ensures q.kid != "" ==> r.Ok? && Decides(q, registry.PoliciesFor(q.registeredBy), r.value)
  {
    if q.kid == "" { return Err(MalformedSignatureBlock); }
    var candidates := registry.PoliciesFor(q.registeredBy);
    if candidates == [] { return Ok(Decision(false, NoPolicyForIssuer, None)); }
    var fallback: Option<Decision> := None;
    var allDisabled := true;
    for n := 0 to |candidates|
      invariant forall k :: 0 <= k < n ==> !Verdict(q, candidates[k]).PolicyMatch?
      invariant n == 0 ==> fallback == None
      invariant n > 0 ==> fallback.Some? && DecidesSoFar(q, candidates[..n], fallback.value)
    {
      var p := candidates[n];
      ghost var before := fallback;
      if IsRevoked(p, q.asOf) {
        if fallback.None? || !fallback.value.source.PolicyRevoked? {
          fallback := Some(Decision(false, PolicyRevoked, Some(p)));
        }
        NextCandidate(q, candidates, n, before, fallback);
        continue;
      }
      if p.disabled {
        if fallback.None? { fallback := Some(Decision(false, PolicyDisabled, Some(p))); }
        NextCandidate(q, candidates, n, before, fallback);
        continue;
      }
      allDisabled := false;
      if q.kid !in p.allowedKids {
        if fallback.None? || fallback.value.source.PolicyDisabled? {
          fallback := Some(Decision(false, KidNotAllowed, Some(p)));
        }
        NextCandidate(q, candidates, n, before, fallback);
        continue;
      }
      var covers := CoversTripleLoop(q.glob, p, q.layer, q.name);
      if !covers {
        if fallback.None? || fallback.value.source.PolicyDisabled? || fallback.value.source.KidNotAllowed? {
          fallback := Some(Decision(false, TripleNotAllowed, Some(p)));
        }
        NextCandidate(q, candidates, n, before, fallback);
        continue;
      }
      if !WindowContains(p, q.asOf) {
        if fallback.None? || fallback.value.source.PolicyDisabled? || fallback.value.source.KidNotAllowed?
           || fallback.value.source.TripleNotAllowed? {
          fallback := Some(Decision(false, OutsideValidityWindow, Some(p)));
        }
        NextCandidate(q, candidates, n, before, fallback);
        continue;
      }
      assert FirstMatch(q, candidates, n);
      return Ok(Decision(true, PolicyMatch, Some(p)));
    }
    assert candidates[..|candidates|] == candidates;
    if allDisabled { return Ok(fallback.value); }
    return Ok(fallback.value);
  }

  /** The fallback after some candidates, none of them a match. */
  ghost predicate DecidesSoFar(q: Query, cs: seq<Policy>, d: Decision) {
    exists i :: 0 <= i < |cs| && FirstHighest(q, cs, i) && d == Decision(false, Verdict(q, cs[i]), Some(cs[i]))
  }

  lemma {:induction false} NextCandidate(
      q: Query, cs: seq<Policy>, n: nat, before: Option<Decision>, after: Option<Decision>)
    requires n < |cs| && !Verdict(q, cs[n]).PolicyMatch?
    requires forall k :: 0 <= k < n ==> !Verdict(q, cs[k]).PolicyMatch?
    requires n == 0 ==> before == None
    requires n > 0 ==> before.Some? && DecidesSoFar(q, cs[..n], before.value)
    requires after == if before.None? || Rank(before.value.source) < Rank(Verdict(q, cs[n]))
                      then Some(Decision(false, Verdict(q, cs[n]), Some(cs[n]))) else before
    ensures after.Some? && DecidesSoFar(q, cs[..n + 1], after.value)
  {
    var ds := cs[..n + 1];
    if n == 0 {
      assert FirstHighest(q, ds, 0);
    } else {
      var i :| 0 <= i < n && FirstHighest(q, cs[..n], i)
               && before.value == Decision(false, Verdict(q, cs[i]), Some(cs[i]));
      forall k | 0 <= k < n ensures Rank(Verdict(q, ds[k])) <= Rank(Verdict(q, cs[i])) {
        assert ds[k] == cs[..n][k];
      }
      forall k | 0 <= k < i ensures Rank(Verdict(q, ds[k])) < Rank(Verdict(q, cs[i])) {
        assert ds[k] == cs[..n][k];
      }
      assert FirstHighest(q, ds, if Rank(Verdict(q, cs[i])) < Rank(Verdict(q, cs[n])) then n else i);
    }
  }

  /* ---------- what the decision depends on ---------- */

  /** The specification leaves exactly one decision. */
  lemma {:induction false} DecisionUnique(q: Query, cs: seq<Policy>, d: Decision, d': Decision)
    requires Decides(q, cs, d) && Decides(q, cs, d')
    ensures d == d'
  {
    if cs != [] {
      if Matched(q, cs) {
        var i :| 0 <= i < |cs| && FirstMatch(q, cs, i) && d == Decision(true, PolicyMatch, Some(cs[i]));
        var j :| 0 <= j < |cs| && FirstMatch(q, cs, j) && d' == Decision(true, PolicyMatch, Some(cs[j]));
      } else {
        var i :| 0 <= i < |cs| && FirstHighest(q, cs, i) && d == Decision(false, Verdict(q, cs[i]), Some(cs[i]));
        var j :| 0 <= j < |cs| && FirstHighest(q, cs, j) && d' == Decision(false, Verdict(q, cs[j]), Some(cs[j]));
      }
    }
  }

  /** Verdict and source do not depend on the order or repetition of the policies. */
  lemma {:induction false} OrderNeverMatters(q: Query, cs: seq<Policy>, cs': seq<Policy>, d: Decision, d': Decision)
    requires Decides(q, cs, d) && Decides(q, cs', d')
    requires forall p :: p in cs <==> p in cs'
    ensures d.allowed == d'.allowed && d.source == d'.source
  {
    SameFate(q, cs, cs');
    SameFate(q, cs', cs);
    assert cs' != [] ==> cs'[0] in cs';
    if cs != [] {
      assert cs[0] in cs && cs[0] in cs';
      if !Matched(q, cs) {
        var i :| 0 <= i < |cs| && FirstHighest(q, cs, i) && d == Decision(false, Verdict(q, cs[i]), Some(cs[i]));
        var j :| 0 <= j < |cs'| && FirstHighest(q, cs', j) && d' == Decision(false, Verdict(q, cs'[j]), Some(cs'[j]));
        assert cs[i] in cs && cs'[j] in cs';
        var i' :| 0 <= i' < |cs'| && cs'[i'] == cs[i];
        var j' :| 0 <= j' < |cs| && cs[j'] == cs'[j];
      }
    }
  }

  lemma {:induction false} SameFate(q: Query, cs: seq<Policy>, cs': seq<Policy>)
    requires forall p :: p in cs ==> p in cs'
    ensures Matched(q, cs) ==> Matched(q, cs')
  {
    if Matched(q, cs) {
      var i :| 0 <= i < |cs| && Verdict(q, cs[i]).PolicyMatch?;
      assert cs[i] in cs;
      var j :| 0 <= j < |cs'| && cs'[j] == cs[i];
    }
  }

  /** More policies never turn an allow into a deny. */
  lemma {:induction false} AddingNeverDenies(q: Query, cs: seq<Policy>, cs': seq<Policy>, d: Decision, d': Decision)
    requires Decides(q, cs, d) && Decides(q, cs', d') && d.allowed
    requires forall p :: p in cs ==> p in cs'
    ensures d'.allowed
  {
    SameFate(q, cs, cs');
  }

  /** The gate allows exactly when some policy of the issuer passes every check. */
  lemma {:induction false} AllowsIff(q: Query, cs: seq<Policy>, d: Decision)
    requires Decides(q, cs, d)
    ensures d.allowed <==> exists p :: p in cs && !IsRevoked(p, q.asOf) && !p.disabled && q.kid in p.allowedKids
                                  && CoversTriple(q.glob, p, q.layer, q.name) && WindowContains(p, q.asOf)
    ensures d.allowed ==> d.policy.Some? && d.policy.value in cs && Verdict(q, d.policy.value).PolicyMatch?
  {
    if exists p :: p in cs && Verdict(q, p).PolicyMatch? {
      var p :| p in cs && Verdict(q, p).PolicyMatch?;
      var i :| 0 <= i < |cs| && cs[i] == p;
    }
    if d.allowed {
      var i :| 0 <= i < |cs| && FirstMatch(q, cs, i) && d == Decision(true, PolicyMatch, Some(cs[i]));
      assert cs[i] in cs;
    }
  }

  /* ---------- the decision on the policies' own fields ---------- */

  /** The instant is from not_before on, before not_after, and before the revocation. */
  predicate InForceAt(p: Policy, t: Instant) {
    && (p.notBefore.Some? ==> p.notBefore.value <= t)
    && (p.notAfter.Some? ==> t < p.notAfter.value)
    && (p.revokedAt.Some? ==> t < p.revokedAt.value)
  }

  /** The policy is enabled and lists the key, and a pattern pair for the layer and the name. */
  predicate Names(p: Policy, q: Query) {
    && !p.disabled
    && (exists k :: 0 <= k < |p.allowedKids| && p.allowedKids[k] == q.kid)
    && exists i :: 0 <= i < |p.allowedTriples|
         && p.allowedTriples[i].0 in {"*", q.layer} && q.glob(q.name, p.allowedTriples[i].1)
  }

  /** The policies that allow: at an instant, those that name the query and are in force at
      it; without one, those that name it and carry no revocation. */
  lemma {:induction false} MatchIff(q: Query, p: Policy)
    ensures Verdict(q, p).PolicyMatch? <==>
              Names(p, q) && if q.asOf.Some? then InForceAt(p, q.asOf.value) else p.revokedAt.None?
  {
  }

  /** So the gate allows exactly when some policy of the issuer does, and names one that does. */
  lemma {:induction false} AllowedIffInForce(q: Query, cs: seq<Policy>, d: Decision)
    requires Decides(q, cs, d)
    ensures d.allowed <==> exists p :: p in cs && Names(p, q)
                             && if q.asOf.Some? then InForceAt(p, q.asOf.value) else p.revokedAt.None?
    ensures d.allowed ==>
              && d.policy.Some? && d.policy.value in cs && Names(d.policy.value, q)
              && if q.asOf.Some? then InForceAt(d.policy.value, q.asOf.value) else d.policy.value.revokedAt.None?
  {
    AllowsIff(q, cs, d);
    forall p | p in cs
      ensures Verdict(q, p).PolicyMatch? <==>
                Names(p, q) && if q.asOf.Some? then InForceAt(p, q.asOf.value) else p.revokedAt.None?
    {
      MatchIff(q, p);
    }
  }

  /** The source of a denial, on the fields of the policy it names: the first of revoked,
      disabled, kid, triple and window that the policy fails. */
  lemma {:induction false} DenialOnFields(q: Query, cs: seq<Policy>, d: Decision)
    requires Decides(q, cs, d) && !d.allowed && cs != []
    ensures d.policy.Some? && d.policy.value in cs
    ensures var p := d.policy.value;
            var revoked := p.revokedAt.Some? && (q.asOf.None? || q.asOf.value >= p.revokedAt.value);
            && (d.source == PolicyRevoked <==> revoked)
            && (d.source == PolicyDisabled <==> !revoked && p.disabled)
            && (d.source == KidNotAllowed <==> !revoked && !p.disabled && q.kid !in p.allowedKids)
            && (d.source == OutsideValidityWindow <==>
                  && !revoked && Names(p, q) && q.asOf.Some?
                  && ((p.notBefore.Some? && q.asOf.value < p.notBefore.value)
                      || (p.notAfter.Some? && q.asOf.value >= p.notAfter.value)))
            && d.source in {PolicyRevoked, PolicyDisabled, KidNotAllowed, TripleNotAllowed, OutsideValidityWindow}
  {
    var i :| 0 <= i < |cs| && FirstHighest(q, cs, i) && d == Decision(false, Verdict(q, cs[i]), Some(cs[i]));
    assert Matched(q, cs) || !Verdict(q, cs[i]).PolicyMatch?;
  }

  /** A revoked policy outranks every other denial, a missed window all but that, a missing
      triple all but these two, and only a list of disabled policies is reported disabled. */
  lemma {:induction false} DenialsOutranked(q: Query, cs: seq<Policy>, d: Decision, p: Policy)
    requires Decides(q, cs, d) && !d.allowed && p in cs
    ensures Verdict(q, p) == PolicyRevoked ==> d.source == PolicyRevoked
    ensures Verdict(q, p) == OutsideValidityWindow ==> d.source in {PolicyRevoked, OutsideValidityWindow}
    ensures Verdict(q, p) == TripleNotAllowed ==> d.source in {PolicyRevoked, OutsideValidityWindow, TripleNotAllowed}
    ensures d.source == PolicyDisabled ==> p.disabled
  {
    var i :| 0 <= i < |cs| && FirstHighest(q, cs, i) && d == Decision(false, Verdict(q, cs[i]), Some(cs[i]));
    var k :| 0 <= k < |cs| && cs[k] == p;
    assert !Verdict(q, cs[k]).PolicyMatch?;
  }

  /* ---------- the documented fallback order ---------- */

  /** Kid over triple over window, as the documentation orders the three. */
  function DocumentedRank(source: Source): nat {
    match source
    case PolicyDisabled => 1
    case OutsideValidityWindow => 2
    case TripleNotAllowed => 3
    case KidNotAllowed => 4
    case PolicyRevoked => 5
    case _ => 0
  }

  /** The source that the documented order would report. */
  ghost predicate DocumentedSource(q: Query, cs: seq<Policy>, source: Source) {
    && (exists i :: 0 <= i < |cs| && Verdict(q, cs[i]) == source)
    && forall k :: 0 <= k < |cs| ==> DocumentedRank(Verdict(q, cs[k])) <= DocumentedRank(source)
  }

  predicate Structural(source: Source) {
    source.KidNotAllowed? || source.TripleNotAllowed? || source.OutsideValidityWindow?
  }

  predicate Reported(q: Query, cs: seq<Policy>, source: Source) {
    exists i | 0 <= i < |cs| :: Verdict(q, cs[i]) == source
  }

  /** On a denial the code reports the documented source exactly when a policy is revoked or
      the policies fail at most one of kid, triple and window. */
  lemma {:induction false} DocumentedOrderMetIff(q: Query, cs: seq<Policy>, d: Decision, documented: Source)
    requires cs != [] && Decides(q, cs, d) && !d.allowed && DocumentedSource(q, cs, documented)
    ensures d.source == documented <==>
              Reported(q, cs, PolicyRevoked)
              || forall s, s' :: Structural(s) && Reported(q, cs, s) && Structural(s') && Reported(q, cs, s')
                   ==> s == s'
  {
    var i :| 0 <= i < |cs| && FirstHighest(q, cs, i) && d == Decision(false, Verdict(q, cs[i]), Some(cs[i]));
    var j :| 0 <= j < |cs| && Verdict(q, cs[j]) == documented;
    assert Reported(q, cs, d.source) && Reported(q, cs, documented);
    assert Rank(documented) <= Rank(d.source) && DocumentedRank(d.source) <= DocumentedRank(documented);
  }

  /** One policy fails the window, the other the kid: the code reports the window. */
  lemma {:induction false} WindowReportedOverKid(q: Query, late: Policy, other: Policy, d: Decision)
    requires Verdict(q, late) == OutsideValidityWindow && Verdict(q, other) == KidNotAllowed
    requires Decides(q, [other, late], d)
    ensures d.source == OutsideValidityWindow && DocumentedSource(q, [other, late], KidNotAllowed)
  {
    var cs := [other, late];
    assert cs[0] == other && cs[1] == late;
    assert forall k :: 0 <= k < |cs| ==> !Verdict(q, cs[k]).PolicyMatch?;
  }
}
