/** The revoke and unrevoke flows of the publisher command line: read, rewrite, write. */
module PublisherCli {
  import opened Common
  import opened Buckets
  import opened Backends
  import opened Policies

  datatype ExitCode =
    | OK
    | INPUT_ERROR
    | VALIDATION_ERROR
    | CAS_CONFLICT
    | BACKEND_ERROR
    | REVOCATION_CONFLICT
    | REVOKE_TARGET_NOT_FOUND
    | UNREVOKE_TARGET_NOT_REVOKED

  /** The flags, with the time stamps parsed; revokedAt is None when its flag does not parse. */
  datatype RevokeArgs = RevokeArgs(
    registeredBy: string,
    policyId: string,
    revokedAt: Option<Instant>,
    reason: Option<string>,
    registeredAt: Instant,
    publisher: string,
    expectedRevision: Option<int>,
    lww: bool)

  datatype UnrevokeArgs = UnrevokeArgs(
    registeredBy: string,
    policyId: string,
    reason: Option<string>,
    registeredAt: Instant,
    publisher: string)

  /** s.strip() is empty. */
  predicate Blank(s: string) { forall i | 0 <= i < |s| :: IsSpace(s[i]) }

  /* ---------- the rewritten records ---------- */

  function RevokedRecord(
      live: Record, revokedAt: Instant, reason: Option<string>, at: Instant, publisher: string): Record
  {
    Record(live.policy.(revokedAt := Some(revokedAt), revocationReason := reason), live.policyId, at, publisher, None)
  }

  function UnrevokedRecord(live: Record, reason: Option<string>, at: Instant, publisher: string): Record
    requires live.policy.revokedAt.Some?
  {
    Record(live.policy.(revokedAt := None, revocationReason := None), live.policyId, at, publisher,
           Some(Marker(reason, live.policy.revokedAt.value, live.policy.revocationReason)))
  }

  function WriteCode(r: Result<nat, BackendError>): ExitCode {
    match r
    case Ok(_) => OK
    case Err(RevocationConflict) => REVOCATION_CONFLICT
    case Err(CasConflict) => CAS_CONFLICT
    case Err(ValueError) => BACKEND_ERROR
  }

  /* ---------- the flows, on a history ---------- */

  type History = seq<Event<Record>>

  function Revoke(h: History, args: RevokeArgs): (ExitCode, History) {
    if args.revokedAt.None? || Blank(args.publisher) || KeyForPair(args.registeredBy, args.policyId).None? then
      (INPUT_ERROR, h)
    else
      match Read(h, KeyForPair(args.registeredBy, args.policyId).value)
      case None => (REVOKE_TARGET_NOT_FOUND, h)
      case Some(live) =>
        var record := RevokedRecord(live.record, args.revokedAt.value, args.reason, args.registeredAt, args.publisher);
        if !ValidRecord(record) then (VALIDATION_ERROR, h)
        else if args.lww then
          var (r, h') := PlainPut(POLICY_RULES, h, record); (WriteCode(r), h')
        else if args.expectedRevision.Some? && args.expectedRevision.value != live.revision then (CAS_CONFLICT, h)
        else
          var (r, h') := CasPut(POLICY_RULES, h, record, live.revision); (WriteCode(r), h')
  }

  function Unrevoke(h: History, args: UnrevokeArgs): (ExitCode, History) {
    if Blank(args.publisher) || KeyForPair(args.registeredBy, args.policyId).None? then (INPUT_ERROR, h)
    else
      match Read(h, KeyForPair(args.registeredBy, args.policyId).value)
      case None => (REVOKE_TARGET_NOT_FOUND, h)
      case Some(live) =>
        if live.record.policy.revokedAt.None? then (UNREVOKE_TARGET_NOT_REVOKED, h)
        else
          var record := UnrevokedRecord(live.record, args.reason, args.registeredAt, args.publisher);
          if !ValidRecord(record) then (VALIDATION_ERROR, h)
          else
            var (r, h') := PlainPut(POLICY_RULES, h, record); (WriteCode(r), h')
  }

  method RunRevoke(args: RevokeArgs, backend: Backend<Record>) returns (code: ExitCode)
    requires backend.Valid() && backend.rules == POLICY_RULES
    modifies backend.kv
    ensures backend.Valid() && (code, backend.kv.history) == Revoke(old(backend.kv.history), args)
  {
    if args.revokedAt.None? { return INPUT_ERROR; }
    if Blank(args.publisher) { return INPUT_ERROR; }
    var key := KeyForPair(args.registeredBy, args.policyId);
    if key.None? { return INPUT_ERROR; }
    var entry := backend.GetWithRevision(key.value);
    if entry.None? { return REVOKE_TARGET_NOT_FOUND; }
    var live := entry.value;
    var record := RevokedRecord(live.record, args.revokedAt.value, args.reason, args.registeredAt, args.publisher);
    if !ValidRecord(record) { return VALIDATION_ERROR; }
    var r;
    if args.lww {
      r := backend.Put(record);
    } else {
      if args.expectedRevision.Some? && args.expectedRevision.value != live.revision { return CAS_CONFLICT; }
      r := backend.PutWithRevision(record, live.revision);
    }
    return WriteCode(r);
  }

  method RunUnrevoke(args: UnrevokeArgs, backend: Backend<Record>) returns (code: ExitCode)
    requires backend.Valid() && backend.rules == POLICY_RULES
    modifies backend.kv
    ensures backend.Valid() && (code, backend.kv.history) == Unrevoke(old(backend.kv.history), args)
  {
    if Blank(args.publisher) { return INPUT_ERROR; }
    var key := KeyForPair(args.registeredBy, args.policyId);
    if key.None? { return INPUT_ERROR; }
    var entry := backend.GetWithRevision(key.value);
    if entry.None? { return REVOKE_TARGET_NOT_FOUND; }
    var live := entry.value.record;
    if live.policy.revokedAt.None? { return UNREVOKE_TARGET_NOT_REVOKED; }
    var record := UnrevokedRecord(live, args.reason, args.registeredAt, args.publisher);
    if !ValidRecord(record) { return VALIDATION_ERROR; }
    var r := backend.Put(record);
    return WriteCode(r);
  }

  /* ---------- what the flows do to the target ---------- */

  /** A bucket of constructed records, each under its own key. */
  ghost predicate GoodBucket(h: History) {
    WellKeyed(POLICY_RULES, h) && forall i :: 0 <= i < |h| && h[i].Put? ==> ValidRecord(h[i].record)
  }

  /** Well-formed flags, a live target, and either an unconditional write, or the expected
      revision and no other revocation instant on the target. */
  predicate RevokeApplies(h: History, args: RevokeArgs) {
    var key := KeyForPair(args.registeredBy, args.policyId);
    && args.revokedAt.Some? && !Blank(args.publisher) && key.Some?
    && LiveRecord(h, key.value).Some?
    && (args.lww
        || ((args.expectedRevision.Some? ==> args.expectedRevision.value == Revision(h, key.value))
            && LiveRecord(h, key.value).value.policy.revokedAt in {None, args.revokedAt}))
  }

  /** A revoke succeeds exactly when it applies; then the target is revoked at the given
      instant, all else of its policy kept.  Otherwise nothing changes. */
  lemma {:induction false} RevokeRevokes(h: History, args: RevokeArgs)
    requires GoodBucket(h)
    ensures var (code, h') := Revoke(h, args);
            && (code == OK <==> RevokeApplies(h, args))
            && (code != OK ==> h' == h)
            && (code == OK ==>
                  var key := KeyForPair(args.registeredBy, args.policyId).value;
                  LiveRecord(h', key) == Some(RevokedRecord(
                    LiveRecord(h, key).value, args.revokedAt.value, args.reason, args.registeredAt, args.publisher)))
  {
    var key := KeyForPair(args.registeredBy, args.policyId);
    if args.revokedAt.Some? && key.Some? && Read(h, key.value).Some? {
      var live := Read(h, key.value).value;
      var record := RevokedRecord(live.record, args.revokedAt.value, args.reason, args.registeredAt, args.publisher);
      LiveAppend(h, Put(key.value, record), key.value);
    }
  }

  /** Well-formed flags and a revoked live target. */
  predicate UnrevokeApplies(h: History, args: UnrevokeArgs) {
    var key := KeyForPair(args.registeredBy, args.policyId);
    && !Blank(args.publisher) && key.Some?
    && LiveRecord(h, key.value).Some? && LiveRecord(h, key.value).value.policy.revokedAt.Some?
  }

  /** An unrevoke succeeds exactly when it applies; then the target is the policy it was,
      with the revocation taken out and its instant kept in the audit marker. */
  lemma {:induction false} UnrevokeUnrevokes(h: History, args: UnrevokeArgs)
    requires GoodBucket(h)
    ensures var (code, h') := Unrevoke(h, args);
            && (code == OK <==> UnrevokeApplies(h, args))
            && (code != OK ==> h' == h)
            && (code == OK ==>
                  var key := KeyForPair(args.registeredBy, args.policyId).value;
                  LiveRecord(h', key) == Some(UnrevokedRecord(
                    LiveRecord(h, key).value, args.reason, args.registeredAt, args.publisher)))
  {
    var key := KeyForPair(args.registeredBy, args.policyId);
    if key.Some? && Read(h, key.value).Some? && Read(h, key.value).value.record.policy.revokedAt.Some? {
      var record := UnrevokedRecord(Read(h, key.value).value.record, args.reason, args.registeredAt, args.publisher);
      LiveAppend(h, Put(key.value, record), key.value);
    }
  }

  /* ---------- the rewritten records, field by field ---------- */

  /** The same policy, whatever its revocation. */
  predicate SameAuthority(p: Policy, q: Policy) {
    && p.registeredBy == q.registeredBy && p.allowedKids == q.allowedKids && p.allowedTriples == q.allowedTriples
    && p.notBefore == q.notBefore && p.notAfter == q.notAfter && p.disabled == q.disabled && p.note == q.note
  }

  /** What a successful revoke leaves under the key. */
  lemma {:induction false} RevokedFields(h: History, args: RevokeArgs)
    requires GoodBucket(h) && RevokeApplies(h, args)
    ensures var key := KeyForPair(args.registeredBy, args.policyId).value;
            var live, after := LiveRecord(h, key).value, LiveRecord(Revoke(h, args).1, key);
            && after.Some? && SameAuthority(after.value.policy, live.policy)
            && after.value.policy.revokedAt == args.revokedAt && after.value.policy.revocationReason == args.reason
            && after.value.policyId == live.policyId && after.value.marker == None
            && after.value.registeredAt == args.registeredAt && after.value.registeredByPublisher == args.publisher
  {
    RevokeRevokes(h, args);
  }

  /** What a successful unrevoke leaves under the key. */
  lemma {:induction false} UnrevokedFields(h: History, args: UnrevokeArgs)
    requires GoodBucket(h) && UnrevokeApplies(h, args)
    ensures var key := KeyForPair(args.registeredBy, args.policyId).value;
            var live, after := LiveRecord(h, key).value, LiveRecord(Unrevoke(h, args).1, key);
            && after.Some? && SameAuthority(after.value.policy, live.policy)
            && after.value.policy.revokedAt == None && after.value.policy.revocationReason == None
            && after.value.policyId == live.policyId && after.value.marker.Some?
            && after.value.marker.value.unrevokeReason == args.reason
            && Some(after.value.marker.value.previousRevokedAt) == live.policy.revokedAt
            && after.value.marker.value.previousRevocationReason == live.policy.revocationReason
            && after.value.registeredAt == args.registeredAt && after.value.registeredByPublisher == args.publisher
  {
    UnrevokeUnrevokes(h, args);
  }

  /* ---------- the exit codes ---------- */

  /** Flags that are refused before anything is read. */
  predicate BadFlags(registeredBy: string, policyId: string, publisher: string) {
    (forall i :: 0 <= i < |publisher| ==> IsSpace(publisher[i])) || KeyForPair(registeredBy, policyId).None?
  }

  /** Why a revoke ends as it does. */
  lemma {:induction false} RevokeCodes(h: History, args: RevokeArgs)
    requires GoodBucket(h)
    ensures var code := Revoke(h, args).0;
            var bad := args.revokedAt.None? || BadFlags(args.registeredBy, args.policyId, args.publisher);
            && (code == INPUT_ERROR <==> bad)
            && (!bad ==>
                  var live := Live(h, KeyForPair(args.registeredBy, args.policyId).value);
                  && (code == REVOKE_TARGET_NOT_FOUND <==> live.None?)
                  && (code == CAS_CONFLICT <==>
                        live.Some? && !args.lww && args.expectedRevision.Some?
                        && args.expectedRevision.value != live.value.revision)
                  && (code == REVOCATION_CONFLICT <==>
                        live.Some? && !args.lww
                        && (args.expectedRevision.Some? ==> args.expectedRevision.value == live.value.revision)
                        && live.value.record.policy.revokedAt.Some?
                        && live.value.record.policy.revokedAt != args.revokedAt))
            && code in {OK, INPUT_ERROR, REVOKE_TARGET_NOT_FOUND, CAS_CONFLICT, REVOCATION_CONFLICT}
  {
  }

  /** Why an unrevoke ends as it does. */
  lemma {:induction false} UnrevokeCodes(h: History, args: UnrevokeArgs)
    requires GoodBucket(h)
    ensures var code, bad := Unrevoke(h, args).0, BadFlags(args.registeredBy, args.policyId, args.publisher);
            && (code == INPUT_ERROR <==> bad)
            && (!bad ==>
                  var live := LiveRecord(h, KeyForPair(args.registeredBy, args.policyId).value);
                  && (code == REVOKE_TARGET_NOT_FOUND <==> live.None?)
                  && (code == UNREVOKE_TARGET_NOT_REVOKED <==> live.Some? && live.value.policy.revokedAt.None?)
                  && (code == OK <==> live.Some? && live.value.policy.revokedAt.Some?))
  {
  }

  /** Unrevoking what was just revoked gives the unrevoked policy back. */
  lemma {:induction false} UnrevokeUndoesRevoke(h: History, revoke: RevokeArgs, unrevoke: UnrevokeArgs)
    requires GoodBucket(h) && RevokeApplies(h, revoke)
    requires unrevoke.registeredBy == revoke.registeredBy && unrevoke.policyId == revoke.policyId
    requires !Blank(unrevoke.publisher)
    requires LiveRecord(h, KeyForPair(revoke.registeredBy, revoke.policyId).value).value.policy.revokedAt.None?
    ensures var key := KeyForPair(revoke.registeredBy, revoke.policyId).value;
            var (code, h') := Revoke(h, revoke);
            var (code', h'') := Unrevoke(h', unrevoke);
            && code == OK && code' == OK
            && LiveRecord(h'', key).Some? && LiveRecord(h'', key).value.policy == LiveRecord(h, key).value.policy
  {
    var h' := Revoke(h, revoke).1;
    RevokeRevokes(h, revoke);
    UnrevokeUnrevokes(h', unrevoke);
  }
}
