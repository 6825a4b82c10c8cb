# Wakir protocol: canonical forms, the revocable policy store, proofs and caches

This project models four connected parts of the repository and proves what they promise.

* **Merkle trees and proofs** (`Merkle`, `MerkleBinding`): the reference implementation of the compatibility vectors,
  with SHA-256 as a function parameter; which proofs verify, and what a root and a verifying proof bind.
* **Canonical forms** (`Encodings`, `Decoding`, `KeyedSort`, `Json`, `JsonParse`, `Jcs`, `ShortestText`, `CaveatSet`,
  `CaveatWords`, `SchemaStrip`, `StripLaws`, `SchemaWalk`, `SchemaShapes`, `SchemaSemantics`, `SchemaMeaning`,
  `SchemaDigest`): the RFC 8785 printer, the verifier's second printer, caveat sets, the annotation stripping of schema
  digests, and the validator that gives schemas their meaning.
* **The revocable policy store and its schema sibling** (`Policies`, `Envelopes`, `Buckets`, `Backends`, `CasProtocol`,
  `Classifier`, `StreamKinds`, `PublisherCli`, `PolicyRuns`, `Replication`, `Convergence`, `FilteredStreams`, `Halting`,
  `LiveViews`, `Gate`, `PolicyReplication`, `SchemaRegistry`, `StoredForms`): a bucket is a history of PUT and DELETE
  operations whose revisions are positions; backends, conditional writers in separate steps, the command-line flows,
  replicators, live snapshots, the event classifier and the capability gate all act on such histories.
* **Caches and look-ups** (`Orders`, `SignatureKeys`, `SignatureCache`, `SignatureLaws`, `KidResolver`, `EtagCache`,
  `FetchLaws`, `Dicts`): the signature cache, the key-identifier resolver with its listing twin, and the entity-tag
  cache behind the HTTPS transport, each compared with something simpler.

The pieces build on one another: the parser result gives injectivity of the printers, which gives the caveat-set,
schema-digest and envelope results; the bucket lemmas carry the conditional-write, replication, classifier and gate
results, once for policies and schemas alike, because a backend is parameterised by its `Rules` (the key gate and the
replacements it refuses).

## How to read the model

* Text is Dafny `string`, which holds no lone surrogates; bytes are integers below 256. Integers are unbounded, as in
  Python. Instants are integers, zone-aware and compared in UTC; the monotonic clock of the signature cache is a real.
* A dict is a sequence of members in insertion order; `IsDict` and `DistinctKeys` say that its keys are distinct.
* Hashes, signatures, regular expressions, file-name globs, URI tests, RFC 3339 rendering and parsing, hexadecimal
  decoding, the network and the clock are parameters. What a theorem needs of them is stated as its hypothesis:
  `MerkleBinding.DigestHash`, `Envelopes.Faithful`, `SignatureCache.PlainHex`, `EtagCache.Honest` with `EtagCache.Agree`.
  Nothing is assumed about collisions: where two different inputs with the same hash would break a result, the theorem
  says so and names them among the inputs that were hashed (`MerkleBinding.Collision`, `SignatureCache.Collides`).
* The bucket contract is that of the repository's own in-memory store; the history is the watch-stream.
* A method that mirrors a loop or a state change of the source is proved equal to a function on values; the results
  are lemmas about that function, and pin it by laws that do not name it (`ShortestText`, `SchemaSemantics`,
  `FilteredStreams`, `StreamKinds`, `StoredForms`, `SignatureLaws`, `FetchLaws`). Where the source raises, the model
  returns `Result`, `Option`, or an outcome.

## Where the code and its documentation differ

The model follows the code.

* The caveat rule names four blanks; `str.strip()` removes every Unicode white space at the ends
  (`wakir_protocol/canonical/caveat_set.py:60-75`, `CaveatSet.CodeMeetsRuleIff`).
* The gate documents its fallback order as kid over triple over window; the loop reports revoked over window over
  triple over kid over disabled (`wakir_protocol/schemas/registered_by_capability.py:498-635`,
  `Gate.DocumentedOrderMetIff`).
* The verifier's own printer is documented as RFC 8785 order for ASCII keys; on other keys it sorts by code point
  (`wakir_protocol/identity_substrate/ftd_verifier.py:429-458`). The registry digest is documented as taken over
  RFC 8785 bytes; the module it prefers is not in the repository, so it too sorts by code point
  (`wakir_protocol/schemas/registry_nats_kv_backend.py:380-396`).
* The key patterns end in `$`, which also matches before a final newline
  (`wakir_protocol/schemas/capability_policy_nats_kv_backend.py:402-430`, `Policies.NewlineIsMatched`).
* The signature cache says a block without a kid makes the verifier raise too; the verifier does not read the kid
  (`wakir_protocol/identity_substrate/aip_signature_verification_cache.py:402-407`, `SignatureCache.IncompleteRaises`).
* The listing of resolvable keys says it lists what the resolver would accept; without a time it does not read the
  windows, and it skips malformed entries on which the resolver raises (`KidResolver.ListingAgreesIff`).

## Conditions found

These promises hold under a condition that a caller can check; each is proved in both directions, with the failing case.

* The code meets the written white-space rule exactly where the rule leaves no other white space at the ends
  (`CaveatSet.CodeMeetsRuleIff`).
* Two printers agree exactly on values without conflicting keys (`Jcs.PrintersAgreeIff`).
* Stripping changes the outcome of the walk only for documents with a licence header that the walk refuses as
  unsupported, or with a dict under `required` that has an annotation for a name (`SchemaMeaning.StripOutcome`);
  without such dicts it changes it exactly when the document is refused as unsupported and the stripped one is not
  (`SchemaMeaning.StripDiffersIff`). A licence header is necessary for that; it is sufficient where an instance reaches
  it, as shown at the root and below any nesting of positions (`SchemaMeaning.NestedHeaderChangesOutcome`).
* A conditional write is safe exactly when the revision it expects is no later than its gate read
  (`CasProtocol.SafeExactlyWhenObserved`).
* Policy replication converges exactly when the last life of every key ends in a record that no earlier record of
  that life refuses, and with the halting flag exactly when no replay is ever refused
  (`PolicyReplication.PoliciesConvergeIff`). The familiar condition, that revocation instants do not change between
  tombstones, implies the first (`Convergence.SteadySettles`).
* A history makes the event classifier report no breach and no explicit unrevoke exactly when no revocation instant
  changes between tombstones (`StreamKinds.QuietIffSteady`).
* The signature cache is indistinguishable from the verifier exactly on calls whose alg and signature hold no NUL,
  whose signature is not ASCII, or whose resplit call is refused (`SignatureCache.AlwaysFreshIff`).
* Listing and resolving agree exactly when no entry passes the filters, or all entries are mappings and the windows of
  the passing entries parse (`KidResolver.ListingAgreesIff`).
* A proof of the tree's depth verifies exactly when it opens the node that its sides spell, collisions aside
  (`MerkleBinding.VerifiesIffOpening`).
* The entity-tag cache is transparent exactly for visits that verify to the same document whenever they end with the
  same tag (`EtagCache.TransparentIff`). Tags that fix the page of each URL give this when no redirect is followed or
  every URI ends at one URL (`EtagCache.TransparentWithFixedEnds`); alone they do not
  (`EtagCache.MovedRedirectMisleads`).

## Model

| member | source | states |
|---|---|---|
| Merkle.BuildMerkleTree | tooling/compat/run_vectors_with.py:59-70 | no leaves is an error; otherwise the root and the padded levels of the leaf list, for every list |
| Merkle.MerkleProof | tooling/compat/run_vectors_with.py:72-79 | the path through the levels, step by step, with the index error where the source would raise one |
| Merkle.VerifyMerkleProof | tooling/compat/run_vectors_with.py:81-90 | accepts exactly when replaying the steps gives the root; any side other than L or R refuses |
| Merkle.ProofIsSiblingPath | tooling/compat/run_vectors_with.py:72-79 | for every valid index the proof is the list of true siblings; the branch that falls back to the node itself is never taken |
| Merkle.ProofDefinedExactlyOnPaddedLevel | tooling/compat/run_vectors_with.py:72-79 | which integer indices, negative ones included, give a proof and which give an index error, for every non-empty list; with one leaf every index gives the empty proof |
| MerkleBinding.ProofVerifies | tooling/compat/run_vectors_with.py:72-90 | the proof of every leaf of every non-empty list verifies against the root of that list |
| Merkle.ProofLengthIsLeastPower | tooling/compat/run_vectors_with.py:72-79 | the proof has k steps for the least k with 2^k at least the number of leaves |
| Merkle.SidesSpellIndex | tooling/compat/run_vectors_with.py:77 | the sides, L as 1 and lowest first, are the binary digits of the leaf index |
| MerkleBinding.RootBindsLeaves | tooling/compat/run_vectors_with.py:59-70 | for any hash with 32-byte results: lists of digests of the same length and root are equal, or two different pairs hashed while building the two trees have the same hash |
| MerkleBinding.RepeatedLastLeafKeepsRoot | tooling/compat/run_vectors_with.py:64-66 | the same length is needed: an odd list and the list with its last leaf repeated have the same root |
| MerkleBinding.ReplayBinds | tooling/compat/run_vectors_with.py:81-90 | two replays with the same sides and the same end have the same start and the same siblings, or two different pairs that they hashed have the same hash |
| MerkleBinding.OpeningVerifies | tooling/compat/run_vectors_with.py:64-90 | the siblings on the way that the sides of any index spell, repeated nodes included, verify for the leaf they lead to |
| MerkleBinding.ProofOpensSpelledNode | tooling/compat/run_vectors_with.py:59-90 | a digest proof of the tree's depth that verifies, whatever its sides, carries the leaf that the sides spell (past the end, a repeated node) and its true siblings, or a pair it hashed collides with a different pair hashed by the tree |
| MerkleBinding.VerifiesIffOpening | tooling/compat/run_vectors_with.py:59-90 | so, unless there is such a collision, a digest proof of the tree's depth verifies if and only if it is the opening of the index its sides spell |
| MerkleBinding.ShortProofOpensInnerNode | tooling/compat/run_vectors_with.py:81-90 | a shorter digest proof that verifies opens, in the same sense, the spelled node of the level as far below the root as the proof is long |
| MerkleBinding.LongProofPassesALeaf | tooling/compat/run_vectors_with.py:81-90 | a longer digest proof that verifies passes through a leaf that is itself the hash of a pair of digests, or it yields such a collision |
| MerkleBinding.ProofBindsLeaf | tooling/compat/run_vectors_with.py:72-90 | a digest proof with the sides of leaf i that verifies carries exactly leaf i and the siblings the generator returns, or it yields such a collision |
| Encodings.Utf16CodeUnits | wakir_protocol/identity_substrate/_jcs_pure.py:153-174 | the loop computes the UTF-16 code units of the string, surrogate pairs included |
| Encodings.Utf8OrderIsCodePointOrder | wakir_protocol/canonical/caveat_set.py:92-96 | byte order of the UTF-8 forms is code-point order, for all strings |
| Encodings.EncodedOrder | wakir_protocol/identity_substrate/_jcs_pure.py:153-189 | for each encoding, the order of encoded strings is decided by the first differing character |
| Encodings.EncodeInjective | wakir_protocol/canonical/caveat_set.py:92-96 | each encoding is injective |
| Decoding.DecodeEncode | wakir_protocol/identity_substrate/_jcs_pure.py:153-174 | decoding gives every string back from its UTF-8 bytes and its UTF-16 units, by decoders that refuse stray continuations, overlong forms and lone surrogates |
| Encodings.Utf16OrderDiffersExactlyOnConflicts | wakir_protocol/identity_substrate/_jcs_pure.py:177-189 | two strings are ordered differently by UTF-16 units and by code points exactly when, where they first differ, one character is supplementary and the other lies above the surrogates |
| Encodings.BmpNeverConflicts | wakir_protocol/identity_substrate/_jcs_pure.py:177-189 | strings without supplementary characters are ordered alike |
| Jcs.SerializeString | wakir_protocol/identity_substrate/_jcs_pure.py:127-150 | the character loop writes the quoted text in which each character has its one escaped form |
| Jcs.SerializeObject | wakir_protocol/identity_substrate/_jcs_pure.py:177-189 | collecting, sorting and joining the members gives the text of the object with keys in UTF-16 order |
| ShortestText.StringShortest | wakir_protocol/identity_substrate/_jcs_pure.py:127-150 | the printed string is the one shortest text that the parser reads as it |
| ShortestText.EscapesWrittenOut | wakir_protocol/identity_substrate/_jcs_pure.py:127-150 | quote, backslash, backspace and form feed in their two-character forms |
| ShortestText.MoreEscapesWrittenOut | wakir_protocol/identity_substrate/_jcs_pure.py:127-150 | newline, carriage return and tab in their two-character forms, another control character in hexadecimal, a slash as itself |
| ShortestText.ValueShortest | wakir_protocol/identity_substrate/_jcs_pure.py:77-150 | the printed value is the one shortest text that the parser reads as it, for every float-free value |
| ShortestText.CanonicalIsShortest | wakir_protocol/identity_substrate/_jcs_pure.py:52-74 | the canonical text is the one shortest text read as the value with its members sorted |
| JsonParse.ParsePrint | wakir_protocol/identity_substrate/_jcs_pure.py:77-150 | the parser recovers every float-free value from its text and leaves whatever follows, if that does not begin with a digit |
| Jcs.SerializeReadsBack | wakir_protocol/identity_substrate/_jcs_pure.py:52-99 | canonical text reads back as the value with its members sorted, which equals the value as JSON |
| Jcs.CanonicalBytesDecideEquality | wakir_protocol/identity_substrate/_jcs_pure.py:52-74 | two values have the same canonical bytes if and only if they are equal with objects as maps |
| Jcs.PrintersAgreeIff | wakir_protocol/identity_substrate/ftd_verifier.py:429-491 | the verifier's own printer gives the bytes of the RFC 8785 printer exactly when no object has two keys that the two orders put differently |
| Jcs.PrintersAgreeOnBmpKeys | wakir_protocol/identity_substrate/ftd_verifier.py:429-458 | hence they agree on every value whose keys have no supplementary characters |
| Jcs.PrintersDisagree | wakir_protocol/identity_substrate/ftd_verifier.py:445-452 | and they differ on a named value |
| CaveatSet.NormalizeIsNormal | wakir_protocol/canonical/caveat_set.py:60-75 | the normalised caveat has only single spaces and no white space at its ends; a caveat of that form is left alone |
| CaveatWords.RuleJoinsWords | wakir_protocol/canonical/caveat_set.py:60-75 | the written rule is splitting into words at blanks and joining them with single spaces |
| CaveatWords.NormalizeStripsWords | wakir_protocol/canonical/caveat_set.py:60-75 | the code gives those words, joined, without the white space at the two ends |
| CaveatSet.RespacingNeverMatters | wakir_protocol/canonical/caveat_set.py:60-75 | replacing one run of blanks by another never changes the normalised caveat |
| CaveatSet.CodeMeetsRuleIff | wakir_protocol/canonical/caveat_set.py:60-75 | the code gives what the written rule gives exactly when the rule's result is empty or has no other white space at its ends |
| CaveatSet.StripGoesBeyondBlanks | wakir_protocol/canonical/caveat_set.py:72-75 | two caveats that the written rule keeps apart and that get the same canonical bytes |
| CaveatSet.DedupThenSort | wakir_protocol/canonical/caveat_set.py:78-101 | the two loops drop later duplicates and sort by UTF-8 bytes |
| CaveatSet.CanonicalizeCaveatSet | wakir_protocol/canonical/caveat_set.py:104-111 | normalise, drop duplicates, sort |
| CaveatSet.CanonicalListsTheSet | wakir_protocol/canonical/caveat_set.py:104-111 | the result is strictly increasing and has exactly the normalised caveats |
| CaveatSet.CanonicalIdempotent | wakir_protocol/canonical/caveat_set.py:104-111 | canonicalising twice is canonicalising once |
| CaveatSet.CanonicalBytesDecideTheSet | wakir_protocol/canonical/caveat_set.py:114-122 | two lists have the same canonical bytes if and only if their sets of normalised caveats are equal |
| SchemaStrip.StripNoncanonical | tooling/compat/canon.py:153-178 | the member loop drops annotations by keyword position, keeps instance data verbatim and every name in name-keyed maps |
| SchemaStrip.StripIdempotent | tooling/compat/canon.py:153-178 | stripping twice is stripping once, for every document |
| StripLaws.AnnotationsIgnored | tooling/compat/canon.py:153-178 | taking one annotation out of a document, at any schema position, does not change what it is stripped to |
| StripLaws.StripIsClean | tooling/compat/canon.py:153-178 | what stripping leaves has no annotation at a schema position |
| StripLaws.CleanIsFixed | tooling/compat/canon.py:153-178 | a document without annotations at schema positions is left alone |
| SchemaWalk.WalkSteps | wakir_protocol/identity_substrate/_schema_pure.py:129-225 | for every JSON value in the place of a schema, the checks in the order of the source, first error wins |
| SchemaWalk.WalkAnyOfSteps | wakir_protocol/identity_substrate/_schema_pure.py:157-175 | the anyOf loop accepts at the first branch that does |
| SchemaWalk.WalkObjectSteps | wakir_protocol/identity_substrate/_schema_pure.py:192-215 | required, properties and additionalProperties of an object, in order |
| SchemaWalk.WalkItemsSteps | wakir_protocol/identity_substrate/_schema_pure.py:222-225 | every item against the item schema |
| SchemaShapes.WalkDecides | wakir_protocol/identity_substrate/_schema_pure.py:129-225 | on well-formed schemas the walk accepts or rejects and never ends otherwise |
| SchemaSemantics.AcceptsIffSatisfies | wakir_protocol/identity_substrate/_schema_pure.py:129-266 | for every well-formed schema and every value the walk accepts if and only if each keyword of the schema holds of the value, keyword by keyword as a declarative relation |
| SchemaSemantics.PyEqIffSame | wakir_protocol/identity_substrate/_schema_pure.py:145-155 | the equality of enum and const is equality as JSON with booleans taken as numbers |
| SchemaSemantics.OtherKeywordsRefused | wakir_protocol/identity_substrate/_schema_pure.py:61-88 | a schema with any keyword outside the listed ones is refused as unsupported, whatever the value |
| SchemaMeaning.StripOutcome | tooling/compat/canon.py:153-178 | for every document and instance the walk ends the same way before and after stripping, unless it refuses as unsupported a document with a licence header, or a required dict has an annotation for a name |
| SchemaMeaning.StripDiffersIff | tooling/compat/canon.py:153-178 | with no such dict, outcomes differ if and only if the walk refuses the document as unsupported and not the stripped one; then there is a licence header at a schema position |
| SchemaMeaning.LicensedIffSpdx | tooling/compat/canon.py:140-150 | a licence header is a member whose name begins with x-spdx- and whose value is a string |
| SchemaMeaning.StripKeepsWalk | tooling/compat/canon.py:153-178 | so on every well-formed schema stripping keeps the outcome for every instance |
| SchemaMeaning.LicenceHeaderChangesOutcome | tooling/compat/canon.py:140-150 | a licence header at the root of a schema that is well-formed once stripped: every instance is refused before and decided after |
| SchemaMeaning.NestedHeaderChangesOutcome | wakir_protocol/identity_substrate/_schema_pure.py:157-225 | the same below any nesting of items, additionalProperties, anyOf and properties with no other keyword: an instance that reaches the header is refused before and decided after |
| SchemaMeaning.AnnotatedRequiredChangesOutcome | wakir_protocol/identity_substrate/_schema_pure.py:192-199 | a required dict with an annotation, and an instance rejected before and accepted after |
| SchemaDigest.NormKeepsWalk | wakir_protocol/identity_substrate/_schema_pure.py:129-225 | the order of schema members never matters to the walk |
| SchemaDigest.EqualDigestsEqualMeaning | tooling/compat/canon.py:181-188 | schemas with equal canonical bytes accept the same instances |
| Policies.KeyRoundTrip | wakir_protocol/schemas/capability_policy_nats_kv_backend.py:402-458 | parsing a derived key gives the pair back, so distinct pairs have distinct keys |
| Policies.PairRoundTrip | wakir_protocol/schemas/capability_policy_nats_kv_backend.py:432-458 | a key that parses is the key of its pair exactly when both parts pass the permitted-character patterns |
| Policies.NewlineIsMatched | wakir_protocol/schemas/capability_policy_nats_kv_backend.py:402-430 | what the patterns accept beyond the documented characters is one final newline |
| Policies.KeysIdentifyPairs | wakir_protocol/schemas/capability_policy_nats_kv_backend.py:646-648 | records under the same key have the same issuer and policy id |
| StoredForms.PairKeyIff | wakir_protocol/schemas/capability_policy_nats_kv_backend.py:395-430 | which pairs have a key, character by character, and what the key is |
| StoredForms.ValidPolicyIff | wakir_protocol/schemas/registered_by_capability.py:200-257 | a policy is valid exactly when it names an issuer, kids and triples, its window holds an instant, and a reason for revocation comes with an instant of revocation |
| StoredForms.RecordSpelled | wakir_protocol/schemas/capability_policy_nats_kv_backend.py:685-743 | the bytes of a record decode to a JSON object that spells each field under its name |
| StoredForms.DecodesIff | wakir_protocol/schemas/capability_policy_nats_kv_backend.py:744-966 | a payload, however written, decodes to a record exactly when it spells it under those names, null and absent alike for an optional field, and the record is valid |
| Envelopes.EnvelopeRoundTrip | wakir_protocol/schemas/capability_policy_nats_kv_backend.py:685-966 | the stored text of every valid record parses to a JSON value that decodes to that record |
| Envelopes.Decode | wakir_protocol/schemas/capability_policy_nats_kv_backend.py:744-966 | whatever decodes satisfies every constructor check |
| Envelopes.ByteEqualMeansEqual | wakir_protocol/schemas/capability_policy_replication.py:330-345 | two valid records have byte-equal envelopes if and only if they are equal |
| Envelopes.ReencodingIsStable | wakir_protocol/schemas/capability_policy_nats_kv_backend.py:685-966 | storing what was decoded gives something that decodes to the same record |
| Envelopes.AbsentIsNull | wakir_protocol/schemas/capability_policy_nats_kv_backend.py:716-734 | envelopes written before an optional field existed decode as if it were null |
| Buckets.Kv.Put | tests/test_capability_policy_cas_pin.py:110-115 | the bucket contract: a put appends to the history; the revision is its position |
| Buckets.Kv.Update | tests/test_capability_policy_cas_pin.py:117-131 | an update appends only when the live revision, 0 for an absent key, is the expected one |
| Buckets.Kv.Delete | tests/test_capability_policy_cas_pin.py:133-137 | a delete leaves a tombstone and does nothing to an absent key |
| Buckets.RevisionPins | wakir_protocol/schemas/capability_policy_nats_kv_backend.py:1111-1216 | while a key is live at an observed revision, nothing has happened to the key since |
| Backends.Backend.Put | wakir_protocol/schemas/capability_policy_nats_kv_backend.py:1080-1109 | key gate, then an unconditional write |
| Backends.Backend.PutWithRevision | wakir_protocol/schemas/capability_policy_nats_kv_backend.py:1111-1216 | argument check, key gate, revocation gate on the live record, then the conditional update, each with its error |
| Backends.Backend.Delete | wakir_protocol/schemas/capability_policy_nats_kv_backend.py:1218-1236 | the empty key is an error, an absent key is not |
| Backends.Backend.Snapshot | wakir_protocol/schemas/capability_policy_nats_kv_backend.py:1251-1273 | the live records in key order, each once, and nothing else |
| Backends.WritesKeepWellKeyed | wakir_protocol/schemas/capability_policy_nats_kv_backend.py:1080-1236 | a bucket written only through the backend keeps every record under its own key |
| CasProtocol.CasPutIff | wakir_protocol/schemas/capability_policy_nats_kv_backend.py:1111-1216 | the conditional write succeeds exactly when it creates an absent key with 0 or replaces the live record of the expected revision and that record does not refuse it; which error it raises otherwise; it appends the record or changes nothing |
| CasProtocol.StepKeepsInv | wakir_protocol/schemas/capability_policy_nats_kv_backend.py:1111-1216 | each step of any writer keeps what every writer has observed and passed |
| CasProtocol.GateThenCommit | wakir_protocol/schemas/capability_policy_nats_kv_backend.py:1111-1216 | the gate step and the commit step, with nothing in between, are the conditional write |
| CasProtocol.RunKeepsWellKeyed | wakir_protocol/schemas/capability_policy_nats_kv_backend.py:1080-1236 | every interleaving of writers keeps the bucket well-keyed |
| CasProtocol.CommitReplacesTheObserved | wakir_protocol/schemas/capability_policy_nats_kv_backend.py:1111-1216 | in every interleaving a conditional write that succeeds replaces exactly the revision its caller observed, and the gate holds against that record |
| CasProtocol.CommitKeepsRevocation | wakir_protocol/schemas/capability_policy_nats_kv_backend.py:1176-1200 | so it never clears or moves the revocation instant of the record it replaces |
| CasProtocol.GatePinsCommit | wakir_protocol/schemas/capability_policy_nats_kv_backend.py:1111-1216 | a write that succeeds at a revision no later than its gate read replaces the record the gate was checked against |
| CasProtocol.SafeExactlyWhenObserved | wakir_protocol/schemas/capability_policy_nats_kv_backend.py:1111-1216 | after any gate read, a write clears or moves no revocation in any later bucket if and only if the revision it expects is no later than the bucket's at the gate read |
| CasProtocol.GuessedRevisionClears | wakir_protocol/schemas/capability_policy_nats_kv_backend.py:1111-1216 | for every later revision, the bucket in which the write succeeds and clears a revocation |
| Classifier.RevocationEventClassifier.SeedFromRecords | wakir_protocol/schemas/capability_policy_nats_kv_backend.py:2103-2128 | seeds the per-key instants in record order, and stops at the first record without a key with the earlier ones seeded |
| Classifier.RevocationEventClassifier.Classify | wakir_protocol/schemas/capability_policy_nats_kv_backend.py:2130-2281 | the decision table on the last instant seen, and the map after the event |
| Classifier.LiveCapabilityPolicySnapshot.Apply | wakir_protocol/schemas/capability_policy_nats_kv_backend.py:1850-1873 | the view after an event; the revision counter never goes back |
| Classifier.ClassifierTracksSnapshot | wakir_protocol/schemas/capability_policy_nats_kv_backend.py:2130-2281 | fed alike, the classifier's map is at all times the revocation instants of the live snapshot |
| StreamKinds.KindsOnTheBucket | wakir_protocol/schemas/capability_policy_nats_kv_backend.py:2130-2281 | for each kind, exactly when an event is of it, by the live instants of the key before and after the event and the marker |
| StreamKinds.QuietIffSteady | wakir_protocol/schemas/capability_policy_nats_kv_backend.py:2130-2281 | over a whole history the classifier reports no breach and no explicit unrevoke if and only if no revocation instant changes between tombstones |
| StreamKinds.SeededFollowsBucket | wakir_protocol/schemas/capability_policy_nats_kv_backend.py:2103-2281 | a classifier and a live view seeded from a snapshot read key by key and fed any overlapping suffix have, for every key, the bucket's instant and record |
| PublisherCli.RunRevoke | wakir_protocol/schemas/publisher_cli.py:1645-1890 | read, rewrite, write, with the exit code of each branch |
| PublisherCli.RunUnrevoke | wakir_protocol/schemas/publisher_cli.py:1892-2130 | read, rewrite, write, with the exit code of each branch |
| PublisherCli.RevokeRevokes | wakir_protocol/schemas/publisher_cli.py:1645-1890 | for all flags, a revoke succeeds exactly when the flags are well formed, the target is live, and the write is unconditional or the expected revision matches and no other instant is set; then only the revocation changes, otherwise nothing does |
| PublisherCli.UnrevokeUnrevokes | wakir_protocol/schemas/publisher_cli.py:1892-2130 | for all flags, an unrevoke succeeds exactly when they are well formed and the target is revoked, and records the old instant in the marker |
| PublisherCli.RevokedFields | wakir_protocol/schemas/publisher_cli.py:1775-1800 | the record that a revoke leaves, field by field |
| PublisherCli.UnrevokedFields | wakir_protocol/schemas/publisher_cli.py:2040-2070 | the record that an unrevoke leaves, field by field, with its marker |
| PublisherCli.RevokeCodes | wakir_protocol/schemas/publisher_cli.py:1645-1890 | exactly when a revoke ends with each exit code |
| PublisherCli.UnrevokeCodes | wakir_protocol/schemas/publisher_cli.py:1892-2130 | exactly when an unrevoke ends with each exit code |
| PublisherCli.UnrevokeUndoesRevoke | wakir_protocol/schemas/publisher_cli.py:1645-2130 | revoke then unrevoke gives the policy back |
| PolicyRuns.StepKind | wakir_protocol/schemas/capability_policy_nats_kv_backend.py:2130-2281 | a disciplined step is never classified a breach, and an explicit unrevoke exactly if it is one |
| PolicyRuns.DisciplinedRunsNeverBreach | wakir_protocol/schemas/capability_policy_nats_kv_backend.py:2130-2281 | over every disciplined run from the empty bucket no event is a breach, and explicit unrevokes are exactly at the unrevoke steps |
| PolicyRuns.DisciplinedRunsAreSteady | wakir_protocol/schemas/capability_policy_nats_kv_backend.py:1176-1200 | a disciplined run without unrevokes never changes a revocation instant between tombstones |
| PolicyRuns.LateUnrevokeClassified | wakir_protocol/schemas/publisher_cli.py:1980-2082 | an unrevoke whose read and write have any steps between them is classified explicit exactly if the live instant is still the one read, and a breach exactly if another one is set |
| Replication.Replicator.BootstrapRecord | wakir_protocol/schemas/capability_policy_replication.py:436-478 | one source record: filtered, already equal, refused, or put, with its counter |
| Replication.Replicator.Bootstrap | wakir_protocol/schemas/capability_policy_replication.py:374-480 | the loop over the source snapshot in key order |
| Replication.Replicator.ApplyPutEvent | wakir_protocol/schemas/capability_policy_replication.py:613-698 | a PUT under either conflict policy, with every counter and halting flag |
| Replication.Replicator.ConsumeEvent | wakir_protocol/schemas/capability_policy_replication.py:700-745 | the filter, which sees the event with its revision, then PUT or tombstone |
| Replication.Replicator.Run | wakir_protocol/schemas/capability_policy_replication.py:747-800 | bootstrap if asked, then the stream until it ends, raises, or breaks at an envelope that does not decode, which is counted and raised if the flag says so |
| FilteredStreams.FilterBeforeOrDuring | wakir_protocol/schemas/capability_policy_replication.py:700-745 | for every filter, stream and target: the run is the unfiltered run over the accepted events alone, but for the counter of skipped events |
| FilteredStreams.RejectedKeyKept | wakir_protocol/schemas/capability_policy_replication.py:735-740 | a key with no accepted event keeps its record on the target |
| FilteredStreams.RejectedKeyAbsent | wakir_protocol/schemas/capability_policy_replication.py:374-480 | a key whose events the filter rejects never appears on an empty target, after bootstrap and stream |
| FilteredStreams.EveryEventCounted | wakir_protocol/schemas/capability_policy_replication.py:700-745 | in a run that does not stop every event is counted once, the rejected ones as skipped |
| FilteredStreams.AppliedPutsAppended | wakir_protocol/schemas/capability_policy_replication.py:613-745 | the target grows by one operation for each PUT counted as applied, and else only by tombstones |
| FilteredStreams.NoConflictAlone | wakir_protocol/schemas/capability_policy_replication.py:613-698 | a replicator alone on its target never meets a revision conflict, so every accepted PUT that is not applied is counted as a breach |
| FilteredStreams.BootstrapCounted | wakir_protocol/schemas/capability_policy_replication.py:436-478 | the items that the filter rejects are counted as skipped, and the target grows by one PUT for each item counted as applied |
| FilteredStreams.TwoBootstrapsCounted | wakir_protocol/schemas/capability_policy_replication.py:436-478 | the bootstrap of an empty target applies every accepted item and the same again finds each of them there, counter by counter |
| Convergence.SnapshotIsStaggered | wakir_protocol/schemas/capability_policy_nats_kv_backend.py:1251-1273 | a snapshot taken while nothing is written is the special case in which every key is read at the same point |
| Convergence.SnapshotLoopIsStaggered | wakir_protocol/schemas/capability_policy_nats_kv_backend.py:1251-1273 | the loop that lists the keys and then reads each at its own later point gives a staggered snapshot, whatever is written meanwhile |
| Convergence.BootstrapKeepsOthers | wakir_protocol/schemas/capability_policy_replication.py:436-478 | keys the filter accepts no item for are untouched |
| Convergence.BootstrapAccountsForAll | wakir_protocol/schemas/capability_policy_replication.py:436-478 | the four bootstrap counters grow together by exactly the number of source records |
| Convergence.BootstrapIdempotent | wakir_protocol/schemas/capability_policy_replication.py:436-478 | an immediate second bootstrap applies nothing and changes nothing |
| Convergence.ConsumeKeepsKey | wakir_protocol/schemas/capability_policy_replication.py:613-745 | one event keeps the convergence invariant of every key |
| Convergence.AcceptedKeyConverges | wakir_protocol/schemas/capability_policy_replication.py:374-480 | for any filter and each key whose events it accepts: bootstrap and any overlapping suffix leave the target with the source's record of the key if the source history settles, or a halting run stops at a breach |
| Convergence.ReplicationConverges | wakir_protocol/schemas/capability_policy_replication.py:374-480 | from an empty target, a snapshot read key by key and then any overlapping history suffix leave target equal to source, under either conflict policy, if the source history settles; with the halting flag the run may instead stop at a breach |
| Convergence.BrokenStreamKeepsTheRest | wakir_protocol/schemas/capability_policy_replication.py:747-800 | a stream that breaks after a history has been replayed leaves the target equal to that history, with the broken envelope counted once |
| Halting.UnrefusedRunsFinish | wakir_protocol/schemas/capability_policy_replication.py:613-698 | if no replay brings a record to one that refuses it, no run stops at a breach |
| PolicyReplication.PoliciesConvergeIff | wakir_protocol/schemas/capability_policy_replication.py:613-745 | for policies, convergence from every snapshot and suffix holds if and only if the source history settles, and with the halting flag if and only if no replay ever brings a record to one that refuses it |
| PolicyReplication.DisciplinedSourcesConverge | wakir_protocol/schemas/capability_policy_replication.py:374-480 | every source written only by disciplined writers that do not unrevoke is reached, unless the halting flag is set and the run stops |
| PolicyReplication.RevocationSticks | wakir_protocol/schemas/capability_policy_replication.py:348-371 | over any run without a tombstone of the key a revoked target record stays revoked at the same instant, and the gate over a target snapshot never matches it |
| PolicyReplication.SnapshotRegistry | wakir_protocol/schemas/capability_policy_nats_kv_backend.py:1275-1298 | the gate registry holds each issuer's policies in key order |
| PolicyReplication.AsRegistry | wakir_protocol/schemas/capability_policy_nats_kv_backend.py:1875-1889 | the registry frozen from a live snapshot, in key order |
| PolicyReplication.LiveRegistryIsCurrent | wakir_protocol/schemas/capability_policy_nats_kv_backend.py:1850-1889 | a live snapshot that followed the stream gives the gate the same policies as a new snapshot of the bucket |
| LiveViews.LiveViewRefinesBucket | wakir_protocol/schemas/capability_policy_nats_kv_backend.py:1565-1570 | a view filled from a snapshot and fed any history suffix that starts no later ends equal to the final bucket |
| Gate.CoversTripleLoop | wakir_protocol/schemas/registered_by_capability.py:288-301 | true exactly when some pattern pair matches layer and name |
| Gate.CheckRegisteredByCapability | wakir_protocol/schemas/registered_by_capability.py:498-635 | the loop decides as specified: the first full match, or the first policy at the highest denial rank |
| Gate.CapabilityPolicyRegistry.AddPolicy | wakir_protocol/schemas/registered_by_capability.py:347-363 | appends to the issuer's list and leaves the others alone |
| Gate.DecisionUnique | wakir_protocol/schemas/registered_by_capability.py:498-635 | the specification leaves exactly one decision |
| Gate.OrderNeverMatters | wakir_protocol/schemas/registered_by_capability.py:498-635 | verdict and source do not depend on the order or repetition of policies |
| Gate.AddingNeverDenies | wakir_protocol/schemas/registered_by_capability.py:498-635 | adding policies never turns allow into deny |
| Gate.DocumentedOrderMetIff | wakir_protocol/schemas/registered_by_capability.py:462-464 | on a denial the code reports the documented source if and only if a policy is revoked or the policies fail at most one of kid, triple and window |
| Gate.WindowReportedOverKid | wakir_protocol/schemas/registered_by_capability.py:590-612 | two policies on which it reports the window and the documented order says kid |
| Gate.AllowsIff | wakir_protocol/schemas/registered_by_capability.py:386-426 | the gate allows exactly when some policy passes revocation, disabled, kid, triple and window |
| Gate.MatchIff | wakir_protocol/schemas/registered_by_capability.py:386-426 | on the policy's fields: it matches exactly when it is enabled, lists the kid and a pattern pair, and the instant is in [not_before, not_after) and before the revocation; without an instant, when it carries no revocation |
| Gate.AllowedIffInForce | wakir_protocol/schemas/registered_by_capability.py:498-635 | the gate allows exactly when some policy of the issuer does so, and names one that does |
| Gate.DenialOnFields | wakir_protocol/schemas/registered_by_capability.py:498-635 | what the source of a denial says about the fields of the policy it names |
| Gate.DenialsOutranked | wakir_protocol/schemas/registered_by_capability.py:498-635 | a revoked policy outranks every other denial, a missed window all but that, a missing triple all but these two |
| SchemaRegistry.TripleRoundTrip | wakir_protocol/schemas/registry_nats_kv_backend.py:290-340 | parsing a derived key gives the triple back |
| SchemaRegistry.KeyOfParsedTriple | wakir_protocol/schemas/registry_nats_kv_backend.py:319-340 | a key that parses is the key of its triple exactly when the layer is recognised |
| SchemaRegistry.GatedIff | wakir_protocol/schemas/registry_nats_kv_backend.py:684-701 | an entry has a key exactly when its body holds the schema id under $id, the digest is that of the body's bytes, the layer is recognised, and name and version are path components; and what the key is |
| SchemaRegistry.StoredEntriesPassGates | wakir_protocol/schemas/registry_nats_kv_backend.py:671-789 | every entry that any interleaving of writers leaves in the history has passed the gates |
| SchemaRegistry.StoredDigestFixesBody | wakir_protocol/schemas/registry_nats_kv_backend.py:684-701 | entries that pass the gates have equal digests if their bodies are equal as JSON, and only then unless the digest collides on the bytes of the two bodies; equal keys if and only if their triples are equal |
| SchemaRegistry.BodyBytesAreCanonicalIff | wakir_protocol/schemas/registry_nats_kv_backend.py:380-396 | the digested bytes are the RFC 8785 bytes exactly when no object has keys the two orders put differently |
| SchemaRegistry.EntryRoundTrip | wakir_protocol/schemas/registry_nats_kv_backend.py:415-499 | the stored text of every entry parses to a JSON value that decodes to the entry with its body members sorted |
| StoredForms.EntrySpelled | wakir_protocol/schemas/registry_nats_kv_backend.py:415-450 | the bytes of an entry decode to a JSON object that spells each field under its name |
| SchemaRegistry.EntriesByteEqualIff | wakir_protocol/schemas/replication.py:234-248 | envelopes are byte-equal exactly when the entries come back from a bucket equal |
| SchemaRegistry.InMemorySchemaRegistry.Add | wakir_protocol/schemas/registry_nats_kv_backend.py:547-551 | adds or replaces under the entry's own key |
| SchemaRegistry.InMemorySchemaRegistry.KeysSorted | wakir_protocol/schemas/registry_nats_kv_backend.py:567-573 | every key once, in increasing order |
| SchemaRegistry.InMemorySchemaRegistry.AddAll | wakir_protocol/schemas/registry_nats_kv_backend.py:1270-1275 | every entry of another registry under its own key, whatever key it had there; stops where a key derivation raises |
| SchemaRegistry.LiveSchemaSnapshot.Of | wakir_protocol/schemas/registry_nats_kv_backend.py:1265-1275 | a new live view of any initial registry, each entry under its own key; none if a key derivation raises |
| SchemaRegistry.LiveSchemaSnapshot.Apply | wakir_protocol/schemas/registry_nats_kv_backend.py:1277-1297 | the view after an event; the revision counter never goes back |
| SchemaRegistry.LiveSchemaSnapshot.AsRegistry | wakir_protocol/schemas/registry_nats_kv_backend.py:1299-1309 | a new registry object with the current entries, which no later event modifies |
| SchemaRegistry.SchemaWritersKeepKeys | wakir_protocol/schemas/registry_nats_kv_backend.py:671-789 | every interleaving of schema writers keeps each entry under its own key |
| SchemaRegistry.SchemasConverge | wakir_protocol/schemas/replication.py:305-336 | schema replication converges from every source history, with no condition on it |
| SignatureKeys.Resplit | wakir_protocol/identity_substrate/aip_signature_verification_cache.py:258-273 | the one way to split a joined signature block in which alg and signature hold no NUL |
| SignatureKeys.JoinedEqualIff | wakir_protocol/identity_substrate/aip_signature_verification_cache.py:258-273 | joined key texts are equal if and only if body, public key and the resplit block are |
| SignatureCache.AipSignatureVerificationCache.VerifySignature | wakir_protocol/identity_substrate/aip_signature_verification_cache.py:376-427 | lookup, expiry and miss path, with every counter |
| SignatureCache.AipSignatureVerificationCache.ClearAll | wakir_protocol/identity_substrate/aip_signature_verification_cache.py:429-439 | drops the entries and keeps the counters |
| SignatureCache.AipSignatureVerificationCache.EvictAllExpired | wakir_protocol/identity_substrate/aip_signature_verification_cache.py:441-466 | removes the stale keys and counts them |
| SignatureCache.AipSignatureVerificationCache.InsertEntry | wakir_protocol/identity_substrate/aip_signature_verification_cache.py:472-485 | drops the oldest entry when full, then appends |
| SignatureCache.RunKeeps | wakir_protocol/identity_substrate/aip_signature_verification_cache.py:376-492 | after any run the order is a duplicate-free listing of the entries within the bound, and misses = stored + evicted + expired + cleared |
| SignatureCache.AnswersAreFresh | wakir_protocol/identity_substrate/aip_signature_verification_cache.py:376-427 | after any run and at any time a call whose alg and signature hold no NUL is answered as the verifier answers, or its key text and that of an earlier call of the run are different and have the same hash |
| SignatureLaws.PayloadsEqualIff | wakir_protocol/identity_substrate/aip_signature_verification_cache.py:209-226 | two documents have one payload exactly when they are equal as JSON but for document_signature, or the hash collides on their bytes |
| SignatureLaws.VerdictIff | wakir_protocol/identity_substrate/aip_signing.py:139-197 | exactly which blocks get a verdict from the verifier, and which verdict |
| SignatureLaws.HitsAreYoung | wakir_protocol/identity_substrate/aip_signature_verification_cache.py:376-427 | after any run, an answer from the cache was given to a call of the run with the same key less than the time to live before |
| SignatureLaws.MissIsRemembered | wakir_protocol/identity_substrate/aip_signature_verification_cache.py:376-427 | after a miss the same call is answered alike, without the verifier exactly within the time to live |
| SignatureLaws.ExpiryCounted | wakir_protocol/identity_substrate/aip_signature_verification_cache.py:401-412 | a call counts an expiry exactly when its own entry is there and too old |
| SignatureLaws.SweepCounted | wakir_protocol/identity_substrate/aip_signature_verification_cache.py:441-466 | a sweep counts every entry it removes as expired and moves no other counter |
| SignatureLaws.VerdictsCounted | wakir_protocol/identity_substrate/aip_signature_verification_cache.py:376-427 | each call that gets a verdict is counted once, as a hit or as a miss, and no other is |
| SignatureLaws.OldestEvicted | wakir_protocol/identity_substrate/aip_signature_verification_cache.py:472-485 | a full cache drops one of its oldest entries for a new one, and keeps the others |
| SignatureCache.AlwaysFreshIff | wakir_protocol/identity_substrate/aip_signature_verification_cache.py:229-273 | a complete call is, such collisions aside, always answered as by the verifier if and only if its alg and signature hold no NUL, its signature is not ASCII, or the resplit call would be refused |
| SignatureCache.IncompleteRaises | wakir_protocol/identity_substrate/aip_signature_verification_cache.py:234-255 | an incomplete block raises KeyError; the verifier raises ValueError, or ignores a missing kid |
| SignatureCache.EvictExpiredKeeps | wakir_protocol/identity_substrate/aip_signature_verification_cache.py:441-466 | the sweep leaves exactly the fresh entries, so a lookup at the same instant expires nothing |
| SignatureCache.SweepAfterAnyRun | wakir_protocol/identity_substrate/aip_signature_verification_cache.py:441-466 | after any run with a clock that does not go back, the sweep removes exactly a prefix of the order |
| KidResolver.ResolveKid | wakir_protocol/identity_substrate/kid_resolver.py:144-307 | succeeds exactly when the document and the one entry of the kid pass every check, and returns that entry's key |
| KidResolver.ListResolvableKids | wakir_protocol/identity_substrate/kid_resolver.py:310-411 | a strictly increasing list of exactly the kids whose one entry passes the filters; errors only on the document's shape |
| KidResolver.CountOne | wakir_protocol/identity_substrate/kid_resolver.py:359-367 | counting to one means there is exactly one entry |
| KidResolver.EntryResolvesOnFields | wakir_protocol/identity_substrate/kid_resolver.py:219-307 | exactly which fields make an entry resolve, and the answer on those fields |
| KidResolver.ResolvesWithinItsWindow | wakir_protocol/identity_substrate/kid_resolver.py:252-283 | the instants at which an entry with no other obstacle resolves are those from its first bound up to, but not including, its last |
| KidResolver.ResolvesIffListed | wakir_protocol/identity_substrate/kid_resolver.py:144-411 | a kid resolves if and only if it is listed, all entries are mappings, and a time is given or its own windows parse |
| KidResolver.ListingAgreesIff | wakir_protocol/identity_substrate/kid_resolver.py:316-325 | the listing is the set of kids that resolve if and only if no entry passes the filters, or all entries are mappings and the windows of the passing entries parse |
| KidResolver.MalformedWindowIsListed | wakir_protocol/identity_substrate/kid_resolver.py:392-405 | without a time, a kid with a malformed window is listed and does not resolve |
| EtagCache.FetchWithRedirectBudget | wakir_protocol/identity_substrate/aip_https_backend.py:419-483 | the redirect loop, error by error; at most one request more than the budget, all https |
| EtagCache.RequestsBounded | wakir_protocol/identity_substrate/aip_https_backend.py:419-483 | the bound on requests and their scheme, for every server |
| FetchLaws.IsHttpsIff | wakir_protocol/identity_substrate/aip_https_backend.py:380-396 | the scheme test looks at the text before the first separator, in any case |
| FetchLaws.FetchOutcome | wakir_protocol/identity_substrate/aip_https_backend.py:369-483 | a URL that is not https is refused unasked; any other outcome is that of the last reply of a chain of https redirects within the budget |
| FetchLaws.FetchSucceedsIff | wakir_protocol/identity_substrate/aip_https_backend.py:369-483 | a fetch returns a page exactly when such a chain leads to a 2xx page that is a JSON object within the size limit |
| EtagCache.HTTPSAipResolverCache.Put | wakir_protocol/identity_substrate/aip_https_backend.py:694-708 | replaces and moves to the end, or evicts the head when full |
| EtagCache.HoldsMostRecent | wakir_protocol/identity_substrate/aip_https_backend.py:694-708 | the order is the end of the recency list of all puts: what is evicted is the least recently put |
| EtagCache.PutStaysBounded | wakir_protocol/identity_substrate/aip_https_backend.py:694-708 | the order stays a duplicate-free listing of the entries within the bound |
| EtagCache.HTTPSAipResolver.ResolveUri | wakir_protocol/identity_substrate/aip_https_backend.py:640-667 | with and without a cache, every outcome and the cache afterwards |
| EtagCache.ChaseWithTag | wakir_protocol/identity_substrate/aip_https_backend.py:419-483 | a tag changes the end of a redirect chain only into a 304 for a page with that tag |
| EtagCache.CacheIsTransparent | wakir_protocol/identity_substrate/aip_https_backend.py:640-667 | in a run of requests to honest servers (304 only for the current tag) in which visits that end with the same tag verify to the same document, every resolve returns what it would return without the cache |
| EtagCache.TransparentIff | wakir_protocol/identity_substrate/aip_https_backend.py:640-667 | for any set of visits, every run of them to honest servers is transparent if and only if they agree in that way |
| EtagCache.TransparentWithFixedEnds | wakir_protocol/identity_substrate/aip_https_backend.py:640-667 | it is enough that each URL's tag fixes its page and that no redirect is followed or each requested URI always ends at one URL |
| EtagCache.MovedRedirectMisleads | wakir_protocol/identity_substrate/aip_https_backend.py:419-483 | it is not enough that each URL's tag fixes its page: after a redirect moves to a URL with the same tag the cache returns the old document |

## Left out

- Floats in JSON, and values that are not JSON (a TypeError in the source): library formatting and type dispatch.
- `_schema_pure.py` date-time, URI and regular-expression tests are parameters, an invalid pattern included; the other
  errors that a keyword of the wrong shape causes are one outcome, `Malformed`.
- The rfc8785 package, which the signing module prefers when it is installed: taken to print what the pure printer prints.
- json.loads on text the printers do not write (white space, floats, repeated keys): the parser covers the printed form.
- Buckets.Kv: does not model the revisions of a real NATS server, only the contract that the repository's own store has.
- Replicators with other writers on the target, and streams that replay only the last value per key: the stated
  guarantees do not hold there.
- Replication.Replicator.Run: does not model records of the target that fail to decode while an event is applied, nor a
  source snapshot that fails before the bootstrap.
- Backends.Backend.Snapshot: does not model writes during its own loop; `Convergence.ReadKeys` is the loop beside writers.
- Naive datetimes, whose comparison and rendering raise in Python: instants are zone-aware.
- SchemaRegistry.EntryRoundTrip: does not cover envelopes whose text fields hold other JSON types, which the source's decoder lets through.
- EtagCache.FetchWithRedirectBudget: does not model the parsed max-age, and does not count redirects that the default opener of the Python library follows by itself; it counts the calls of the opener.
- SignatureCache.AipSignatureVerificationCache.VerifySignature: does not model documents the canonicaliser refuses, such as ones with floats outside its range.
- Receipts, printed output, exit-code numbers, argument parsing, connection handling, async scheduling, adapter shims.
- Ed25519, ECDSA, SHA-256 and other cryptography; transports; persona, recovery, scoring and document-builder modules:
  they would add library behaviour or easy members.
