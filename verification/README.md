# provii-issuer: protocols over shared state, in Dafny

provii-issuer is a Cloudflare Worker that issues age credentials. Its hard parts are small protocols over state
that many requests share: counters in KV, signing-key records in KV under a lease lock, an issuer configuration
and a nonce object, and per-isolate caches in front of a secret store. This project models those protocols as
state machines whose steps are single KV, lock, nonce or cache operations, and proves what holds over every run;
the code that one request executes is modelled by classes and methods proved against the functions the machines use.

| file | what it models |
|---|---|
| `Common.dfy`, `Decimal.dfy` | machine integers; Rust's decimal printing and parsing, inverse to each other |
| `RateLimiting.dfy` | the one-key and sharded hourly counters, the round-robin cursor, bursts |
| `ShardedInterleaving.dfy` | arbitrary interleavings of sharded checks, one KV operation at a time, and their admission bound |
| `AdmissionRuns.dfy` | runs that reach the bound or break it, and exactly when overlap can break it |
| `SigningKeys.dfy` | version names, rotation as a list of puts that may stop anywhere after loads that may fail, key choice and health |
| `LeaseLock.dfy` | the lease lock, and what its holders may rely on |
| `RotationProtocol.dfy` | concurrent signing-key rotations under the lease lock |
| `Attestation.dfy` | one attestation-key rotation, one trial verify, one redemption |
| `AttestationRuns.dfy` | interleaved attestation-key rotations under the lease lock, signing calls and redemptions |
| `BlindIssuance.dfy` | interleaved blind-issuance requests, nonce retention, credential dates |
| `SecretCache.dfy`, `AdminKey.dfy`, `Kek.dfy` | the TTL caches, admin keys, KEK envelopes and the stacked preflight cache |
| `CanonicalMessage.dfy` | the canonical HMAC message and a parser that inverts it |
| `ShardHash.dfy`, `BitUnpacking.dfy`, `Cors.dfy` | FNV-1a, MSB-first unpacking, the subdomain test |

Verify everything with `dafny verify dfyconfig.toml`.

## Assumptions

- KV reads that succeed see the latest write. Failing operations are inputs: reads and writes of the counters
  (`ShardedCheck`), listings, loads and puts of a rotation, reads of the lock, lookups, nonce calls and config writes.
  Only the interleaved counter machine (`ShardedInterleaving`) assumes that its KV operations succeed.
- The nonce object's check-and-set and each lock request are single atomic steps, and lock tokens are never repeated.
- The clock does not go backwards within a run.
- Cryptography is ideal: a signature, envelope or hash is accepted under its own key (and associated data) and
  under nothing else. Different kids have different key material.
- Secret-store reads happen at some moment between the start and the end of the fetch that makes them.

## Where the code and its documentation disagree

- `src/rate_limiting.rs:519-523` says that concurrent requests can push the sharded counter over its limit by about
  K - 1 = 7. The bound is limit + C - 1 with C the most requests in flight, C is not limited by K, and the bound
  is reached for every C (`AdmissionRuns.BoundAttained`), as long as no two requests overlap between re-read and
  write on one shard. Over all runs, overlapping or not, it holds exactly when the limit is at most one or C is one
  (`AdmissionRuns.BoundHoldsIff`); otherwise some run lets limit + C requests through.
- `src/key_rotation.rs:187-190` relies on the lock alone. The store has no fence against a rotation that stalls past
  its 30-second lease: its late put replaces a key stored meanwhile (`RotationProtocol.LatePutOverwritesKey`). Within
  the leases every run is equivalent to a serial one (`RotationProtocol.RotationsSerialise`), and this is exact: runs
  whose KV steps may come less than d seconds late always serialise only for d = 0
  (`RotationProtocol.AlwaysSerialisableIff`).
- `src/routes.rs:2425-2427` relies on its lock in the same way. If a rotation's config put comes after its lease, the
  kid that another rotation has made the default meanwhile drops out of both slots, and attestations signed under it
  are refused at once (`AttestationRuns.LatePutRefusesKid`). Only the put matters, and again no lateness at all is
  safe (`AttestationRuns.AlwaysLastTwoIff`).
- A record whose load fails is skipped without an error (`src/key_rotation.rs:121-127`). If that record holds the
  highest version, the next rotation takes its name and replaces its key material
  (`SigningKeys.FailedLoadReplacesKey`). A rotation keeps every stored key exactly when the name it takes is free
  (`SigningKeys.RotationEvolvesIff`), for which it is enough that the highest version loads and is below u32::MAX
  (`SigningKeys.NextVersionIsNew`). One active key is left exactly when every other active record loaded
  (`SigningKeys.OneActiveIff`).
- The lock object reads its record with errors ignored (`src/durable_objects/resource_lock.rs:737`), so a failed read
  grants a held lock. Mutual exclusion holds exactly as long as this does not happen during someone's lease
  (`LeaseLock.AcquireKeepsIff`).
- The steps printed at `tools/key-rotation/src/main.rs:1257-1258` replace `ISSUER_KEK` before they set
  `ISSUER_KEK_PREVIOUS`. A pair fetched between the two writes lacks the old key and is served for up to five minutes,
  even if the gap lasts one millisecond (`Kek.CurrentFirstLosesOldKey`). Every other fetch is safe, whatever the order
  of the writes (`Kek.EnvelopeSurvivesOneRotation`); `Kek.EveryFetchHoldsIff` says exactly which write orders are safe
  for all fetches. A previous slot that fails to read is treated as absent, which `Kek.EnvelopeSurvivesIff` covers.

## Model

| member | source | states |
|---|---|---|
| Decimal.ParseOfPrint | src/key_rotation.rs:472-479 | parsing a printed number gives it back exactly when it fits the type, and an error otherwise |
| Decimal.ParseIff | src/key_rotation.rs:472-479 | exactly which texts parse as an unsigned number, and to which: an optional '+', any zeros, then the printed number, if it fits |
| Decimal.PrintInjective | src/key_rotation.rs:479 | different numbers print differently |
| RateLimiting.RateLimitKv.CheckKvCounterReadOnly | src/rate_limiting.rs:647-668 | the count under a key; absent or unparseable text is 0, a failed read is reported |
| RateLimiting.RateLimitKv.CheckKvCounter | src/rate_limiting.rs:241-286 | the answer and the new count of read-compare-write with a failing read or write, and that no other key changes |
| RateLimiting.RateLimitKv.NextBlindShard | src/rate_limiting.rs:552-556 | the cursor residue modulo 8 and a cursor that wraps at 2^64 |
| RateLimiting.RateLimitKv.SumShards | src/rate_limiting.rs:590-609 | the loop's saturating sum up to the first failed read, and failure exactly when one of the eight reads fails |
| RateLimiting.RateLimitKv.CheckBlindIssuanceSharded | src/rate_limiting.rs:573-640 | answer, shards and cursor for every pattern of failing operations; only the picked shard's key can change |
| RateLimiting.CountAtMeans | src/rate_limiting.rs:647-668 | an absent key and text that spells no u32 count as 0; text that spells n counts as n |
| RateLimiting.ShardedAnswerMeans | src/rate_limiting.rs:590-626 | a request is admitted exactly when all eight reads succeed and the true total is under the limit; a failed read never admits; the reported count |
| RateLimiting.ShardedEffectMeans | src/rate_limiting.rs:628-640 | an admitted request adds one to the picked shard, if its re-read and write succeed, and moves the cursor; everything else stays, and a denied request changes nothing |
| RateLimiting.FreshHourAdmitsLimit | src/rate_limiting.rs:573-640 | when nothing readable is stored for an issuer and hour, the first `limit` sequential calls are admitted, counted 1, 2, and so on, and the rest denied, wherever the cursor stands |
| RateLimiting.SatSumIsCappedSum | src/rate_limiting.rs:590-609 | the saturating sum is the true sum capped at u32::MAX |
| RateLimiting.ShardKeyInjective | src/rate_limiting.rs:591-592 | counters of different issuers, shards or hours never share a key |
| RateLimiting.ShardKeysDiffer | src/rate_limiting.rs:591-592 | the eight shard keys of an issuer and hour are different |
| RateLimiting.ShardedRefinesOneKey | src/rate_limiting.rs:348-373 | for every request sequence, limits, cursor and spread of the total, the sharded counter answers exactly as the one-key counter |
| RateLimiting.PickAt | src/rate_limiting.rs:535-556 | the i-th pick is the cursor plus i modulo 8, also across the 64-bit wrap |
| RateLimiting.EightPicksDiffer | src/rate_limiting.rs:535-556 | any eight consecutive picks are pairwise different |
| RateLimiting.PicksBalanced | src/rate_limiting.rs:535-556 | the exact number of times each shard is picked in n picks: n/8 rounded down or up |
| RateLimiting.PickCountsWithinOne | src/rate_limiting.rs:535-556 | pick counts of any two shards differ by at most one |
| RateLimiting.BurstsAllOrNothing | src/rate_limiting.rs:241-286 | when each burst reads before it writes, the bursts up to the limit are admitted whole and the rest denied whole |
| RateLimiting.SequentialThenBurstBound | src/rate_limiting.rs:221-286 | a sequential history and one burst of N admit at most limit + N - 1 |
| ShardedInterleaving.TotalIsExactIffNoOverlap | src/rate_limiting.rs:573-640 | in every interleaving the shard total equals the completed admissions if and only if no two requests overlapped between re-read and write on a shard |
| ShardedInterleaving.AdmissionsBounded | src/rate_limiting.rs:573-640 | in every interleaving without such overlap, if limit + C fits u32, admissions completed or under way are at most limit + C - 1 |
| ShardedInterleaving.SmallCasesBounded | src/rate_limiting.rs:573-640 | with a limit of at most one, or one request at a time, the bound holds in every interleaving, overlapping or not |
| AdmissionRuns.BoundAttained | src/rate_limiting.rs:514-528 | for every positive limit and every C whose sum fits u32 some run without overlap reaches that bound |
| AdmissionRuns.OverlapBreaksBound | src/rate_limiting.rs:614-640 | for every limit and every C of two or more some run with at most C in flight loses a count and lets limit + C requests through |
| AdmissionRuns.BoundHoldsIff | src/rate_limiting.rs:573-640 | over all runs with at most C in flight the bound holds if and only if the limit is at most one or C is one |
| SigningKeys.NextVersionFromKeys | src/key_rotation.rs:464-480 | the loop computes the maximum parseable version plus one, saturating |
| SigningKeys.VersionNumberIff | src/key_rotation.rs:472-476 | a name has number n exactly when it is 'v' and a text for n, padded with zeros or signed '+' too, that fits u32 |
| SigningKeys.MaxVersionIsUpper | src/key_rotation.rs:464-480 | no listed version that parses exceeds the maximum |
| SigningKeys.MaxVersionIsReached | src/key_rotation.rs:464-480 | a positive maximum is the number of some listed version |
| SigningKeys.NextVersionIsNew | src/key_rotation.rs:464-480 | if the highest stored version loads and is below u32::MAX, the next name equals no stored name and its number exceeds all stored ones, whatever unparseable, zero-padded or '+'-prefixed names there are |
| SigningKeys.NextVersionCollidesIff | src/key_rotation.rs:464-480 | if the highest stored version loads, the next name is already stored if and only if v4294967295 is |
| SigningKeys.FailedLoadReusesName | src/key_rotation.rs:121-127 | if version n and all above fail to load and n - 1 loads, the next name is that of n |
| SigningKeys.FailedLoadReplacesKey | src/key_rotation.rs:121-127 | and a completed rotation then replaces the key stored under that name |
| SigningKeys.KeyRotationManager.GetAllSigningKeys | src/key_rotation.rs:86-129 | a listing that fails on any page is an error; otherwise the loop returns the records that load, in listing order |
| SigningKeys.ListVersions | src/key_rotation.rs:96-118 | the paging loop returns the stripped names up to the page that stops it, or fails with a page |
| SigningKeys.ListedIff | src/key_rotation.rs:96-118 | a listing that stops after page n names exactly the keys with the prefix on all pages up to n, in order |
| SigningKeys.ListedNoneIff | src/key_rotation.rs:96-118 | a listing fails exactly when it gets to a failing page, or runs out of answers, before any page stops it |
| SigningKeys.KeyRotationManager.DeprecateActive | src/key_rotation.rs:249-255 | the deprecating loop performs its puts in order up to the first failure |
| SigningKeys.KeyRotationManager.RotateInner | src/key_rotation.rs:207-280 | namespace and result after a rotation for every sequence of listing answers, every set of failing loads, and puts that fail after any number of successes; the stored and the returned record field by field |
| SigningKeys.CheckKeyHealth | src/key_rotation.rs:350-392 | each health flag holds exactly when the loaded keys have the defect it names, with expiry and the 30 days in literal seconds; healthy and critical are characterised; the days are those left to the last listed active key about to expire |
| SigningKeys.LoadedIff | src/key_rotation.rs:121-127 | what is loaded is exactly what is listed, stored, readable and not failing |
| SigningKeys.LoadedInOrder | src/key_rotation.rs:121-127 | loaded records come in listing order |
| SigningKeys.PartialRotation | src/key_rotation.rs:207-280 | a rotation cut short adds nothing, loses nothing and only deprecates, whatever it failed to load |
| SigningKeys.CompleteRotation | src/key_rotation.rs:207-280 | a complete rotation stores its key under the computed name, and besides it exactly the active keys whose load failed stay active |
| SigningKeys.OneActiveIff | src/key_rotation.rs:249-255 | at most one key is active afterwards if and only if every other active record had loaded |
| SigningKeys.CompleteRotationStoresGivenKey | src/key_rotation.rs:207-280 | a complete rotation stores exactly one more name, a version number, with the given ciphertext and public key, key id, clock, and expiry 31,536,000 s later; that record is the one then chosen for signing for the whole year, whenever it loads, if the other active ones had loaded |
| SigningKeys.RotationEvolvesIff | src/key_rotation.rs:207-280 | with a new keypair, a rotation loses and alters nothing but by deprecation if and only if it was cut short or its new name was free |
| SigningKeys.HistorySafe | src/key_rotation.rs:207-280 | over any history of complete and interrupted rotations with failing loads in which completed ones took free names, no key is lost, key material and expiry never change, and status only goes from Active to Deprecated |
| SigningKeys.HistorySafeIfHighestLoads | src/key_rotation.rs:464-480 | in particular if every rotation loads the highest stored version and none has reached u32::MAX |
| SigningKeys.HistorySafeIfAllLoads | src/key_rotation.rs:207-280 | from readable records whose numbers leave room for the rotations to come, if no load fails: no key is lost or altered but by deprecation, and at most max(initial, 1) active keys |
| SigningKeys.HistorySafeIff | src/key_rotation.rs:207-280 | with new keypairs every rotation of a history is safe if and only if each took a free name |
| SigningKeys.HistoryActiveBounded | src/key_rotation.rs:207-280 | if completed rotations loaded all active records there are never more than max(initial, 1) active keys |
| SigningKeys.VersionsIncrease | src/key_rotation.rs:464-480 | a completed rotation's version number is below that of every later rotation that loads the highest version |
| SigningKeys.CompleteRotationRecovers | src/key_rotation.rs:207-280 | after any history one complete rotation leaves its key as the only active one exactly when every other active record loaded; until it expires it is then chosen, and health is good, exactly when its record loads |
| SigningKeys.ChosenIsFirstUsable | src/key_rotation.rs:156-162 | a key is chosen exactly when some key is active and unexpired, and it is the first such in listing order |
| SigningKeys.SoleActiveKeyIsUsed | src/key_rotation.rs:156-162 | a sole active, unexpired key is the one chosen for signing in every listing order, and health is good, exactly when its record loads |
| RotationProtocol.ExclusiveStepIff | src/durable_objects/resource_lock.rs:705-827 | every step of a rotation and of the lock keeps whoever is within its lease the recorded holder, except exactly such a grant |
| RotationProtocol.LeavingLetsNextIn | src/key_rotation.rs:191-204 | a rotation that leaves in its lease and releases lets the next one in at once |
| LeaseLock.AcquireKeepsIff | src/durable_objects/resource_lock.rs:737-763 | a lock request keeps every lease exclusive if and only if it does not grant, after a failed read, a lock whose holder is still in its lease |
| LeaseLock.HeldForItsLease | src/durable_objects/resource_lock.rs:728-763 | a granted lock is refused to whoever can read it for exactly the time asked for, at most 30 seconds |
| LeaseLock.ReleaseFrees | src/durable_objects/resource_lock.rs:797-827 | after the holder's release the next request is granted at once, and a release with any other token changes nothing |
| RotationProtocol.RotationsSerialise | src/key_rotation.rs:187-280 | every interleaving of rotations that stay within their leases, with any loads failing, leaves the namespace of a serial history of complete and interrupted rotations |
| RotationProtocol.ConcurrentRotationsSafe | src/resource_lock.rs:81-143 | hence nothing is lost or altered but by deprecation if completed rotations took free names, and active keys never exceed max(initial, 1) if they loaded all active records |
| RotationProtocol.ConcurrentRotationsSafeIff | src/key_rotation.rs:187-280 | with new keypairs that condition is exact over every interleaving |
| RotationProtocol.ConcurrentRotationsSafeIfAllLoads | src/key_rotation.rs:187-280 | from readable records with room for the rotations to come, if no load fails, every in-lease interleaving is safe, with no hypothesis on the names it computes |
| RotationProtocol.ConcurrentVersionsDistinct | src/key_rotation.rs:187-280 | a completed rotation's version is below that of every rotation planned after it that loads the highest version |
| RotationProtocol.LatePutOverwritesKey | src/key_rotation.rs:207-280 | for every lateness allowed, however small, some run replaces the key material stored under a version |
| RotationProtocol.AlwaysSerialisableIff | src/resource_lock.rs:81-143 | all runs whose KV steps come less than d seconds after their leases leave what some serial order of the same rotations leaves, if and only if d is zero |
| Attestation.Issuer.RotateAttestationKey | src/routes.rs:2498-2613 | succeeds exactly when no storage call fails, the kid is not the default and both its records exist; then default moves to previous and the new kid to default, otherwise nothing changes; exactly when each obstacle is the one reported |
| AttestationRuns.UninterruptedIsRotateCheck | src/routes.rs:2498-2613 | the four storage calls of a rotation in the interleaved machine, with nothing in between, are that rotation |
| AttestationRuns.NewAttestationRedeemsIff | src/routes.rs:4111-4165 | after any run with puts in their leases, an attestation made by a signing call redeems exactly when its nonce is not held as used, the kid the call had read is still one of the last two and eligible, the attestation is fresh and storage answers |
| AttestationRuns.SignsIff | src/routes.rs:4118-4165 | in every state, an attestation is added exactly by a signing call whose kid has an active signing key, with that key and the given nonce and time |
| AttestationRuns.RetiredKidIsRefused | src/routes.rs:802-819 | disabling a signing key, or removing or deactivating a verifying record, takes effect on the next call |
| AttestationRuns.LeavingLetsNextIn | src/routes.rs:2430-2443 | a rotation that leaves in its lease and releases lets the next one in at once |
| Attestation.Issuer.EligibleCandidates | src/routes.rs:2965-3008 | a failed lookup ends the loop with an error; otherwise it keeps the eligible slots in order, and an empty result carries the reason of the last slot |
| Attestation.Issuer.TrialVerify | src/routes.rs:3132-3150 | the loop returns the first candidate that verifies |
| Attestation.Issuer.Redeem | src/routes.rs:3010-3150 | outcome and nonce store for every failure and both clocks; a nonce held as used is refused and nothing changes, and a verified redemption leaves its nonce held for two hours |
| Attestation.NonceGuards | src/routes.rs:3102-3117 | a nonce held as used is never verified nor answered as a failed verification; exactly which outcomes mark the nonce, for 7,200 s, and that nothing else changes |
| Attestation.ReplayRefused | src/routes.rs:3102-3117 | after a redemption that verified, or failed to, every redemption of the same nonce within two hours is refused, whatever it presents and whatever became of configuration and records |
| Attestation.FailuresInOrder | src/routes.rs:2965-3117 | exactly when a redemption ends in a storage error, an unknown issuer or a replay |
| Attestation.EligibilityMeans | src/routes.rs:802-819 | exactly when each answer of the eligibility check is given |
| Attestation.CandidateIff | src/routes.rs:802-819 | a candidate is exactly a tried slot whose record exists and is active, in its window and decodable |
| Attestation.FirstMatchIff | src/routes.rs:3132-3150 | something matches exactly when some candidate verifies, and the match is such a candidate |
| AttestationRuns.SlotsAreLastTwo | src/routes.rs:751-758 | after every interleaving of rotations, each a lock request, a config read, two lookups and a put, whose puts fall in their leases, the slots tried are exactly the last two default kids, newest first, and different |
| AttestationRuns.RedeemsIff | src/routes.rs:2965-3150 | after every such run of loading, editing, removing, disabling, rotating and signing, and with steps of others between the config read and the two lookups, an attestation redeems if and only if its nonce is not held as used, its kid was one of those two, eligible when looked up, the attestation is fresh and storage answers; and its own key verifies it |
| AttestationRuns.LatePutDropsKid | src/routes.rs:2588-2613 | for every lateness allowed, a run in which a late put leaves the last default kid but one in neither slot |
| AttestationRuns.LatePutRefusesKid | src/routes.rs:3132-3150 | and every redemption of the attestation signed under that kid is refused |
| AttestationRuns.AlwaysLastTwoIff | src/routes.rs:2425-2443 | all runs whose config puts come less than d seconds after their leases keep the last two default kids in the slots, if and only if d is zero |
| BlindIssuance.DatesExact | src/routes.rs:3371-3395 | the expiry is exactly d days after issue with 1 <= d <= min(policy, 36500) and no saturation; refusal exactly on zero |
| BlindIssuance.DatesLongest | src/routes.rs:3371-3395 | the expiry is the request's clock plus the largest number of days that policy, request and 36,500 permit |
| BlindIssuance.CredentialDatesExact | src/routes.rs:3371-3395 | every credential of every interleaving lasts a whole number of days, the largest that policy, request and 36,500 permit, at least one, unsaturated |
| BlindIssuance.UnheldNonceGetsCredential | src/routes.rs:3102-3395 | in every state, a request passes the nonce check exactly when its nonce is not held, and then gets a credential dated from its own clock exactly when the key verifies its fresh attestation and the days are not zero |
| BlindIssuance.RequestAloneGetsCredential | src/routes.rs:3102-3395 | an uninterrupted request with an unheld nonce gets a credential dated from the moment it began |
| BlindIssuance.SignerNeverRefuses | src/crypto.rs:136-140 | in every interleaving the signer's guard lets the dates of any request about to be signed pass |
| BlindIssuance.OneCredentialPerRetainedNonce | src/routes.rs:3102-3117 | in every interleaving, with stops and purges, two credentials on one nonce were consumed more than the retention time apart |
| BlindIssuance.OneCredentialPerAttestation | src/storage.rs:1201-1221 | if requests reach the nonce check within what retention leaves after freshness, no attestation yields two credentials |
| SecretCache.CacheSlot.GetOrFetch | src/secret_cache.rs:131-169 | a hit serves the entry untouched; a miss returns the fetch, and only a successful one replaces the entry, stamped with the call's time |
| SecretCache.CallAlone | src/secret_cache.rs:131-169 | one call of the interleaved machine with nothing in between does the same |
| SecretCache.ServedValuesAreCurrent | src/secret_cache.rs:78-169 | in every run of overlapping calls, slow and failed fetches, a served value was read less than the TTL before it was served, or after the call |
| AdminKey.AcceptedOnlyIfRecentlyHeld | src/routes.rs:227-254 | an accepted key is not empty and was in the slot that accepted it within that window |
| AdminKey.StableKeyAcceptedIff | src/routes.rs:227-254 | a key held by the current slot throughout the window is accepted as current exactly when the cache answered with a hash, whatever failed earlier |
| AdminKey.StablePreviousKeyAcceptedIff | src/routes.rs:239-250 | a key held by the previous slot throughout the window is accepted exactly when one of the caches answered with a hash of it, as current if the current one did and as previous otherwise |
| Kek.OpensIff | src/kek.rs:293-320 | an envelope opens, to its own plaintext, exactly when the associated data match and the pair holds the sealing key; otherwise the current key's failure is reported |
| Kek.EnvelopeSurvivesOneRotation | src/kek.rs:118-123 | across isolates, a cache TTL later and with at most one rotation, of which either write may fall inside a pair fetch and in either order, the envelope opens, if the one fetch the opening pair comes from did not read a replaced current slot and an unfilled previous one |
| Kek.EnvelopeSurvivesIff | src/kek.rs:293-320 | the exact condition, also when reads of the previous slot may fail: the opening pair has the sealing key as current, or has a previous key and was fetched outside that gap |
| Kek.FetchedTogetherIff | src/kek.rs:188-198 | whether a fetch fell in the gap can be told from the pair it returned |
| Kek.EveryFetchHoldsIff | src/kek.rs:186-198 | given at most one rotation, every pair fetch of a period has the sealing key if and only if at each moment the current slot still has it or the previous slot already has it |
| Kek.CurrentFirstLosesOldKey | tools/key-rotation/src/main.rs:1257-1258 | two runs, with one millisecond between the two writes and every other hypothesis met, in which a cached pair fails to open an older envelope at any age under the TTL |
| Kek.NewEnvelopeFailsOnStaleIsolate | src/kek.rs:118-123 | two runs, with both slots written at once, in which an envelope fails to open on another isolate at every delay up to 299,998 ms, so the TTL in the main statement is needed |
| Kek.Isolate.PreflightKek | src/kek.rs:149-174 | a fresh verdict is repeated; otherwise the verdict is whether the pair cache hit or the fetch succeeded, stamped with the call's time |
| Kek.PreflightStaleness | src/kek.rs:66-74 | in every timed run a yes rests on a successful fetch started less than 600 s before the call, a no on a failed fetch started less than 30 s before |
| Kek.YesCanBeTenMinutesOld | src/kek.rs:149-174 | a run in which the only fetch is two milliseconds short of 600 s old |
| Kek.NoCanBeThirtySecondsOld | src/kek.rs:149-174 | a run in which a no rests on a fetch one millisecond short of 30 s old |
| CanonicalMessage.StringBack | src/session.rs:702-703 | the JSON reader gives back any escaped string and stops at its closing quote |
| CanonicalMessage.EscapesAreCanonical | src/session.rs:702-703 | which of the escapes that JSON allows is written, for every character |
| CanonicalMessage.DocumentedLayout | src/session.rs:656-669 | for validated authorizers the message is the documented text, fields in the documented order, nothing escaped |
| CanonicalMessage.RequestBack | src/session.rs:694-714 | the parser inverts the message printer for every request with colon-free method and path |
| CanonicalMessage.CanonicalInjective | src/session.rs:694-714 | two such requests never share a message, whatever format, key id and nonce hold |
| CanonicalMessage.InnerHasNoBrace | src/types.rs:196-217 | validated authorizers put no brace into the message, since no character needs escaping |
| CanonicalMessage.ValidatedIff | src/types.rs:257-285 | the validators character by character: which formats, key ids and nonces pass |
| CanonicalMessage.MessageFixesAllButTheMethodPathSplit | src/session.rs:694-714 | with validated authorizers and any method and path, messages are equal if and only if all fields and the text method:path are equal |
| CanonicalMessage.ColonFreeMethodSuffices | src/types.rs:257-285 | hence a colon-free method is enough for injectivity; the path may hold colons |
| CanonicalMessage.ColonInMethodCollides | src/session.rs:710-713 | and it is needed: a colon can be moved from method to path without changing the message |
| ShardHash.DeterministicShardHash | src/hash.rs:129-139 | the loop computes the fold of the mixing step |
| ShardHash.PinnedHash | src/hash.rs:202 | the hash of the text "test" is the value the repository pins |
| ShardHash.MixIsBijective | src/hash.rs:135-136 | one step is a bijection on 64-bit words for each byte, with the inverse given |
| ShardHash.AbsorbIsBijective | src/hash.rs:134-137 | absorbing any byte string permutes the 64-bit states |
| ShardHash.CommonSuffixCancels | src/hash.rs:129-139 | a common suffix cancels: hashes agree with it exactly when they agree without it |
| ShardHash.OneByteNeverCollides | src/hash.rs:129-139 | replacing one byte keeps the hash only if the byte is the same |
| BitUnpacking.UnpackLength | src/routes.rs:3226-3237 | eight bits for each byte |
| BitUnpacking.UnpackAt | src/routes.rs:3226-3237 | bit i of byte j lands at position 8j + i |
| BitUnpacking.UnpackKeepsValue | src/routes.rs:3226-3237 | the bits denote the same big-endian integer as the bytes |
| BitUnpacking.PackOfUnpack | src/routes.rs:3226-3237 | the eight-bits-to-a-byte packer undoes unpacking |
| BitUnpacking.UnpackOfPack | src/routes.rs:3226-3237 | unpacking undoes the packer on every whole number of bytes |
| BitUnpacking.UnpackInjective | src/routes.rs:3226-3237 | different byte lists unpack differently |
| Cors.HostMatchesIffLabelSuffix | src/cors.rs:133-147 | the index test accepts a host exactly when the domain's labels are a suffix of the host's labels, for all strings |
| Cors.WildcardMatchesIff | src/cors.rs:109-148 | the whole decision, for every pattern and origin URL: the pattern parses to a wildcard over a non-empty domain, scheme and port agree, and the domain's labels end those of the origin's host |

## Left out

- RateLimiting.RateLimitKv.CheckKvCounter: does not model entry expiry, timeouts or the retry-after value, which never change an answer within the hour.
- ShardedInterleaving.AdmissionsBounded: assumes every KV operation succeeds, because the sharded path admits without counting when its re-read or write fails; single calls with failures are covered by `RateLimiting.RateLimitKv.CheckBlindIssuanceSharded`.
- RotationProtocol.RotationsSerialise: takes a listing as one step; its pages are modelled in `SigningKeys.ListVersions`.
- RotationProtocol.ConcurrentVersionsDistinct: speaks of completed rotations only, because an interrupted one stores no key and its version may be planned again.
- AttestationRuns.RedeemsIff: leaves the freshness window a parameter, because `verify_with_timestamp` belongs to a crate outside the repository; kids keep their key material.
- BlindIssuance.OneCredentialPerAttestation: needs the request's delay before the nonce check bounded, because the handler reads its clock before it.
- Kek.EnvelopeSurvivesOneRotation: base64 and length decoding of the slots is not modelled; a current slot that fails to decode is a failed fetch, and a previous one is the failed read of `Kek.EnvelopeSurvivesIff`.
- Cors.WildcardMatchesIff: starts from parsed URLs; URL parsing and Unicode normalisation are foreign code.
- Tier limits and quota caching (src/rate_limiting.rs:109-340): the cache is driven by an hour-floored clock, so its documented freshness is not what the code decides.
- The per-IP failure cap and officer lockout (src/session.rs): their writer and reader use different keys or storage code outside this model.
- Cryptographic primitives, Pedersen commitments and key generation: abstract.
- HTTP routing, headers, audit and analytics, SSRF and fetch-metadata tables, error responses: finite case tables or plumbing that would only add easy members.
