/**
 * Attestation-key rotation, signing, and redemption up to the trial verify
 * (src/routes.rs), one call at a time. Ed25519 is ideal: a keypair is named by
 * its verifying key, and a signature verifies under that key alone. Whole runs
 * of interleaved calls are in AttestationRuns.
 */
module Attestation {
  import opened Common

  // ----- Verifying-key records -----

  datatype KeyBytes = Point(key: nat) | NotAPoint

  datatype VerifyingRecord = VerifyingRecord(active: bool, validFrom: u64, validUntil: u64, verifyingKey: KeyBytes)

  datatype Reject = Inactive | NotYetValid | Expired | VerifyingKeyDecode

  /** May this record verify at `now`? A zero `validUntil` never expires. */
  function IsEligible(record: VerifyingRecord, now: u64): Result<nat, Reject> {
    if !record.active then Err(Inactive)
    else if now < record.validFrom then Err(NotYetValid)
    else if record.validUntil != 0 && now > record.validUntil then Err(Expired)
    else match record.verifyingKey
      case Point(key) => Ok(key)
      case NotAPoint => Err(VerifyingKeyDecode)
  }

  // ----- Attestations -----

  /** How old an attestation may be, and how far ahead of the verifier's clock. */
  datatype Window = Window(maxAge: nat, maxSkew: nat)

  datatype Signed = Signed(signer: nat, nonce: nat, timestamp: u64)

  predicate IsFresh(w: Window, att: Signed, now: u64) {
    att.timestamp <= now + w.maxSkew && now <= att.timestamp + w.maxAge
  }

  predicate Verifies(w: Window, key: nat, att: Signed, now: u64) {
    att.signer == key && IsFresh(w, att, now)
  }

  // ----- Configuration, rotation and signing -----

  datatype Config = Config(defaultKid: string, previousKid: Option<string>)

  datatype SigningRecord = SigningRecord(key: nat, active: bool)

  datatype RotateError = SelfRotation | VerifyingKeyMissing | SigningKeyMissing | StorageFailed

  /** Which of a rotation's four storage calls fail. */
  datatype RotateFaults = RotateFaults(config: bool, verifying: bool, signing: bool, write: bool) {
    predicate None() { !config && !verifying && !signing && !write }
  }

  /** The swap: the old default becomes the previous kid. */
  function Promoted(config: Config, newKid: string): Config {
    Config(newKid, Some(config.defaultKid))
  }

  function RotateCheck(config: Config, verifying: map<string, VerifyingRecord>, signing: map<string, SigningRecord>,
                       newKid: string, faults: RotateFaults): Result<Config, RotateError>
  {
    if faults.config then Err(StorageFailed)
    else if config.defaultKid == newKid then Err(SelfRotation)
    else if faults.verifying then Err(StorageFailed)
    else if newKid !in verifying then Err(VerifyingKeyMissing)
    else if faults.signing then Err(StorageFailed)
    else if newKid !in signing then Err(SigningKeyMissing)
    else if faults.write then Err(StorageFailed)
    else Ok(Promoted(config, newKid))
  }

  /** Signing under the kid that was read as default, if its signing key is there and active. */
  function SignUnder(kid: string, signing: map<string, SigningRecord>, nonce: nat, timestamp: u64): Option<Signed> {
    if kid in signing && signing[kid].active then Some(Signed(signing[kid].key, nonce, timestamp)) else None
  }

  // ----- Trial verify -----

  datatype Slot = DefaultKid | PreviousKid

  datatype Candidate = Candidate(slot: Slot, kid: string, key: nat)

  function TrialSlots(config: Config): seq<(Slot, string)> {
    [(DefaultKid, config.defaultKid)] +
    (if config.previousKid.Some? then [(PreviousKid, config.previousKid.value)] else [])
  }

  function CandidatesOf(slots: seq<(Slot, string)>, verifying: map<string, VerifyingRecord>, now: u64): seq<Candidate> {
    if slots == [] then [] else
      var (slot, kid) := slots[|slots| - 1];
      CandidatesOf(slots[..|slots| - 1], verifying, now) +
      if kid in verifying && IsEligible(verifying[kid], now).Ok?
      then [Candidate(slot, kid, IsEligible(verifying[kid], now).value)] else []
  }

  function FirstMatch(w: Window, candidates: seq<Candidate>, att: Signed, now: u64): Option<Candidate> {
    if candidates == [] then None
    else if Verifies(w, candidates[0].key, att, now) then Some(candidates[0])
    else FirstMatch(w, candidates[1..], att, now)
  }

  /** Why a slot without an eligible record is turned down: no record, or what is wrong with it. */
  function Rejection(slot: (Slot, string), verifying: map<string, VerifyingRecord>, now: u64): (Slot, Option<Reject>) {
    (slot.0,
     if slot.1 in verifying && IsEligible(verifying[slot.1], now).Err?
     then Some(IsEligible(verifying[slot.1], now).error) else None)
  }

  /** The rejection reported when no slot is eligible: that of the previous kid if there is one. */
  function LastRejection(config: Config, verifying: map<string, VerifyingRecord>, now: u64): (Slot, Option<Reject>) {
    if config.previousKid.Some? then Rejection((PreviousKid, config.previousKid.value), verifying, now)
    else Rejection((DefaultKid, config.defaultKid), verifying, now)
  }

  // ----- Nonces -----

  const ATTESTATION_NONCE_TTL: nat := 7200

  /** Atomic check-and-set: a nonce is refused while its record has not expired. */
  function CheckAndSet(nonces: map<nat, nat>, nonce: nat, now: nat): (bool, map<nat, nat>) {
    if nonce in nonces && nonces[nonce] >= now then (false, nonces)
    else (true, nonces[nonce := now + ATTESTATION_NONCE_TTL])
  }

  /** The nonce call is answered, or fails before or after the nonce object has acted. */
  datatype NonceCall = Answered | Unsent | AnswerLost

  /** Which storage calls of a redemption fail: the record lookups of some kids, and the nonce call. */
  datatype RedeemFaults = RedeemFaults(lookups: set<string>, nonceCall: NonceCall)

  predicate LookupFails(slots: seq<(Slot, string)>, lookups: set<string>) {
    exists i | 0 <= i < |slots| :: slots[i].1 in lookups
  }

  datatype Outcome = StorageError | UnknownIssuer | Replayed | VerificationFailed | Verified(matched: Candidate)

  /**
   * Redemption: a failed lookup or no eligible key ends it before the nonce is
   * touched; otherwise the nonce is consumed first, by the nonce object's own
   * clock, and stays consumed if no key verifies.
   */
  function Redemption(w: Window, config: Config, verifying: map<string, VerifyingRecord>, nonces: map<nat, nat>,
                      att: Signed, now: u64, nonceNow: u64, faults: RedeemFaults): (Outcome, map<nat, nat>)
  {
    var candidates := CandidatesOf(TrialSlots(config), verifying, now);
    if LookupFails(TrialSlots(config), faults.lookups) then (StorageError, nonces)
    else if candidates == [] then (UnknownIssuer, nonces)
    else if faults.nonceCall.Unsent? then (StorageError, nonces)
    else
      var (unused, nonces') := CheckAndSet(nonces, att.nonce, nonceNow);
      if faults.nonceCall.AnswerLost? then (StorageError, nonces')
      else if !unused then (Replayed, nonces') else
        match FirstMatch(w, candidates, att, now)
        case Some(c) => (Verified(c), nonces')
        case None => (VerificationFailed, nonces')
  }

  /** The issuer's stored state as the handlers change it. */
  class Issuer {
    var config: Config
    var verifying: map<string, VerifyingRecord>
    var signing: map<string, SigningRecord>
    var nonces: map<nat, nat>
    const window: Window

    constructor (config: Config, window: Window)
      ensures this.config == config && this.window == window
      ensures verifying == map[] && signing == map[] && nonces == map[]
    {
      this.config, this.window := config, window;
      verifying, signing, nonces := map[], map[], map[];
    }

    method RotateAttestationKey(newKid: string, faults: RotateFaults) returns (r: Result<(string, string), RotateError>)
      modifies this`config
      ensures r.Ok? <==> faults.None() && newKid != old(config).defaultKid && newKid in verifying && newKid in signing
      ensures r.Ok? ==> config == Config(newKid, Some(old(config).defaultKid))
      ensures r.Ok? ==> r.value == (old(config).defaultKid, newKid)
      ensures r.Err? ==> config == old(config)
      ensures r == Err(SelfRotation) <==> !faults.config && newKid == old(config).defaultKid
      ensures r == Err(VerifyingKeyMissing) <==>
              !faults.config && newKid != old(config).defaultKid && !faults.verifying && newKid !in verifying
      ensures r == Err(SigningKeyMissing) <==>
              && !faults.config && newKid != old(config).defaultKid && !faults.verifying && newKid in verifying
              && !faults.signing && newKid !in signing
      ensures var check := RotateCheck(old(config), verifying, signing, newKid, faults);
              if check.Ok? then config == check.value else r == Err(check.error)
    {
      if faults.config {
        return Err(StorageFailed);
      }
      var c := config;
      if c.defaultKid == newKid {
        return Err(SelfRotation);
      }
      if faults.verifying {
        return Err(StorageFailed);
      }
      if newKid !in verifying {
        return Err(VerifyingKeyMissing);
      }
      if faults.signing {
        return Err(StorageFailed);
      }
      if newKid !in signing {
        return Err(SigningKeyMissing);
      }
      var oldKid := c.defaultKid;
      c := c.(previousKid := Some(oldKid));
      c := c.(defaultKid := newKid);
      if faults.write {
        return Err(StorageFailed);
      }
      config := c;
      r := Ok((oldKid, newKid));
    }

    /** `None` when a lookup fails; otherwise the candidates and why the last slot turned down was. */
    method EligibleCandidates(now: u64, lookups: set<string>)
      returns (r: Option<seq<Candidate>>, lastFailure: Option<(Slot, Option<Reject>)>)
      ensures r.None? <==> LookupFails(TrialSlots(config), lookups)
      ensures r.Some? ==> r.value == CandidatesOf(TrialSlots(config), verifying, now)
      ensures r == Some([]) ==> lastFailure == Some(LastRejection(config, verifying, now))
    {
      var slots := TrialSlots(config);
      var candidates: seq<Candidate> := [];
      lastFailure := None;
      for i := 0 to |slots|
        invariant candidates == CandidatesOf(slots[..i], verifying, now)
        invariant i > 0 && candidates == [] ==> lastFailure == Some(Rejection(slots[i - 1], verifying, now))
        invariant forall j | 0 <= j < i :: slots[j].1 !in lookups
      {
        assert slots[..i + 1][..i] == slots[..i];
        var (slot, kid) := slots[i];
        if kid in lookups {
          return None, lastFailure;
        }
        if kid !in verifying {
          lastFailure := Some((slot, None));
        } else {
          match IsEligible(verifying[kid], now) {
            case Ok(key) => candidates := candidates + [Candidate(slot, kid, key)];
            case Err(reject) => lastFailure := Some((slot, Some(reject)));
          }
        }
      }
      assert slots[..|slots|] == slots;
      r := Some(candidates);
    }

    method TrialVerify(candidates: seq<Candidate>, att: Signed, now: u64) returns (matched: Option<Candidate>)
      ensures matched == FirstMatch(window, candidates, att, now)
    {
      matched := None;
      for i := 0 to |candidates|
        invariant FirstMatch(window, candidates, att, now) == FirstMatch(window, candidates[i..], att, now)
      {
        assert candidates[i..][1..] == candidates[i + 1..];
        if Verifies(window, candidates[i].key, att, now) {
          return Some(candidates[i]);
        }
      }
    }

    method Redeem(att: Signed, now: u64, nonceNow: u64, faults: RedeemFaults) returns (outcome: Outcome)
      modifies this`nonces
      ensures (outcome, nonces) == Redemption(window, config, verifying, old(nonces), att, now, nonceNow, faults)
      ensures HeldAsUsed(old(nonces), att.nonce, nonceNow) ==> !outcome.Verified? && nonces == old(nonces)
      ensures outcome.Verified? ==> HeldAsUsed(nonces, att.nonce, nonceNow + 7200)
    {
      var candidates, _ := EligibleCandidates(now, faults.lookups);
      if candidates.None? {
        return StorageError;
      }
      if candidates.value == [] {
        return UnknownIssuer;
      }
      if faults.nonceCall.Unsent? {
        return StorageError;
      }
      var (unused, nonces') := CheckAndSet(nonces, att.nonce, nonceNow);
      nonces := nonces';
      if faults.nonceCall.AnswerLost? {
        return StorageError;
      }
      if !unused {
        return Replayed;
      }
      var matched := TrialVerify(candidates.value, att, now);
      outcome := if matched.Some? then Verified(matched.value) else VerificationFailed;
    }
  }

  // ----- What a redemption decides -----

  lemma {:induction false} CandidateIff(slots: seq<(Slot, string)>, verifying: map<string, VerifyingRecord>, now: u64,
                                        c: Candidate)
    ensures c in CandidatesOf(slots, verifying, now) <==>
            (c.slot, c.kid) in slots && c.kid in verifying && IsEligible(verifying[c.kid], now) == Ok(c.key)
  {
    if slots != [] {
      var n := |slots| - 1;
      CandidateIff(slots[..n], verifying, now, c);
      var (slot, kid) := slots[n];
      assert slots == slots[..n] + [(slot, kid)];
      assert (c.slot, c.kid) in slots <==> (c.slot, c.kid) in slots[..n] || (c.slot == slot && c.kid == kid);
    }
  }

  lemma {:induction false} FirstMatchIff(w: Window, candidates: seq<Candidate>, att: Signed, now: u64)
    ensures var m := FirstMatch(w, candidates, att, now);
            && (m.Some? <==> exists c :: c in candidates && Verifies(w, c.key, att, now))
            && (m.Some? ==> m.value in candidates && Verifies(w, m.value.key, att, now))
  {
    if candidates != [] {
      FirstMatchIff(w, candidates[1..], att, now);
      assert candidates == [candidates[0]] + candidates[1..];
    }
  }

  /** A history of default kids, oldest first, ends in the configuration. */
  predicate LastTwo(config: Config, kids: seq<string>) {
    var n := |kids|;
    && n >= 1
    && config.defaultKid == kids[n - 1]
    && config.previousKid == (if n >= 2 then Some(kids[n - 2]) else None)
    && (n >= 2 ==> kids[n - 1] != kids[n - 2])
  }

  /** Was `kid` the last default, or the one before it? */
  predicate AmongLastTwo(kids: seq<string>, kid: string) {
    (|kids| >= 1 && kid == kids[|kids| - 1]) || (|kids| >= 2 && kid == kids[|kids| - 2])
  }

  /** Verifying records hold the public halves of the signing keys, and no two kids share a key. */
  ghost predicate Matches(signing: map<string, SigningRecord>, verifying: map<string, VerifyingRecord>) {
    && (forall kid | kid in verifying :: kid in signing && verifying[kid].verifyingKey == Point(signing[kid].key))
    && (forall k, l | k in signing && l in signing && k != l :: signing[k].key != signing[l].key)
  }

  /** The kid has a record, which is active and within its validity window. */
  predicate EligibleKid(verifying: map<string, VerifyingRecord>, kid: string, now: u64) {
    && kid in verifying
    && var r := verifying[kid]; r.active && r.validFrom <= now && (r.validUntil == 0 || now <= r.validUntil)
  }

  /** The four answers of the eligibility check, the first obstacle first. */
  lemma EligibilityMeans(record: VerifyingRecord, now: u64)
    ensures var r := IsEligible(record, now);
            var inWindow := record.validFrom <= now && (record.validUntil == 0 || now <= record.validUntil);
            && (r.Ok? <==> record.active && inWindow && record.verifyingKey == Point(if r.Ok? then r.value else 0))
            && (r == Err(Inactive) <==> !record.active)
            && (r == Err(NotYetValid) <==> record.active && now < record.validFrom)
            && (r == Err(Expired) <==> record.active && now >= record.validFrom && !inWindow)
            && (r == Err(VerifyingKeyDecode) <==> record.active && inWindow && record.verifyingKey == NotAPoint)
  {
  }

  /** The nonce object holds this nonce as used at this moment. */
  predicate HeldAsUsed(nonces: map<nat, nat>, nonce: nat, now: nat) {
    nonce in nonces && now <= nonces[nonce]
  }

  /**
   * Every redemption of a nonce that the nonce object holds as used is refused;
   * a redemption marks its nonce for two hours if the nonce object acted on it,
   * and touches nothing else.
   */
  lemma NonceGuards(w: Window, config: Config, verifying: map<string, VerifyingRecord>, nonces: map<nat, nat>,
                    att: Signed, now: u64, nonceNow: u64, faults: RedeemFaults)
    ensures var (outcome, nonces') := Redemption(w, config, verifying, nonces, att, now, nonceNow, faults);
            var held := HeldAsUsed(nonces, att.nonce, nonceNow);
            && (held ==> !outcome.Verified? && !outcome.VerificationFailed? && nonces' == nonces)
            && (!held ==> !outcome.Replayed?)
            && (outcome.Verified? || outcome.VerificationFailed? ==> nonces' == nonces[att.nonce := nonceNow + 7200])
            && (outcome.UnknownIssuer? || outcome.Replayed? ==> nonces' == nonces)
            && (nonces' == nonces || nonces' == nonces[att.nonce := nonceNow + 7200])
  {
  }

  /**
   * No replay: once a redemption has been answered `Verified`, or has failed to
   * verify, every redemption of the same nonce in the two hours that follow is
   * refused, whatever it presents and whatever has happened to configuration and
   * records. `nonces'` is any later store that still holds what the first one left.
   */
  lemma ReplayRefused(w: Window, config: Config, verifying: map<string, VerifyingRecord>, nonces: map<nat, nat>,
                      att: Signed, now: u64, nonceNow: u64, faults: RedeemFaults,
                      config': Config, verifying': map<string, VerifyingRecord>, nonces': map<nat, nat>,
                      att': Signed, now': u64, nonceNow': u64, faults': RedeemFaults)
    requires var (outcome, after) := Redemption(w, config, verifying, nonces, att, now, nonceNow, faults);
             && (outcome.Verified? || outcome.VerificationFailed?)
             && att.nonce in nonces' && nonces'[att.nonce] >= after[att.nonce]
    requires att'.nonce == att.nonce && nonceNow <= nonceNow' <= nonceNow + 7200
    ensures !Redemption(w, config', verifying', nonces', att', now', nonceNow', faults').0.Verified?
  {
    NonceGuards(w, config, verifying, nonces, att, now, nonceNow, faults);
    NonceGuards(w, config', verifying', nonces', att', now', nonceNow', faults');
    hide Redemption;
  }

  /** Some slot has a record that is eligible and decodes. */
  ghost predicate SomeEligible(config: Config, verifying: map<string, VerifyingRecord>, now: u64) {
    exists kid :: InSlot(config, kid) && EligibleKid(verifying, kid, now) && verifying[kid].verifyingKey.Point?
  }

  predicate InSlot(config: Config, kid: string) { kid == config.defaultKid || Some(kid) == config.previousKid }

  /** A lookup of the default kid or the previous kid fails. */
  predicate SlotLookupFails(config: Config, lookups: set<string>) {
    config.defaultKid in lookups || (config.previousKid.Some? && config.previousKid.value in lookups)
  }

  /** Which failure is reported: the order in which a redemption meets its obstacles. */
  lemma FailuresInOrder(w: Window, config: Config, verifying: map<string, VerifyingRecord>, nonces: map<nat, nat>,
                        att: Signed, now: u64, nonceNow: u64, faults: RedeemFaults)
    ensures var outcome := Redemption(w, config, verifying, nonces, att, now, nonceNow, faults).0;
            var lookupFails := SlotLookupFails(config, faults.lookups);
            var some := SomeEligible(config, verifying, now);
            && (outcome.StorageError? <==> lookupFails || (some && !faults.nonceCall.Answered?))
            && (outcome.UnknownIssuer? <==> !lookupFails && !some)
            && (outcome.Replayed? <==>
                  !lookupFails && some && faults.nonceCall.Answered? && HeldAsUsed(nonces, att.nonce, nonceNow))
  {
    var slots := TrialSlots(config);
    assert LookupFails(slots, faults.lookups) <==> SlotLookupFails(config, faults.lookups) by {
      assert slots[0].1 == config.defaultKid;
      assert config.previousKid.Some? ==> slots[1].1 == config.previousKid.value;
    }
    CandidatesIffSomeEligible(config, verifying, now);
    hide CandidatesOf, LookupFails, SomeEligible, FirstMatch;
  }

  lemma CandidatesIffSomeEligible(config: Config, verifying: map<string, VerifyingRecord>, now: u64)
    ensures CandidatesOf(TrialSlots(config), verifying, now) != [] <==> SomeEligible(config, verifying, now)
  {
    var slots := TrialSlots(config);
    var candidates := CandidatesOf(slots, verifying, now);
    if candidates != [] {
      CandidateIff(slots, verifying, now, candidates[0]);
      assert InSlot(config, candidates[0].kid);
    }
    if kid :| InSlot(config, kid) && EligibleKid(verifying, kid, now) && verifying[kid].verifyingKey.Point? {
      var slot := if kid == config.defaultKid then DefaultKid else PreviousKid;
      var c := Candidate(slot, kid, verifying[kid].verifyingKey.key);
      assert (slot, kid) in slots by {
        assert slots[0] == (slot, kid) || slots[1] == (slot, kid);
      }
      CandidateIff(slots, verifying, now, c);
    }
  }

  /** No storage call of a redemption that read this configuration fails. */
  predicate NoFaults(config: Config, faults: RedeemFaults) {
    !SlotLookupFails(config, faults.lookups) && faults.nonceCall.Answered?
  }

  /** `verifying` holds the records as the redemption looked them up, `config` what it read before. */
  lemma RedemptionIff(w: Window, config: Config, kids: seq<string>, signing: map<string, SigningRecord>,
                      verifying: map<string, VerifyingRecord>, kid: string, att: Signed,
                      nonces: map<nat, nat>, now: u64, nonceNow: u64, faults: RedeemFaults)
    requires LastTwo(config, kids) && Matches(signing, verifying) && kid in signing && att.signer == signing[kid].key
    ensures var outcome := Redemption(w, config, verifying, nonces, att, now, nonceNow, faults).0;
            && (outcome.Verified? <==>
                  && NoFaults(config, faults) && !HeldAsUsed(nonces, att.nonce, nonceNow) && AmongLastTwo(kids, kid)
                  && EligibleKid(verifying, kid, now) && IsFresh(w, att, now))
            && (outcome.Verified? ==> outcome.matched.kid == kid)
  {
    var candidates := CandidatesOf(TrialSlots(config), verifying, now);
    FailuresInOrder(w, config, verifying, nonces, att, now, nonceNow, faults);
    FirstMatchIff(w, candidates, att, now);
    var m := FirstMatch(w, candidates, att, now);
    if m.Some? {
      MatchIsTheSigner(w, config, kids, signing, verifying, kid, att, m.value, now);
    }
    if AmongLastTwo(kids, kid) && EligibleKid(verifying, kid, now) && IsFresh(w, att, now) {
      SignerIsACandidate(w, config, kids, signing, verifying, kid, att, now);
    }
    hide CandidatesOf, FirstMatch, AmongLastTwo, EligibleKid, LastTwo, Matches, SomeEligible;
  }

  /** Whatever candidate verifies an attestation is the kid that signed it. */
  lemma MatchIsTheSigner(w: Window, config: Config, kids: seq<string>, signing: map<string, SigningRecord>,
                         verifying: map<string, VerifyingRecord>, kid: string, att: Signed, c: Candidate, now: u64)
    requires LastTwo(config, kids) && Matches(signing, verifying) && kid in signing && att.signer == signing[kid].key
    requires c in CandidatesOf(TrialSlots(config), verifying, now) && Verifies(w, c.key, att, now)
    ensures c.kid == kid && AmongLastTwo(kids, kid) && EligibleKid(verifying, kid, now) && IsFresh(w, att, now)
  {
    CandidateIff(TrialSlots(config), verifying, now, c);
    hide CandidatesOf;
  }

  /** The signing kid, while it is one of the last two and eligible, is a candidate that verifies. */
  lemma SignerIsACandidate(w: Window, config: Config, kids: seq<string>, signing: map<string, SigningRecord>,
                           verifying: map<string, VerifyingRecord>, kid: string, att: Signed, now: u64)
    requires LastTwo(config, kids) && Matches(signing, verifying) && kid in signing && att.signer == signing[kid].key
    requires AmongLastTwo(kids, kid) && EligibleKid(verifying, kid, now) && IsFresh(w, att, now)
    ensures exists c :: c in CandidatesOf(TrialSlots(config), verifying, now) && Verifies(w, c.key, att, now)
  {
    var slots := TrialSlots(config);
    var slot := if kid == config.defaultKid then DefaultKid else PreviousKid;
    var c := Candidate(slot, kid, signing[kid].key);
    assert (slot, kid) in slots by {
      assert slots[0] == (slot, kid) || slots[1] == (slot, kid);
    }
    CandidateIff(slots, verifying, now, c);
    hide CandidatesOf;
    assert c in CandidatesOf(slots, verifying, now) && Verifies(w, c.key, att, now);
  }

  /** An attestation whose kid is in neither slot is refused. */
  lemma OtherKidsAreRefused(w: Window, config: Config, signing: map<string, SigningRecord>,
                            verifying: map<string, VerifyingRecord>, kid: string, att: Signed,
                            nonces: map<nat, nat>, now: u64, nonceNow: u64, faults: RedeemFaults)
    requires Matches(signing, verifying) && kid in signing && att.signer == signing[kid].key
    requires kid != config.defaultKid && Some(kid) != config.previousKid
    ensures !Redemption(w, config, verifying, nonces, att, now, nonceNow, faults).0.Verified?
  {
    var candidates := CandidatesOf(TrialSlots(config), verifying, now);
    FirstMatchIff(w, candidates, att, now);
    var m := FirstMatch(w, candidates, att, now);
    if m.Some? {
      CandidateIff(TrialSlots(config), verifying, now, m.value);
      assert false;
    }
  }
}
