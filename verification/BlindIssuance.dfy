/**
 * Interleaved blind-issuance requests from the clock read to the signature
 * (src/routes.rs, blind_issuance; src/storage.rs and
 * src/durable_objects/nonce_do.rs for the nonce). A request may stop after any
 * step; nonce records may be purged once expired.
 */
module BlindIssuance {
  import opened Common
  import opened Attestation

  // ----- Validity dates -----

  const MAX_VALIDITY_DAYS: nat := 36500
  const DAY: nat := 86400

  function SatAdd64(a: nat, b: nat): u64 { if a + b <= U64_MAX then a + b else U64_MAX }
  function SatMul64(a: nat, b: nat): u64 { if a * b <= U64_MAX then a * b else U64_MAX }

  /** The requested days, capped by policy and by the hard maximum. */
  function ValidityDays(requested: Option<u32>, policy: u32): nat {
    var days := if requested.Some? then requested.value else policy;
    Min(Min(days, policy), MAX_VALIDITY_DAYS)
  }

  /** Issue and expiry times, as the handler computes them; `None` is the zero-validity rejection. */
  function IssueDates(now: u64, requested: Option<u32>, policy: u32): Option<(u64, u64)> {
    var days := ValidityDays(requested, policy);
    if days == 0 then None else Some((now, SatAdd64(now, SatMul64(days, DAY))))
  }

  /** The signer refuses unless issue time is before expiry. */
  predicate SignerAccepts(iat: u64, exp: u64) { iat < exp }

  /**
   * For every clock a signed 64-bit timestamp can give, the dates never
   * saturate, the days are within policy, and the signer's guard passes; they
   * are refused exactly when the policy or the request says zero.
   */
  lemma DatesExact(now: u64, requested: Option<u32>, policy: u32)
    requires now <= I64_MAX
    ensures var dates := IssueDates(now, requested, policy);
            && (dates.None? <==> policy == 0 || requested == Some(0))
            && (dates.Some? ==>
                  var days := ValidityDays(requested, policy);
                  && 1 <= days <= Min(policy, MAX_VALIDITY_DAYS)
                  && (requested.Some? ==> days <= requested.value)
                  && dates.value == (now, now + days * DAY)
                  && SignerAccepts(dates.value.0, dates.value.1))
  {
  }

  /** May a credential last this many days? */
  predicate Permitted(days: nat, requested: Option<u32>, policy: u32) {
    days <= policy && days <= 36_500 && (requested.Some? ==> days <= requested.value)
  }

  /** The dates are the longest permitted: expiry is the request's clock plus the largest permitted number of days. */
  lemma DatesLongest(now: u64, requested: Option<u32>, policy: u32, days: nat)
    requires now <= I64_MAX && Permitted(days, requested, policy)
    ensures var dates := IssueDates(now, requested, policy);
            && (days >= 1 ==> dates.Some?)
            && (dates.Some? ==> dates.value.0 == now && now + days * 86_400 <= dates.value.1)
            && (dates.Some? ==> exists longest: nat ::
                  Permitted(longest, requested, policy) && dates.value.1 == now + longest * 86_400)
  {
    DatesExact(now, requested, policy);
    assert Permitted(ValidityDays(requested, policy), requested, policy);
  }

  // ----- The request machine -----

  /** A request holds its clock reading; after the nonce check, also which consumption was its own. */
  datatype Request =
    | Clocked(att: Signed, now: u64)
    | Consumed(att: Signed, now: u64, taken: nat)

  /**
   * `requested` is what the request asked for and `policy` the issuer's day limit
   * at the time; `taken` is the nonce consumption the credential rests on.
   */
  datatype Credential = Credential(
    att: Signed, iat: u64, exp: u64, requested: Option<u32>, policy: u32, taken: nat)

  datatype Taken = Taken(nonce: nat, at: nat)

  /** `taken` records every successful nonce consumption and its time, in order. */
  datatype State = State(
    clock: nat,
    nonces: map<nat, nat>,
    requests: map<nat, Request>,
    taken: seq<Taken>,
    issued: seq<Credential>)

  datatype Step =
    | Tick(seconds: nat)
    | Begin(id: nat, att: Signed)
    | Consume(id: nat)
    | Issue(id: nat, key: nat, requested: Option<u32>, policy: u32)
    | Stop(id: nat)
    | Purge(nonce: nat)

  predicate Enabled(s: State, step: Step) {
    match step
    case Tick(n) => s.clock + n <= I64_MAX
    case Begin(id, _) => id !in s.requests
    case Consume(id) => id in s.requests && s.requests[id].Clocked?
    case Issue(id, _, _, _) => id in s.requests && s.requests[id].Consumed?
    case Stop(id) => id in s.requests
    case Purge(nonce) => nonce in s.nonces && s.nonces[nonce] < s.clock
  }

  function Apply(w: Window, s: State, step: Step): State
    requires Enabled(s, step) && s.clock <= I64_MAX
  {
    match step
    case Tick(n) => s.(clock := s.clock + n)
    case Begin(id, att) => s.(requests := s.requests[id := Clocked(att, s.clock)])
    case Consume(id) =>
      var r := s.requests[id];
      var (unused, nonces) := CheckAndSet(s.nonces, r.att.nonce, s.clock);
      if unused then
        s.(nonces := nonces, taken := s.taken + [Taken(r.att.nonce, s.clock)],
           requests := s.requests[id := Consumed(r.att, r.now, |s.taken|)])
      else s.(requests := s.requests - {id})
    case Issue(id, key, requested, policy) =>
      var r := s.requests[id];
      var dates := IssueDates(r.now, requested, policy);
      var rest := s.(requests := s.requests - {id});
      if Verifies(w, key, r.att, r.now) && dates.Some? && SignerAccepts(dates.value.0, dates.value.1)
      then rest.(issued := s.issued + [Credential(r.att, dates.value.0, dates.value.1, requested, policy, r.taken)])
      else rest
    case Stop(id) => s.(requests := s.requests - {id})
    case Purge(nonce) => s.(nonces := s.nonces - {nonce})
  }

  function Start(clock: nat): State { State.State(clock, map[], map[], [], []) }

  predicate ValidRun(w: Window, s: State, steps: seq<Step>)
    decreases |steps|
  {
    s.clock <= I64_MAX && (steps == [] || (Enabled(s, steps[0]) && ValidRun(w, Apply(w, s, steps[0]), steps[1..])))
  }

  function Exec(w: Window, s: State, steps: seq<Step>): State
    requires ValidRun(w, s, steps)
    decreases |steps|
  {
    if steps == [] then s else Exec(w, Apply(w, s, steps[0]), steps[1..])
  }

  // ----- What every step keeps -----

  /** A consumption is still on record, or its retention is over. */
  predicate Retained(s: State, t: Taken) {
    && t.at <= s.clock
    && (|| (t.nonce in s.nonces && s.nonces[t.nonce] >= t.at + ATTESTATION_NONCE_TTL)
        || s.clock > t.at + ATTESTATION_NONCE_TTL)
  }

  ghost predicate Nonces(s: State) {
    && (forall i | 0 <= i < |s.taken| :: Retained(s, s.taken[i]))
    && (forall i, j | 0 <= i < j < |s.taken| ::
          s.taken[i].nonce == s.taken[j].nonce ==> s.taken[j].at > s.taken[i].at + ATTESTATION_NONCE_TTL)
  }

  /** A holder of a consumption presented that nonce, after reading its clock. */
  predicate Holds(s: State, att: Signed, now: u64, taken: nat) {
    taken < |s.taken| && s.taken[taken].nonce == att.nonce && now <= s.taken[taken].at && now <= I64_MAX
  }

  ghost predicate Requests(s: State) {
    && (forall id | id in s.requests && s.requests[id].Clocked? :: s.requests[id].now <= s.clock)
    && (forall id | id in s.requests && s.requests[id].Consumed? ::
          Holds(s, s.requests[id].att, s.requests[id].now, s.requests[id].taken))
    && (forall id, jd | id in s.requests && jd in s.requests && id != jd
                        && s.requests[id].Consumed? && s.requests[jd].Consumed? ::
          s.requests[id].taken != s.requests[jd].taken)
  }

  /** The credential lasts the largest permitted number of days, at least one. */
  ghost predicate Dated(c: Credential) {
    exists days: nat :: Lasts(c, days)
  }

  ghost predicate Lasts(c: Credential, days: nat) {
    && days >= 1 && Permitted(days, c.requested, c.policy) && c.exp == c.iat + days * 86_400
    && forall d: nat | Permitted(d, c.requested, c.policy) :: d <= days
  }

  ghost predicate Issued(w: Window, s: State) {
    && (forall k | 0 <= k < |s.issued| ::
          && Holds(s, s.issued[k].att, s.issued[k].iat, s.issued[k].taken)
          && IsFresh(w, s.issued[k].att, s.issued[k].iat)
          && Dated(s.issued[k]))
    && (forall k, l | 0 <= k < l < |s.issued| :: s.issued[k].taken != s.issued[l].taken)
    && (forall k, id | 0 <= k < |s.issued| && id in s.requests && s.requests[id].Consumed? ::
          s.issued[k].taken != s.requests[id].taken)
  }

  ghost predicate Inv(w: Window, s: State) {
    s.clock <= I64_MAX && Nonces(s) && Requests(s) && Issued(w, s)
  }

  lemma ConsumeKeepsNonces(w: Window, s: State, id: nat)
    requires s.clock <= I64_MAX && Nonces(s) && Enabled(s, Consume(id))
    ensures Nonces(Apply(w, s, Consume(id)))
  {
    var s' := Apply(w, s, Consume(id));
    forall i | 0 <= i < |s.taken|
      ensures Retained(s', s.taken[i])
    {
      assert Retained(s, s.taken[i]);
    }
  }

  lemma ConsumeKeeps(w: Window, s: State, id: nat)
    requires Inv(w, s) && Enabled(s, Consume(id))
    ensures Inv(w, Apply(w, s, Consume(id)))
  {
    ConsumeKeepsNonces(w, s, id);
    hide Nonces, Dated;
  }

  lemma IssueKeeps(w: Window, s: State, id: nat, key: nat, requested: Option<u32>, policy: u32)
    requires Inv(w, s) && Enabled(s, Issue(id, key, requested, policy))
    ensures Inv(w, Apply(w, s, Issue(id, key, requested, policy)))
  {
    DatesExact(s.requests[id].now, requested, policy);
    var s' := Apply(w, s, Issue(id, key, requested, policy));
    if |s'.issued| > |s.issued| {
      assert Lasts(s'.issued[|s.issued|], ValidityDays(requested, policy));
    }
    hide IssueDates, Dated;
    assert Nonces(s') by {
      forall i | 0 <= i < |s'.taken|
        ensures Retained(s', s'.taken[i])
      {
        assert Retained(s, s.taken[i]);
      }
    }
  }

  lemma WorldKeeps(w: Window, s: State, step: Step)
    requires Inv(w, s) && Enabled(s, step) && (step.Tick? || step.Purge?)
    ensures Inv(w, Apply(w, s, step))
  {
    var s' := Apply(w, s, step);
    forall i | 0 <= i < |s'.taken|
      ensures Retained(s', s'.taken[i])
    {
      assert Retained(s, s.taken[i]);
    }
  }

  lemma RequestKeeps(w: Window, s: State, step: Step)
    requires Inv(w, s) && Enabled(s, step) && (step.Begin? || step.Stop?)
    ensures Inv(w, Apply(w, s, step))
  {
    var s' := Apply(w, s, step);
    assert Nonces(s') by {
      forall i | 0 <= i < |s'.taken|
        ensures Retained(s', s'.taken[i])
      {
        assert Retained(s, s.taken[i]);
      }
    }
  }

  lemma StepKeeps(w: Window, s: State, step: Step)
    requires Inv(w, s) && Enabled(s, step)
    ensures Inv(w, Apply(w, s, step))
  {
    hide Inv, Apply;
    match step
    case Consume(id) => ConsumeKeeps(w, s, id);
    case Issue(id, key, requested, policy) => IssueKeeps(w, s, id, key, requested, policy);
    case Begin(_, _) => RequestKeeps(w, s, step);
    case Stop(_) => RequestKeeps(w, s, step);
    case _ => WorldKeeps(w, s, step);
  }

  lemma {:induction false} RunKeeps(w: Window, s: State, steps: seq<Step>)
    requires Inv(w, s) && ValidRun(w, s, steps)
    ensures Inv(w, Exec(w, s, steps))
    decreases |steps|
  {
    if steps != [] {
      StepKeeps(w, s, steps[0]);
      RunKeeps(w, Apply(w, s, steps[0]), steps[1..]);
    }
  }

  /**
   * Every credential of every run expires a whole number of days after issue,
   * the largest number that policy, request and hard maximum permit, unsaturated.
   */
  lemma CredentialDatesExact(w: Window, clock: nat, steps: seq<Step>, k: nat)
    requires clock <= I64_MAX && ValidRun(w, Start(clock), steps)
    requires k < |Exec(w, Start(clock), steps).issued|
    ensures Dated(Exec(w, Start(clock), steps).issued[k])
  {
    RunKeeps(w, Start(clock), steps);
  }

  /**
   * Progress: from every state of every run, a request whose nonce is not held
   * gets its credential by its own two steps, dated from its own clock, exactly
   * when the key verifies its fresh attestation and the days are not zero.
   */
  lemma UnheldNonceGetsCredential(w: Window, s: State, id: nat, key: nat, requested: Option<u32>, policy: u32)
    requires s.clock <= I64_MAX && id in s.requests && s.requests[id].Clocked? && s.requests[id].now <= I64_MAX
    ensures var r := s.requests[id];
            var s1 := Apply(w, s, Consume(id));
            (id in s1.requests <==> r.att.nonce !in s.nonces || s.nonces[r.att.nonce] < s.clock)
            && (id in s1.requests ==>
                  var s2 := Apply(w, s1, Issue(id, key, requested, policy));
                  if r.att.signer == key && r.att.timestamp <= r.now + w.maxSkew && r.now <= r.att.timestamp + w.maxAge
                     && policy != 0 && requested != Some(0)
                  then |s2.issued| == |s.issued| + 1 && s2.issued[..|s.issued|] == s.issued
                       && s2.issued[|s.issued|].att == r.att && s2.issued[|s.issued|].iat == r.now
                  else s2.issued == s.issued)
  {
    DatesExact(s.requests[id].now, requested, policy);
    hide IssueDates;
  }

  /** A request whose three steps have nothing in between gets a credential dated from the moment it began. */
  lemma RequestAloneGetsCredential(w: Window, s: State, id: nat, att: Signed, requested: Option<u32>, policy: u32)
    requires s.clock <= I64_MAX && id !in s.requests
    requires att.nonce !in s.nonces || s.nonces[att.nonce] < s.clock
    requires IsFresh(w, att, s.clock) && policy != 0 && requested != Some(0)
    ensures var s1 := Apply(w, s, Begin(id, att));
            var s2 := Apply(w, s1, Consume(id));
            && id in s2.requests && s2.requests[id].Consumed?
            && var s3 := Apply(w, s2, Issue(id, att.signer, requested, policy));
               && |s3.issued| == |s.issued| + 1 && s3.issued[|s.issued|].att == att
               && s3.issued[|s.issued|].iat == s.clock
               && s3.nonces == s.nonces[att.nonce := s.clock + 7200] && id !in s3.requests
  {
    UnheldNonceGetsCredential(w, Apply(w, s, Begin(id, att)), id, att.signer, requested, policy);
    hide IssueDates;
  }

  /** Whatever request is about to be signed after any run, the signer's guard lets its dates pass. */
  lemma SignerNeverRefuses(w: Window, clock: nat, steps: seq<Step>, id: nat, requested: Option<u32>, policy: u32)
    requires clock <= I64_MAX && ValidRun(w, Start(clock), steps)
    requires var s := Exec(w, Start(clock), steps); id in s.requests && s.requests[id].Consumed?
    ensures var dates := IssueDates(Exec(w, Start(clock), steps).requests[id].now, requested, policy);
            dates.Some? ==> SignerAccepts(dates.value.0, dates.value.1) && dates.value.0 < dates.value.1
  {
    RunKeeps(w, Start(clock), steps);
    DatesExact(Exec(w, Start(clock), steps).requests[id].now, requested, policy);
  }

  /** Two credentials on one nonce were consumed more than the retention time apart. */
  lemma OneCredentialPerRetainedNonce(w: Window, clock: nat, steps: seq<Step>, k: nat, l: nat)
    requires clock <= I64_MAX && ValidRun(w, Start(clock), steps)
    requires var s := Exec(w, Start(clock), steps);
             k < |s.issued| && l < |s.issued| && k != l && s.issued[k].att.nonce == s.issued[l].att.nonce
    ensures var s := Exec(w, Start(clock), steps);
            var a, b := s.issued[k].taken, s.issued[l].taken;
            && a < |s.taken| && b < |s.taken|
            && (|| s.taken[a].at > s.taken[b].at + ATTESTATION_NONCE_TTL
                || s.taken[b].at > s.taken[a].at + ATTESTATION_NONCE_TTL)
  {
    RunKeeps(w, Start(clock), steps);
  }

  /**
   * Retention outlasts freshness: if every request reaches the nonce check
   * within what is left of the retention time after the freshness window, no
   * attestation yields two credentials, ever.
   */
  lemma OneCredentialPerAttestation(w: Window, clock: nat, steps: seq<Step>, k: nat, l: nat)
    requires clock <= I64_MAX && ValidRun(w, Start(clock), steps)
    requires var s := Exec(w, Start(clock), steps);
             && k < |s.issued| && l < |s.issued| && k != l
             && forall i | 0 <= i < |s.issued| ::
                  s.issued[i].taken < |s.taken| ==>
                  s.taken[s.issued[i].taken].at - s.issued[i].iat + w.maxAge + w.maxSkew <= ATTESTATION_NONCE_TTL
    ensures var s := Exec(w, Start(clock), steps);
            s.issued[k].att != s.issued[l].att
  {
    var s := Exec(w, Start(clock), steps);
    if s.issued[k].att == s.issued[l].att {
      OneCredentialPerRetainedNonce(w, clock, steps, k, l);
      RunKeeps(w, Start(clock), steps);
    }
  }
}
