/**
 * Interleaved attestation-key rotations, signing calls and redemptions
 * (src/routes.rs). Every step is one lock request, one storage call, or the
 * passing of time; a call may stop after any step.
 */
module AttestationRuns {
  import opened Common
  import opened Attestation
  import opened LeaseLock

  // ----- Rotations, one storage call at a time -----

  /** A rotation under way: the configuration it read, and how many of its checks it has passed. */
  datatype Stage =
    | Granted
    | HasConfig(config: Config)
    | HasVerifying(config: Config)
    | HasSigning(config: Config)
    | Ended(result: Result<Config, RotateError>)

  datatype Rotator = Rotator(newKid: string, stage: Stage)

  /** The next storage call of a rotation: config read, two lookups, config put; `fault` says it fails. */
  function Advanced(r: Rotator, config: Config, verifying: map<string, VerifyingRecord>,
                    signing: map<string, SigningRecord>, fault: bool): Stage
  {
    if r.stage.Ended? then r.stage
    else if fault then Ended(Err(StorageFailed))
    else
      match r.stage
      case Granted => if config.defaultKid == r.newKid then Ended(Err(SelfRotation)) else HasConfig(config)
      case HasConfig(c) => if r.newKid in verifying then HasVerifying(c) else Ended(Err(VerifyingKeyMissing))
      case HasVerifying(c) => if r.newKid in signing then HasSigning(c) else Ended(Err(SigningKeyMissing))
      case HasSigning(c) => Ended(Ok(Promoted(c, r.newKid)))
  }

  /** Four storage calls with nothing in between are the rotation as the handler states it. */
  lemma UninterruptedIsRotateCheck(config: Config, verifying: map<string, VerifyingRecord>,
                                   signing: map<string, SigningRecord>, newKid: string, faults: RotateFaults)
    ensures var s1 := Advanced(Rotator(newKid, Granted), config, verifying, signing, faults.config);
            var s2 := Advanced(Rotator(newKid, s1), config, verifying, signing, faults.verifying);
            var s3 := Advanced(Rotator(newKid, s2), config, verifying, signing, faults.signing);
            var s4 := Advanced(Rotator(newKid, s3), config, verifying, signing, faults.write);
            s4 == Ended(RotateCheck(config, verifying, signing, newKid, faults))
  {
  }

  // ----- The machine -----

  /**
   * `kids` holds the kids that have been default, oldest first, and `signed` the
   * attestations made so far with the kid each was signed under; both are
   * history. A signing call holds the default kid it read.
   */
  datatype State = State(
    config: Config,
    verifying: map<string, VerifyingRecord>,
    signing: map<string, SigningRecord>,
    lock: Option<LockRecord>,
    now: int,
    procs: map<nat, Proc<Rotator>>,
    used: set<nat>,
    signers: map<nat, string>,
    kids: seq<string>,
    signed: seq<(string, Signed)>)

  /** Records may be edited or removed at will; a kid's key material is never replaced. */
  datatype Step =
    | Tick(seconds: nat)
    | LoadKey(kid: string, key: nat, active: bool, validFrom: u64, validUntil: u64)
    | EditKey(kid: string, active: bool, validFrom: u64, validUntil: u64)
    | SetSigning(kid: string, active: bool)
    | RemoveKey(kid: string)
    | Acquire(pid: nat, token: nat, ttl: nat, readOk: bool, newKid: string)
    | Advance(pid: nat, fault: bool)
    | Leave(pid: nat, released: bool)
    | Alarm
    | ReadDefault(sid: nat)
    | Sign(sid: nat, nonce: nat, timestamp: u64)

  predicate Enabled(s: State, step: Step) {
    match step
    case LoadKey(kid, key, _, _, _) => kid !in s.signing && forall k | k in s.signing :: s.signing[k].key != key
    case EditKey(kid, _, _, _) => kid in s.verifying
    case SetSigning(kid, _) => kid in s.signing
    case Acquire(pid, token, ttl, _, _) => pid !in s.procs && token !in s.used && ttl >= 1
    case Advance(pid, _) => pid in s.procs && !s.procs[pid].stage.stage.Ended?
    case Leave(pid, _) => pid in s.procs
    case Alarm => s.lock.Some? && s.now >= s.lock.value.expiresAt
    case Sign(sid, _, _) => sid in s.signers
    case _ => true
  }

  function Apply(s: State, step: Step): State
    requires Enabled(s, step)
  {
    match step
    case Tick(seconds) => s.(now := s.now + seconds)
    case LoadKey(kid, key, active, from, until) =>
      s.(verifying := s.verifying[kid := VerifyingRecord(active, from, until, Point(key))],
         signing := s.signing[kid := SigningRecord(key, true)])
    case EditKey(kid, active, from, until) =>
      s.(verifying := s.verifying[kid := s.verifying[kid].(active := active, validFrom := from, validUntil := until)])
    case SetSigning(kid, active) => s.(signing := s.signing[kid := s.signing[kid].(active := active)])
    case RemoveKey(kid) => s.(verifying := s.verifying - {kid})
    case Acquire(pid, token, ttl, readOk, newKid) =>
      var (granted, lock) := Acquired(s.lock, readOk, token, ttl, s.now);
      if granted then
        s.(lock := lock, used := s.used + {token},
           procs := s.procs[pid := Proc(token, lock.value.expiresAt, Rotator(newKid, Granted))])
      else s.(used := s.used + {token})
    case Advance(pid, fault) =>
      var r := s.procs[pid].stage;
      var stage := Advanced(r, s.config, s.verifying, s.signing, fault);
      var s' := s.(procs := s.procs[pid := s.procs[pid].(stage := r.(stage := stage))]);
      if stage.Ended? && stage.result.Ok? then s'.(config := stage.result.value, kids := s.kids + [r.newKid]) else s'
    case Leave(pid, released) =>
      s.(lock := if released then Released(s.lock, s.procs[pid].token) else s.lock, procs := s.procs - {pid})
    case Alarm => s.(lock := None)
    case ReadDefault(sid) => s.(signers := s.signers[sid := s.config.defaultKid])
    case Sign(sid, nonce, timestamp) =>
      match SignUnder(s.signers[sid], s.signing, nonce, timestamp)
      case Some(att) => s.(signers := s.signers - {sid}, signed := s.signed + [(s.signers[sid], att)])
      case None => s.(signers := s.signers - {sid})
  }

  /** A fresh deployment: one default kid, no previous one, no keys loaded yet. */
  function Start(kid: string, now: int): State {
    State(Config(kid, None), map[], map[], None, now, map[], {}, map[], [kid], [])
  }

  predicate InLease(s: State, pid: nat) { Live(s.procs, s.now, pid) }

  predicate Steals(s: State, step: Step) { step.Acquire? && StealsLock(s.procs, s.now, step.readOk) }

  predicate IsPut(s: State, step: Step) {
    step.Advance? && step.pid in s.procs && s.procs[step.pid].stage.stage.HasSigning?
  }

  /** A config put comes less than `d` seconds after its rotation's lease, and no lease is granted away. */
  predicate LateBy(s: State, step: Step, d: nat) {
    && (IsPut(s, step) ==> s.now < s.procs[step.pid].lease + d)
    && !Steals(s, step)
  }

  predicate ValidRun(s: State, steps: seq<Step>)
    decreases |steps|
  {
    steps == [] || (Enabled(s, steps[0]) && ValidRun(Apply(s, steps[0]), steps[1..]))
  }

  predicate RunLateBy(s: State, steps: seq<Step>, d: nat)
    requires ValidRun(s, steps)
    decreases |steps|
  {
    steps == [] || (LateBy(s, steps[0], d) && RunLateBy(Apply(s, steps[0]), steps[1..], d))
  }

  /** Every config put of the run falls within its rotation's lease. */
  predicate PutsInLease(s: State, steps: seq<Step>)
    requires ValidRun(s, steps)
  {
    RunLateBy(s, steps, 0)
  }

  function Exec(s: State, steps: seq<Step>): State
    requires ValidRun(s, steps)
    decreases |steps|
  {
    if steps == [] then s else Exec(Apply(s, steps[0]), steps[1..])
  }

  // ----- Key material, in every run -----

  ghost predicate Consistent(s: State) {
    && Matches(s.signing, s.verifying)
    && forall i | 0 <= i < |s.signed| ::
         s.signed[i].0 in s.signing && s.signed[i].1.signer == s.signing[s.signed[i].0].key
  }

  /** Signing keys stay, with their material, and what was signed stays signed. */
  ghost predicate Grows(s: State, t: State) {
    && (forall kid | kid in s.signing :: kid in t.signing && t.signing[kid].key == s.signing[kid].key)
    && |s.signed| <= |t.signed| && t.signed[..|s.signed|] == s.signed
  }

  lemma ConsistentStep(s: State, step: Step)
    requires Consistent(s) && Enabled(s, step)
    ensures Consistent(Apply(s, step)) && Grows(s, Apply(s, step))
  {
    match step
    case LoadKey(_, _, _, _, _) => ConsistentKeyStep(s, step);
    case EditKey(_, _, _, _) => ConsistentKeyStep(s, step);
    case SetSigning(_, _) => ConsistentKeyStep(s, step);
    case RemoveKey(_) => ConsistentKeyStep(s, step);
    case Sign(_, _, _) => hide Matches;
    case _ =>
      hide Matches;
      assert Apply(s, step).signing == s.signing && Apply(s, step).signed == s.signed;
  }

  /** Steps on key records sign nothing. */
  lemma ConsistentKeyStep(s: State, step: Step)
    requires Consistent(s) && Enabled(s, step)
    requires step.LoadKey? || step.EditKey? || step.SetSigning? || step.RemoveKey?
    ensures Consistent(Apply(s, step)) && Grows(s, Apply(s, step))
  {
    assert Apply(s, step).signed == s.signed;
  }

  lemma {:induction false} ConsistentRun(s: State, steps: seq<Step>)
    requires Consistent(s) && ValidRun(s, steps)
    ensures Consistent(Exec(s, steps)) && Grows(s, Exec(s, steps))
    decreases |steps|
  {
    hide Consistent, Apply, Enabled;
    if steps != [] {
      var s1 := Apply(s, steps[0]);
      ConsistentStep(s, steps[0]);
      ConsistentRun(s1, steps[1..]);
      assert s1.signed[..|s.signed|] == Exec(s, steps).signed[..|s1.signed|][..|s.signed|];
    }
  }

  // ----- The last two default kids, while puts fall in the lease -----

  ghost predicate Excludes(s: State) { Exclusive(s.lock, s.procs, s.used, s.now) }

  /** A rotation that holds a configuration does not promote its own default; in its lease it holds the current one. */
  ghost predicate Holds(s: State, pid: nat)
    requires pid in s.procs
  {
    var r := s.procs[pid].stage;
    r.stage.HasConfig? || r.stage.HasVerifying? || r.stage.HasSigning? ==>
      r.stage.config.defaultKid != r.newKid && (InLease(s, pid) ==> r.stage.config == s.config)
  }

  ghost predicate Ordered(s: State) {
    && Excludes(s) && LastTwo(s.config, s.kids)
    && forall pid | pid in s.procs :: Holds(s, pid)
  }

  lemma ExclusiveStep(s: State, step: Step)
    requires Excludes(s) && Enabled(s, step) && !Steals(s, step)
    ensures Excludes(Apply(s, step))
  {
    hide Exclusive, StealsLock;
    match step
    case Tick(seconds) => LapseKeeps(s.lock, s.procs, s.used, s.now, seconds);
    case Acquire(pid, token, ttl, readOk, newKid) =>
      AcquireKeepsIff(s.lock, s.procs, s.used, s.now, pid, token, ttl, readOk, Rotator(newKid, Granted));
    case Advance(pid, _) =>
      StageKeeps(s.lock, s.procs, s.used, s.now, pid, Apply(s, step).procs[pid].stage);
    case Leave(pid, released) => LeaveKeeps(s.lock, s.procs, s.used, s.now, pid, released);
    case Alarm => LapseKeeps(s.lock, s.procs, s.used, s.now, 0);
    case _ =>
  }

  /** The put itself: nobody else can hold a configuration in its lease, and the kids move up by one. */
  lemma PutKeeps(s: State, pid: nat)
    requires Ordered(s) && Enabled(s, Advance(pid, false)) && IsPut(s, Advance(pid, false)) && InLease(s, pid)
    ensures Ordered(Apply(s, Advance(pid, false)))
  {
    var s' := Apply(s, Advance(pid, false));
    ExclusiveStep(s, Advance(pid, false));
    assert Holds(s, pid);
    forall p | p in s'.procs
      ensures Holds(s', p)
    {
      assert Holds(s, p);
      if InLease(s, p) {
        OneLive(s.lock, s.procs, s.used, s.now, p, pid);
      }
    }
    hide Exclusive;
  }

  lemma CheckKeeps(s: State, pid: nat, fault: bool)
    requires Ordered(s) && Enabled(s, Advance(pid, fault)) && (fault || !IsPut(s, Advance(pid, fault)))
    ensures Ordered(Apply(s, Advance(pid, fault)))
  {
    var s' := Apply(s, Advance(pid, fault));
    ExclusiveStep(s, Advance(pid, fault));
    hide Exclusive, LastTwo;
    assert s'.config == s.config && s'.kids == s.kids;
    forall p | p in s'.procs
      ensures Holds(s', p)
    {
      assert Holds(s, p);
    }
  }

  lemma OtherStepKeeps(s: State, step: Step)
    requires Ordered(s) && Enabled(s, step) && LateBy(s, step, 0) && !step.Advance?
    ensures Ordered(Apply(s, step))
  {
    var s' := Apply(s, step);
    ExclusiveStep(s, step);
    hide Exclusive, LastTwo;
    assert s'.config == s.config && s'.kids == s.kids;
    forall p | p in s'.procs
      ensures Holds(s', p)
    {
      assert p in s.procs ==> Holds(s, p);
    }
  }

  lemma {:induction false} OrderedRun(s: State, steps: seq<Step>)
    requires Ordered(s) && ValidRun(s, steps) && RunLateBy(s, steps, 0)
    ensures Ordered(Exec(s, steps))
    decreases |steps|
  {
    hide Ordered;
    if steps != [] {
      match steps[0] {
        case Advance(pid, fault) =>
          if fault || !IsPut(s, steps[0]) {
            CheckKeeps(s, pid, fault);
          } else {
            PutKeeps(s, pid);
          }
        case _ => OtherStepKeeps(s, steps[0]);
      }
      OrderedRun(Apply(s, steps[0]), steps[1..]);
    }
  }

  /**
   * After every run whose config puts fall within their leases, the slots tried
   * are the last two default kids, newest first, and they differ.
   */
  lemma SlotsAreLastTwo(kid0: string, now: int, steps: seq<Step>)
    requires ValidRun(Start(kid0, now), steps) && PutsInLease(Start(kid0, now), steps)
    ensures var s := Exec(Start(kid0, now), steps);
            var slots := TrialSlots(s.config);
            && LastTwo(s.config, s.kids)
            && (|slots| == 2 ==> slots[0].1 != slots[1].1)
            && forall kid :: (exists i | 0 <= i < |slots| :: slots[i].1 == kid) <==> AmongLastTwo(s.kids, kid)
  {
    OrderedRun(Start(kid0, now), steps);
    var s := Exec(Start(kid0, now), steps);
    var slots := TrialSlots(s.config);
    forall kid | AmongLastTwo(s.kids, kid)
      ensures exists i | 0 <= i < |slots| :: slots[i].1 == kid
    {
      assert slots[0].1 == kid || slots[1].1 == kid;
    }
  }

  // ----- Redemption across steps -----

  /** The records a redemption sees: its lookup of the default kid comes before that of the previous kid. */
  function LookedUp(config: Config, first: map<string, VerifyingRecord>, second: map<string, VerifyingRecord>)
      : map<string, VerifyingRecord>
  {
    map kid | kid in first.Keys + second.Keys
              && (if kid == config.defaultKid then kid in first else Some(kid) == config.previousKid && kid in second)
            :: if kid == config.defaultKid then first[kid] else second[kid]
  }

  lemma LookedUpMatches(s: State, t: State, config: Config)
    requires Consistent(s) && Consistent(t) && Grows(s, t)
    ensures Matches(t.signing, LookedUp(config, s.verifying, t.verifying))
  {
  }

  /**
   * Sign, rotate, redeem: a redemption reads the configuration after any run
   * whose puts fall in their leases, looks up the default kid after any more
   * steps and the previous kid after yet more. An attestation signed earlier
   * under kid k redeems if and only if its nonce is not held as used, k was one of
   * the last two default kids when the configuration was read, its record was
   * eligible when looked up, it is fresh, and storage answers; and then it is k's
   * own key that verifies it.
   */
  lemma RedeemsIff(w: Window, kid0: string, start: int, steps: seq<Step>, toFirst: seq<Step>, toSecond: seq<Step>,
                   i: nat, nonces: map<nat, nat>, now: u64, nonceNow: u64, faults: RedeemFaults)
    requires ValidRun(Start(kid0, start), steps) && PutsInLease(Start(kid0, start), steps)
    requires ValidRun(Exec(Start(kid0, start), steps), toFirst)
    requires ValidRun(Exec(Exec(Start(kid0, start), steps), toFirst), toSecond)
    requires i < |Exec(Start(kid0, start), steps).signed|
    ensures var s := Exec(Start(kid0, start), steps);
            var s1 := Exec(s, toFirst);
            var s2 := Exec(s1, toSecond);
            var (kid, att) := s.signed[i];
            var records := LookedUp(s.config, s1.verifying, s2.verifying);
            var outcome := Redemption(w, s.config, records, nonces, att, now, nonceNow, faults).0;
            && (outcome.Verified? <==>
                  && NoFaults(s.config, faults) && !HeldAsUsed(nonces, att.nonce, nonceNow) && AmongLastTwo(s.kids, kid)
                  && EligibleKid(if kid == s.config.defaultKid then s1.verifying else s2.verifying, kid, now)
                  && IsFresh(w, att, now))
            && (outcome.Verified? ==> outcome.matched.kid == kid)
  {
    var s := Exec(Start(kid0, start), steps);
    var s1 := Exec(s, toFirst);
    var s2 := Exec(s1, toSecond);
    OrderedRun(Start(kid0, start), steps);
    ConsistentRun(Start(kid0, start), steps);
    ConsistentRun(s, toFirst);
    ConsistentRun(s1, toSecond);
    LookedUpMatches(s1, s2, s.config);
    var (kid, att) := s.signed[i];
    assert s2.signed[..|s1.signed|][i] == s1.signed[..|s.signed|][i] == s.signed[i];
    hide Matches, Redemption, HeldAsUsed, Exclusive, ValidRun, RunLateBy, Exec;
    RedemptionIff(w, s.config, s.kids, s2.signing, LookedUp(s.config, s1.verifying, s2.verifying), kid, att,
                  nonces, now, nonceNow, faults);
  }

  /**
   * What signing is for: whatever kid a signing call read and however long ago,
   * the attestation it makes redeems at once exactly when that kid is still one of
   * the last two and eligible, the attestation is fresh and storage answers.
   */
  lemma NewAttestationRedeemsIff(w: Window, kid0: string, start: int, steps: seq<Step>, sid: nat, nonce: nat,
                                 timestamp: u64, nonces: map<nat, nat>, now: u64, nonceNow: u64, faults: RedeemFaults)
    requires ValidRun(Start(kid0, start), steps) && PutsInLease(Start(kid0, start), steps)
    requires var s := Exec(Start(kid0, start), steps);
             sid in s.signers && SignUnder(s.signers[sid], s.signing, nonce, timestamp).Some?
    ensures var s := Exec(Start(kid0, start), steps);
            var kid := s.signers[sid];
            var att := SignUnder(kid, s.signing, nonce, timestamp).value;
            var outcome := Redemption(w, s.config, s.verifying, nonces, att, now, nonceNow, faults).0;
            && (outcome.Verified? <==>
                  && NoFaults(s.config, faults) && !HeldAsUsed(nonces, nonce, nonceNow) && AmongLastTwo(s.kids, kid)
                  && EligibleKid(s.verifying, kid, now) && IsFresh(w, att, now))
            && (outcome.Verified? ==> outcome.matched.kid == kid)
  {
    var s := Exec(Start(kid0, start), steps);
    OrderedRun(Start(kid0, start), steps);
    ConsistentRun(Start(kid0, start), steps);
    var kid := s.signers[sid];
    var att := SignUnder(kid, s.signing, nonce, timestamp).value;
    hide Matches, Redemption, HeldAsUsed;
    RedemptionIff(w, s.config, s.kids, s.signing, s.verifying, kid, att, nonces, now, nonceNow, faults);
  }

  /**
   * A signing call makes an attestation exactly when the signing key of the kid
   * it read is there and active, and then one with that key and the given nonce
   * and time; nothing else ever adds an attestation.
   */
  lemma SignsIff(s: State, step: Step)
    requires Enabled(s, step)
    ensures var t := Apply(s, step);
            var able := step.Sign? && s.signers[step.sid] in s.signing && s.signing[s.signers[step.sid]].active;
            && (able ==> t.signed == s.signed + [(s.signers[step.sid], Signed(s.signing[s.signers[step.sid]].key,
                                                                             step.nonce, step.timestamp))])
            && (!able ==> t.signed == s.signed)
  {
  }

  /**
   * Retiring a kid takes effect at once: a disabled signing key makes no
   * attestation, and what was signed under a kid whose verifying record has been
   * removed or deactivated does not redeem.
   */
  lemma RetiredKidIsRefused(s: State, step: Step, w: Window, att: Signed, sid: nat, nonce: nat, timestamp: u64,
                            nonces: map<nat, nat>, now: u64, nonceNow: u64, faults: RedeemFaults)
    requires Consistent(s) && Enabled(s, step)
    requires step.SetSigning? || step.RemoveKey? || step.EditKey?
    ensures var t := Apply(s, step);
            && (step.SetSigning? && !step.active && sid in s.signers && s.signers[sid] == step.kid ==>
                  Apply(t, Sign(sid, nonce, timestamp)).signed == s.signed)
            && (step.RemoveKey? || (step.EditKey? && !step.active) ==>
                  step.kid in s.signing && att.signer == s.signing[step.kid].key ==>
                    !Redemption(w, t.config, t.verifying, nonces, att, now, nonceNow, faults).0.Verified?)
  {
    var t := Apply(s, step);
    var candidates := CandidatesOf(TrialSlots(t.config), t.verifying, now);
    FirstMatchIff(w, candidates, att, now);
    var m := FirstMatch(w, candidates, att, now);
    if m.Some? {
      CandidateIff(TrialSlots(t.config), t.verifying, now, m.value);
    }
    hide CandidatesOf, FirstMatch, CheckAndSet;
  }

  /** A rotation that leaves in its lease and releases lets the next one in at once. */
  lemma LeavingLetsNextIn(s: State, pid: nat, next: nat, token: nat, ttl: nat, newKid: string)
    requires Excludes(s) && InLease(s, pid) && next !in s.procs && token !in s.used && ttl >= 1
    ensures var s1 := Apply(s, Leave(pid, true));
            && Enabled(s1, Acquire(next, token, ttl, true, newKid))
            && next in Apply(s1, Acquire(next, token, ttl, true, newKid)).procs
  {
    ReleaseFrees(s.lock, s.procs[pid].token, token, ttl, s.now);
  }

  // ----- Without the lease hypothesis -----

  ghost predicate Reaches(s: State, t: State, d: nat) {
    exists steps :: ValidRun(s, steps) && RunLateBy(s, steps, d) && Exec(s, steps) == t
  }

  lemma {:induction false} RunAppend(s: State, steps: seq<Step>, last: Step, d: nat)
    requires ValidRun(s, steps) && RunLateBy(s, steps, d)
    requires Enabled(Exec(s, steps), last) && LateBy(Exec(s, steps), last, d)
    ensures ValidRun(s, steps + [last]) && RunLateBy(s, steps + [last], d)
    ensures Exec(s, steps + [last]) == Apply(Exec(s, steps), last)
    decreases |steps|
  {
    hide Apply, Enabled, LateBy;
    var all := steps + [last];
    if steps == [] {
      assert all[1..] == [];
    } else {
      assert all[0] == steps[0] && all[1..] == steps[1..] + [last];
      RunAppend(Apply(s, steps[0]), steps[1..], last, d);
    }
  }

  lemma Stay(s: State, d: nat)
    ensures Reaches(s, s, d)
  {
    assert ValidRun(s, []) && RunLateBy(s, [], d) && Exec(s, []) == s;
  }

  lemma Extend(start: State, s: State, last: Step, d: nat)
    requires Reaches(start, s, d) && Enabled(s, last) && LateBy(s, last, d)
    ensures Reaches(start, Apply(s, last), d)
  {
    hide Apply, Enabled, LateBy;
    var steps :| ValidRun(start, steps) && RunLateBy(start, steps, d) && Exec(start, steps) == s;
    RunAppend(start, steps, last, d);
  }

  /** A rotation to a loaded kid gets a free or lapsed lock and makes all its checks. */
  lemma PassesChecks(start: State, s: State, pid: nat, token: nat, newKid: string, d: nat) returns (t: State)
    requires Reaches(start, s, d) && pid !in s.procs && token !in s.used
    requires s.lock.None? || s.lock.value.expiresAt <= s.now
    requires newKid != s.config.defaultKid && newKid in s.verifying && newKid in s.signing
    ensures Reaches(start, t, d)
    ensures t == s.(lock := Some(LockRecord(token, s.now + MAX_LOCK_TTL)), used := s.used + {token},
                    procs := s.procs[pid := Proc(token, s.now + MAX_LOCK_TTL, Rotator(newKid, HasSigning(s.config)))])
  {
    hide Reaches;
    Extend(start, s, Acquire(pid, token, 30, true, newKid), d);
    t := Apply(s, Acquire(pid, token, 30, true, newKid));
    Extend(start, t, Advance(pid, false), d);
    t := Apply(t, Advance(pid, false));
    assert t.procs[pid].stage == Rotator(newKid, HasConfig(s.config));
    Extend(start, t, Advance(pid, false), d);
    t := Apply(t, Advance(pid, false));
    Extend(start, t, Advance(pid, false), d);
    t := Apply(t, Advance(pid, false));
    assert t.procs == s.procs[pid := Proc(token, s.now + MAX_LOCK_TTL, Rotator(newKid, HasSigning(s.config)))];
  }

  /** Two more kids are loaded into a fresh deployment, valid for ever. */
  lemma TwoMoreKids(start: State, k2: string, k3: string, d: nat) returns (s: State)
    requires start == Start(start.config.defaultKid, start.now) && k2 != k3
    ensures Reaches(start, s, d) && Consistent(s)
    ensures s == start.(verifying := map[k2 := VerifyingRecord(true, 0, 0, Point(2)),
                                         k3 := VerifyingRecord(true, 0, 0, Point(3))],
                        signing := map[k2 := SigningRecord(2, true), k3 := SigningRecord(3, true)])
  {
    Stay(start, d);
    hide Reaches;
    Extend(start, start, LoadKey(k2, 2, true, 0, 0), d);
    s := Apply(start, LoadKey(k2, 2, true, 0, 0));
    Extend(start, s, LoadKey(k3, 3, true, 0, 0), d);
    s := Apply(s, LoadKey(k3, 3, true, 0, 0));
  }

  /** A rotation that has made all its checks puts its configuration, less than `d` late. */
  lemma Puts(start: State, s: State, pid: nat, d: nat) returns (t: State)
    requires Reaches(start, s, d) && pid in s.procs && s.procs[pid].stage.stage.HasSigning?
    requires s.now < s.procs[pid].lease + d
    ensures Reaches(start, t, d)
    ensures var r := s.procs[pid].stage;
            t == s.(config := Promoted(r.stage.config, r.newKid), kids := s.kids + [r.newKid], procs := t.procs)
            && t.procs - {pid} == s.procs - {pid}
  {
    Extend(start, s, Advance(pid, false), d);
    t := Apply(s, Advance(pid, false));
  }

  lemma SignsNow(start: State, s: State, sid: nat, nonce: nat, timestamp: u64, d: nat) returns (t: State)
    requires Reaches(start, s, d) && SignUnder(s.config.defaultKid, s.signing, nonce, timestamp).Some?
    ensures Reaches(start, t, d)
    ensures var kid := s.config.defaultKid;
            var att := SignUnder(kid, s.signing, nonce, timestamp).value;
            t == s.(signed := s.signed + [(kid, att)], signers := t.signers)
  {
    hide Reaches;
    Extend(start, s, ReadDefault(sid), d);
    t := Apply(s, ReadDefault(sid));
    Extend(start, t, Sign(sid, nonce, timestamp), d);
    t := Apply(t, Sign(sid, nonce, timestamp));
  }

  /** One rotation stalls before its put; another gets the lock in the second in which the lease ends. */
  lemma TwoReady(start: State, k2: string, k3: string, d: nat) returns (s: State)
    requires start == Start(start.config.defaultKid, start.now) && d >= 1
    requires k2 != k3 && k2 != start.config.defaultKid && k3 != start.config.defaultKid
    ensures Reaches(start, s, d) && Consistent(s) && s.now == start.now + MAX_LOCK_TTL
    ensures s.config == start.config && s.kids == start.kids && s.signed == []
    ensures s.procs == map[0 := Proc(0, s.now, Rotator(k3, HasSigning(start.config))),
                           1 := Proc(1, s.now + MAX_LOCK_TTL, Rotator(k2, HasSigning(start.config)))]
    ensures k2 in s.signing && s.signing[k2] == SigningRecord(2, true)
    ensures k2 in s.verifying && s.verifying[k2] == VerifyingRecord(true, 0, 0, Point(2))
  {
    s := TwoMoreKids(start, k2, k3, d);
    hide Reaches, Matches;
    s := PassesChecks(start, s, 0, 0, k3, d);
    Extend(start, s, Tick(30), d);
    s := Apply(s, Tick(30));
    s := PassesChecks(start, s, 1, 1, k2, d);
  }

  /**
   * The second rotation makes k2 the default; an attestation is signed under it;
   * then the stalled put makes k3 the default and forgets k2.
   */
  lemma LatePutDropsKid(start: State, k2: string, k3: string, nonce: nat, timestamp: u64, d: nat) returns (t: State)
    requires start == Start(start.config.defaultKid, start.now) && d >= 1
    requires k2 != k3 && k2 != start.config.defaultKid && k3 != start.config.defaultKid
    ensures Reaches(start, t, d) && Consistent(t)
    ensures t.config == Config(k3, Some(start.config.defaultKid)) && t.kids == [start.config.defaultKid, k2, k3]
    ensures t.signed == [(k2, Signed(2, nonce, timestamp))] && forall now :: EligibleKid(t.verifying, k2, now)
  {
    var s := TwoReady(start, k2, k3, d);
    hide Reaches, Matches;
    var s1 := Puts(start, s, 1, d);
    var s2 := SignsNow(start, s1, 0, nonce, timestamp, d);
    assert 0 in s1.procs - {1} && (s1.procs - {1})[0] == (s.procs - {1})[0];
    t := Puts(start, s2, 0, d);
  }

  /**
   * So the attestation under k2, the default kid before the last, is refused by
   * every redemption, although its record is eligible, it may be fresh, its nonce
   * unused and storage may answer.
   */
  lemma LatePutRefusesKid(start: State, k2: string, k3: string, nonce: nat, timestamp: u64, d: nat,
                          w: Window, nonces: map<nat, nat>, now: u64, nonceNow: u64, faults: RedeemFaults)
      returns (t: State)
    requires start == Start(start.config.defaultKid, start.now) && d >= 1
    requires k2 != k3 && k2 != start.config.defaultKid && k3 != start.config.defaultKid
    ensures Reaches(start, t, d) && t.signed == [(k2, Signed(2, nonce, timestamp))]
    ensures AmongLastTwo(t.kids, k2) && EligibleKid(t.verifying, k2, now)
    ensures !Redemption(w, t.config, t.verifying, nonces, t.signed[0].1, now, nonceNow, faults).0.Verified?
  {
    t := LatePutDropsKid(start, k2, k3, nonce, timestamp, d);
    hide Reaches;
    OtherKidsAreRefused(w, t.config, t.signing, t.verifying, k2, t.signed[0].1, nonces, now, nonceNow, faults);
  }

  /** The configuration holds the last two default kids after every run whose puts come less than `d` late. */
  ghost predicate AlwaysLastTwo(d: nat) {
    forall kid0, now, steps | ValidRun(Start(kid0, now), steps) && RunLateBy(Start(kid0, now), steps, d) ::
      var s := Exec(Start(kid0, now), steps);
      LastTwo(s.config, s.kids)
  }

  /** Exactly how late a config put may come for that: not at all. */
  lemma AlwaysLastTwoIff(d: nat)
    ensures AlwaysLastTwo(d) <==> d == 0
  {
    if d == 0 {
      forall kid0, now, steps | ValidRun(Start(kid0, now), steps) && RunLateBy(Start(kid0, now), steps, d)
        ensures var s := Exec(Start(kid0, now), steps); LastTwo(s.config, s.kids)
      {
        SlotsAreLastTwo(kid0, now, steps);
      }
    } else {
      LateRunLosesOrder(Start("a", 0), d);
    }
  }

  lemma LateRunLosesOrder(start: State, d: nat)
    requires start == Start("a", start.now) && d >= 1
    ensures !AlwaysLastTwo(d)
  {
    var t := LatePutDropsKid(start, "b", "c", 0, 0, d);
    assert !LastTwo(t.config, t.kids);
    var steps :| ValidRun(start, steps) && RunLateBy(start, steps, d) && Exec(start, steps) == t;
  }
}
