/**
 * Concurrent signing-key rotations under the lease lock (src/key_rotation.rs,
 * rotate_signing_key). Every step is one lock request, one KV operation, or the
 * passing of time; a rotation may stop after any step.
 */
module RotationProtocol {
  import opened Common
  import opened SigningKeys
  import opened LeaseLock

  // ----- Rotations in progress -----

  datatype Stage =
    | Granted
    | Loading(names: seq<string>, failed: set<string>, keys: seq<Record>, next: nat)
    | Putting(puts: seq<Record>, done: nat, entry: nat)

  /**
   * `kv`, `lock` and `now` are the world; `procs` the rotations in progress.
   * `used` holds the tokens drawn so far; `log` records, per planned rotation in
   * order, what it listed and how many of its puts have happened, and `past` the
   * namespace each of them was planned on. `entry` is a rotation's place in them.
   */
  datatype State = State(
    kv: Kv,
    lock: Option<LockRecord>,
    now: int,
    procs: map<nat, Proc<Stage>>,
    used: set<nat>,
    past: seq<Kv>,
    log: seq<Rotation>)

  datatype Step =
    | Tick(seconds: nat)
    | Acquire(pid: nat, token: nat, ttl: nat, readOk: bool)
    | List(pid: nat, names: seq<string>)
    | Load(pid: nat, ok: bool)
    | Plan(pid: nat, publicKey: string, sealed: string)
    | PutNext(pid: nat)
    | Leave(pid: nat, released: bool)
    | Alarm

  /** Tokens are fresh; everything else a rotation does follows its own stage. */
  predicate Enabled(s: State, step: Step) {
    match step
    case Tick(_) => true
    case Acquire(pid, token, ttl, _) => pid !in s.procs && token !in s.used && ttl >= 1
    case List(pid, names) => pid in s.procs && s.procs[pid].stage.Granted? && Lists(names, s.kv)
    case Load(pid, _) =>
      pid in s.procs && var st := s.procs[pid].stage; st.Loading? && st.next < |st.names|
    case Plan(pid, _, _) =>
      pid in s.procs && var st := s.procs[pid].stage; st.Loading? && st.next == |st.names|
    case PutNext(pid) =>
      pid in s.procs && var st := s.procs[pid].stage; st.Putting? && st.done < |st.puts|
    case Leave(pid, _) => pid in s.procs
    case Alarm => s.lock.Some? && s.now >= s.lock.value.expiresAt
  }

  predicate InLease(s: State, pid: nat) { Live(s.procs, s.now, pid) }

  predicate Steals(s: State, step: Step) { step.Acquire? && StealsLock(s.procs, s.now, step.readOk) }

  /** A KV step comes less than `d` seconds after its rotation's lease, and no lease is granted away. */
  predicate LateBy(s: State, step: Step, d: nat) {
    && ((step.List? || step.Load? || step.Plan? || step.PutNext?) && step.pid in s.procs
        ==> s.now < s.procs[step.pid].lease + d)
    && !Steals(s, step)
  }

  function At(s: State, pid: nat, stage: Stage): map<nat, Proc<Stage>>
    requires pid in s.procs
  {
    s.procs[pid := s.procs[pid].(stage := stage)]
  }

  function Apply(s: State, step: Step): State
    requires Enabled(s, step)
  {
    match step
    case Tick(seconds) => s.(now := s.now + seconds)
    case Acquire(pid, token, ttl, readOk) =>
      var (granted, lock) := Acquired(s.lock, readOk, token, ttl, s.now);
      if granted then
        s.(lock := lock, used := s.used + {token}, procs := s.procs[pid := Proc(token, lock.value.expiresAt, Granted)])
      else s.(used := s.used + {token})
    case List(pid, names) => s.(procs := At(s, pid, Loading(names, {}, [], 0)))
    case Load(pid, ok) =>
      var st := s.procs[pid].stage;
      var name := st.names[st.next];
      var failed := if ok then st.failed else st.failed + {name};
      var got := if Loads(s.kv, failed, name) then [s.kv[name].rec] else [];
      s.(procs := At(s, pid, Loading(st.names, failed, st.keys + got, st.next + 1)))
    case Plan(pid, publicKey, sealed) =>
      var st := s.procs[pid].stage;
      var puts := Deprecations(st.keys) + [NewKey(st.keys, s.now, publicKey, sealed)];
      s.(procs := At(s, pid, Putting(puts, 0, |s.log|)),
         past := s.past + [s.kv],
         log := s.log + [Rotation(st.names, st.failed, s.now, publicKey, sealed, 0)])
    case PutNext(pid) =>
      var st := s.procs[pid].stage;
      s.(kv := Put(s.kv, st.puts[st.done]),
         procs := At(s, pid, Putting(st.puts, st.done + 1, st.entry)),
         log := if st.entry < |s.log| then s.log[st.entry := s.log[st.entry].(puts := st.done + 1)] else s.log)
    case Leave(pid, released) =>
      s.(lock := if released then Released(s.lock, s.procs[pid].token) else s.lock, procs := s.procs - {pid})
    case Alarm => s.(lock := None)
  }

  function Start(kv: Kv, now: int): State { State(kv, None, now, map[], {}, [], []) }

  predicate ValidRun(s: State, steps: seq<Step>)
    decreases |steps|
  {
    steps == [] || (Enabled(s, steps[0]) && ValidRun(Apply(s, steps[0]), steps[1..]))
  }

  /** Every KV step of the run comes less than `d` seconds after its rotation's lease. */
  predicate RunLateBy(s: State, steps: seq<Step>, d: nat)
    requires ValidRun(s, steps)
    decreases |steps|
  {
    steps == [] || (LateBy(s, steps[0], d) && RunLateBy(Apply(s, steps[0]), steps[1..], d))
  }

  /** Every KV step of the run falls within its rotation's lease. */
  predicate RunInLease(s: State, steps: seq<Step>)
    requires ValidRun(s, steps)
  {
    RunLateBy(s, steps, 0)
  }

  function Exec(s: State, steps: seq<Step>): State
    requires ValidRun(s, steps)
    decreases |steps|
  {
    if steps == [] then s else Exec(Apply(s, steps[0]), steps[1..])
  }

  // ----- Mutual exclusion and serialisation -----

  ghost predicate Excludes(s: State) { Exclusive(s.lock, s.procs, s.used, s.now) }

  /** Mutual exclusion survives every step but the grant of a lock that was held and could not be read. */
  lemma ExclusiveStepIff(s: State, step: Step)
    requires Excludes(s) && Enabled(s, step)
    ensures Excludes(Apply(s, step)) <==> !Steals(s, step)
  {
    hide Exclusive, StealsLock;
    match step
    case Tick(seconds) => LapseKeeps(s.lock, s.procs, s.used, s.now, seconds);
    case Acquire(pid, token, ttl, readOk) =>
      AcquireKeepsIff(s.lock, s.procs, s.used, s.now, pid, token, ttl, readOk, Granted);
    case Leave(pid, released) => LeaveKeeps(s.lock, s.procs, s.used, s.now, pid, released);
    case Alarm => LapseKeeps(s.lock, s.procs, s.used, s.now, 0);
    case _ => StageKeeps(s.lock, s.procs, s.used, s.now, step.pid, Apply(s, step).procs[step.pid].stage);
  }

  /** A rotation that leaves in its lease and releases lets the next one in at once. */
  lemma LeavingLetsNextIn(s: State, pid: nat, next: nat, token: nat, ttl: nat)
    requires Excludes(s) && InLease(s, pid) && next !in s.procs && token !in s.used && ttl >= 1
    ensures var s1 := Apply(s, Leave(pid, true));
            && Enabled(s1, Acquire(next, token, ttl, true))
            && next in Apply(s1, Acquire(next, token, ttl, true)).procs
  {
    ReleaseFrees(s.lock, s.procs[pid].token, token, ttl, s.now);
  }

  /** What a rotation within its lease has seen of the namespace is what is there. */
  ghost predicate InStep(kv: Kv, past: seq<Kv>, log: seq<Rotation>, stage: Stage)
    requires |past| == |log|
  {
    match stage
    case Granted => true
    case Loading(names, failed, keys, next) =>
      && Lists(names, kv) && next <= |names| && keys == LoadAll(kv, names[..next], failed)
      && forall v | v in failed :: v in names[..next]
    case Putting(puts, done, n) =>
      && n + 1 == |log|
      && Legal(past[n], log[n]) && log[n].puts == done && puts == PutsOf(past[n], log[n])
  }

  ghost predicate Recorded(kv0: Kv, s: State) {
    |s.past| == |s.log| && History(s.past + [s.kv], s.log) && (s.past + [s.kv])[0] == kv0
  }

  ghost predicate Serial(kv0: Kv, s: State) {
    && Excludes(s) && Recorded(kv0, s)
    && forall p | InLease(s, p) :: InStep(s.kv, s.past, s.log, s.procs[p].stage)
  }

  lemma {:induction false} LoadAllSnoc(kv: Kv, names: seq<string>, failed: set<string>, name: string)
    ensures LoadAll(kv, names + [name], failed) ==
            LoadAll(kv, names, failed) + if Loads(kv, failed, name) then [kv[name].rec] else []
  {
    var all := names + [name];
    if names == [] {
      assert all[1..] == [];
    } else {
      assert all[1..] == names[1..] + [name];
      LoadAllSnoc(kv, names[1..], failed, name);
    }
  }

  /** A failure elsewhere does not change what these names load. */
  lemma {:induction false} LoadAllFrame(kv: Kv, names: seq<string>, failed: set<string>, name: string)
    requires name !in names
    ensures LoadAll(kv, names, failed + {name}) == LoadAll(kv, names, failed)
  {
    if names != [] {
      LoadAllFrame(kv, names[1..], failed, name);
    }
  }

  /** Only one rotation can be within its lease, so its own view is all there is to keep. */
  lemma SerialFrom(kv0: Kv, s: State, pid: nat)
    requires Excludes(s) && Recorded(kv0, s)
    requires InLease(s, pid) && InStep(s.kv, s.past, s.log, s.procs[pid].stage)
    ensures Serial(kv0, s)
  {
    forall p | InLease(s, p)
      ensures p == pid
    {
      OneLive(s.lock, s.procs, s.used, s.now, p, pid);
    }
  }

  lemma QuietStep(kv0: Kv, s: State, step: Step)
    requires Serial(kv0, s) && Enabled(s, step)
    requires (step.Tick? || step.Acquire? || step.Leave? || step.Alarm?) && !Steals(s, step)
    ensures Serial(kv0, Apply(s, step))
  {
    var s' := Apply(s, step);
    ExclusiveStepIff(s, step);
    forall p | InLease(s', p)
      ensures InStep(s'.kv, s'.past, s'.log, s'.procs[p].stage)
    {
      assert s'.procs[p].stage.Granted? || (InLease(s, p) && InStep(s.kv, s.past, s.log, s.procs[p].stage));
    }
  }

  lemma ListStep(kv0: Kv, s: State, pid: nat, names: seq<string>)
    requires Serial(kv0, s) && Enabled(s, List(pid, names)) && InLease(s, pid)
    ensures Serial(kv0, Apply(s, List(pid, names)))
  {
    ExclusiveStepIff(s, List(pid, names));
    assert names[..0] == [];
    SerialFrom(kv0, Apply(s, List(pid, names)), pid);
  }

  lemma LoadStep(kv0: Kv, s: State, pid: nat, ok: bool)
    requires Serial(kv0, s) && Enabled(s, Load(pid, ok)) && InLease(s, pid)
    ensures Serial(kv0, Apply(s, Load(pid, ok)))
  {
    hide LoadAll;
    ExclusiveStepIff(s, Load(pid, ok));
    var st := s.procs[pid].stage;
    assert InStep(s.kv, s.past, s.log, st);
    var name := st.names[st.next];
    var failed := if ok then st.failed else st.failed + {name};
    assert name !in st.names[..st.next];
    LoadAllFrame(s.kv, st.names[..st.next], st.failed, name);
    LoadAllSnoc(s.kv, st.names[..st.next], failed, name);
    assert st.names[..st.next + 1] == st.names[..st.next] + [name];
    SerialFrom(kv0, Apply(s, Load(pid, ok)), pid);
  }

  lemma PlanStep(kv0: Kv, s: State, pid: nat, publicKey: string, sealed: string)
    requires Serial(kv0, s) && Enabled(s, Plan(pid, publicKey, sealed)) && InLease(s, pid)
    ensures Serial(kv0, Apply(s, Plan(pid, publicKey, sealed)))
  {
    hide Exclusive, Excludes, History, LoadAll, Deprecations, NewKey;
    var s' := Apply(s, Plan(pid, publicKey, sealed));
    ExclusiveStepIff(s, Plan(pid, publicKey, sealed));
    var st := s.procs[pid].stage;
    assert InStep(s.kv, s.past, s.log, st);
    assert st.names[..st.next] == st.names;
    PlanRecorded(s.past, s.kv, s.log, s'.log[|s.log|]);
    SerialFrom(kv0, s', pid);
  }

  lemma PlanRecorded(past: seq<Kv>, kv: Kv, log: seq<Rotation>, r: Rotation)
    requires History(past + [kv], log) && Lists(r.names, kv) && r.puts == 0
    ensures History(past + [kv] + [kv], log + [r])
  {
    hide LoadAll, Deprecations, NewKey;
    assert PutsOf(kv, r)[..0] == [];
    var kvs, kvs', log' := past + [kv], past + [kv] + [kv], log + [r];
    forall i | 0 <= i < |log'|
      ensures Legal(kvs'[i], log'[i]) && kvs'[i + 1] == Rotate(kvs'[i], log'[i])
    {
      assert i < |log| ==> log'[i] == log[i] && kvs'[i] == kvs[i] && kvs'[i + 1] == kvs[i + 1];
    }
  }

  lemma PutStep(kv0: Kv, s: State, pid: nat)
    requires Serial(kv0, s) && Enabled(s, PutNext(pid)) && InLease(s, pid)
    ensures Serial(kv0, Apply(s, PutNext(pid)))
  {
    hide Exclusive, Excludes, History, PutsOf;
    ExclusiveStepIff(s, PutNext(pid));
    assert InStep(s.kv, s.past, s.log, s.procs[pid].stage);
    PutRecorded(s.past, s.kv, s.log);
    SerialFrom(kv0, Apply(s, PutNext(pid)), pid);
  }

  lemma PutRecorded(past: seq<Kv>, kv: Kv, log: seq<Rotation>)
    requires log != [] && |past| == |log|
    requires var n := |log| - 1; Lists(log[n].names, past[n]) && log[n].puts < |PutsOf(past[n], log[n])|
    requires History(past + [kv], log)
    ensures var n := |log| - 1;
            var r' := log[n].(puts := log[n].puts + 1);
            var put := PutsOf(past[n], log[n])[log[n].puts];
            && History(past + [Put(kv, put)], log[n := r'])
            && Legal(past[n], r') && PutsOf(past[n], r') == PutsOf(past[n], log[n])
  {
    hide PutsOf, Rotate, Lists, Put;
    var n := |log| - 1;
    assert (past + [kv])[n] == past[n] && (past + [kv])[n + 1] == kv;
    OneMorePut(past[n], log[n]);
    var kvs' := past + [Put(kv, PutsOf(past[n], log[n])[log[n].puts])];
    var log' := log[n := log[n].(puts := log[n].puts + 1)];
    forall i | 0 <= i < |log'|
      ensures Legal(kvs'[i], log'[i]) && kvs'[i + 1] == Rotate(kvs'[i], log'[i])
    {
      assert i < n ==> kvs'[i] == (past + [kv])[i] && kvs'[i + 1] == (past + [kv])[i + 1];
    }
  }

  lemma OneMorePut(base: Kv, r: Rotation)
    requires Lists(r.names, base) && r.puts < |PutsOf(base, r)|
    ensures var r' := r.(puts := r.puts + 1);
            && PutsOf(base, r') == PutsOf(base, r)
            && Rotate(base, r') == Put(Rotate(base, r), PutsOf(base, r)[r.puts])
  {
    hide LoadAll, Deprecations, NewKey, Put;
    var puts := PutsOf(base, r);
    assert puts[..r.puts + 1][..r.puts] == puts[..r.puts];
  }

  lemma SerialStep(kv0: Kv, s: State, step: Step)
    requires Serial(kv0, s) && Enabled(s, step) && LateBy(s, step, 0)
    ensures Serial(kv0, Apply(s, step))
  {
    match step
    case List(pid, names) => ListStep(kv0, s, pid, names);
    case Load(pid, ok) => LoadStep(kv0, s, pid, ok);
    case Plan(pid, publicKey, sealed) => PlanStep(kv0, s, pid, publicKey, sealed);
    case PutNext(pid) => PutStep(kv0, s, pid);
    case _ => QuietStep(kv0, s, step);
  }

  lemma {:induction false} SerialRun(kv0: Kv, s: State, steps: seq<Step>)
    requires Serial(kv0, s) && ValidRun(s, steps) && RunLateBy(s, steps, 0)
    ensures Serial(kv0, Exec(s, steps))
    decreases |steps|
  {
    if steps != [] {
      SerialStep(kv0, s, steps[0]);
      SerialRun(kv0, Apply(s, steps[0]), steps[1..]);
    }
  }

  /**
   * However the rotations interleave, stop or lapse, and whichever loads fail,
   * as long as each takes its KV steps within its lease the namespace is what
   * running them one after another, each cut short where it stopped, would leave.
   */
  lemma RotationsSerialise(kv0: Kv, now: int, steps: seq<Step>)
    requires ValidRun(Start(kv0, now), steps) && RunInLease(Start(kv0, now), steps)
    ensures var s := Exec(Start(kv0, now), steps);
            |s.past| == |s.log| && History(s.past + [s.kv], s.log) && (s.past + [s.kv])[0] == kv0
  {
    SerialRun(kv0, Start(kv0, now), steps);
  }

  /**
   * Hence, if every completed rotation took a free name, no stored key is lost
   * or altered but by deprecation; and if each loaded all active records, there
   * is never more than one active key beyond what the run started with.
   */
  lemma ConcurrentRotationsSafe(kv0: Kv, now: int, steps: seq<Step>)
    requires ValidRun(Start(kv0, now), steps) && RunInLease(Start(kv0, now), steps) && WellStored(kv0)
    ensures var s := Exec(Start(kv0, now), steps);
            && |s.past| == |s.log|
            && ((forall i {:trigger s.log[i]} | 0 <= i < |s.log| :: NameIsFree(s.past[i], s.log[i])) ==>
                  Evolves(kv0, s.kv))
            && ((forall i {:trigger s.log[i]} | 0 <= i < |s.log| ::
                   Complete(s.past[i], s.log[i]) ==> ActiveVersions(s.past[i]) * s.log[i].failed == {}) ==>
                  |ActiveVersions(s.kv)| <= Max(|ActiveVersions(kv0)|, 1))
  {
    RotationsSerialise(kv0, now, steps);
    var s := Exec(Start(kv0, now), steps);
    hide History, Complete, NameIsFree, Evolves, ActiveVersions;
    var kvs := s.past + [s.kv];
    assert forall i | 0 <= i < |s.log| :: kvs[i] == s.past[i];
    if forall i {:trigger s.log[i]} | 0 <= i < |s.log| :: NameIsFree(s.past[i], s.log[i]) {
      HistorySafe(kvs, s.log, |s.log|);
    }
    if forall i {:trigger s.log[i]} | 0 <= i < |s.log| ::
         Complete(s.past[i], s.log[i]) ==> ActiveVersions(s.past[i]) * s.log[i].failed == {} {
      HistoryActiveBounded(kvs, s.log, |s.log|);
    }
  }

  /** With new keypairs the first condition is exact: a rotation loses a key if and only if it takes a stored name. */
  lemma ConcurrentRotationsSafeIff(kv0: Kv, now: int, steps: seq<Step>)
    requires ValidRun(Start(kv0, now), steps) && RunInLease(Start(kv0, now), steps) && WellStored(kv0)
    requires var s := Exec(Start(kv0, now), steps);
             |s.past| == |s.log| && forall i {:trigger s.log[i]} | 0 <= i < |s.log| :: FreshKey(s.past[i], s.log[i])
    ensures var s := Exec(Start(kv0, now), steps);
            (forall i | 0 <= i < |s.log| :: StepEvolves(s.past + [s.kv], i)) <==>
            (forall i {:trigger s.log[i]} | 0 <= i < |s.log| :: NameIsFree(s.past[i], s.log[i]))
  {
    RotationsSerialise(kv0, now, steps);
    var s := Exec(Start(kv0, now), steps);
    hide History, StepEvolves, NameIsFree, FreshKey;
    assert forall i | 0 <= i < |s.log| :: (s.past + [s.kv])[i] == s.past[i];
    HistorySafeIff(s.past + [s.kv], s.log);
  }

  /**
   * A rotation that stored its key got a smaller version number than any
   * rotation planned after it that loads the highest version.
   */
  lemma ConcurrentVersionsDistinct(kv0: Kv, now: int, steps: seq<Step>, i: nat, j: nat)
    requires ValidRun(Start(kv0, now), steps) && RunInLease(Start(kv0, now), steps) && WellStored(kv0)
    requires var s := Exec(Start(kv0, now), steps);
             && i < j < |s.log| && |s.past| == |s.log| && Complete(s.past[i], s.log[i])
             && HighestLoads(s.past[j], s.log[j].failed) && Headroom(s.past[j])
    ensures var s := Exec(Start(kv0, now), steps);
            var a := VersionNumber(MadeKey(s.past[i], s.log[i]).version);
            var b := VersionNumber(MadeKey(s.past[j], s.log[j]).version);
            a.Some? && b.Some? && a.value < b.value
  {
    RotationsSerialise(kv0, now, steps);
    var s := Exec(Start(kv0, now), steps);
    var kvs := s.past + [s.kv];
    assert kvs[i] == s.past[i] && kvs[j] == s.past[j];
    VersionsIncrease(kvs, s.log, i, j);
  }

  lemma {:induction false} LoadsOkRun(s: State, steps: seq<Step>)
    requires ValidRun(s, steps) && NothingFailed(s)
    requires forall i | 0 <= i < |steps| :: steps[i].Load? ==> steps[i].ok
    ensures NothingFailed(Exec(s, steps))
    decreases |steps|
  {
    if steps != [] {
      assert steps[0] in steps;
      LoadsOkRun(Apply(s, steps[0]), steps[1..]);
    }
  }

  predicate NothingFailed(s: State) {
    && (forall p | p in s.procs :: s.procs[p].stage.Loading? ==> s.procs[p].stage.failed == {})
    && (forall i | 0 <= i < |s.log| :: s.log[i].failed == {})
  }

  /**
   * Nothing about the run need be known but that no load fails: from readable
   * records with room for the rotations to come, no stored key is lost or
   * altered but by deprecation, and active keys never exceed max(initial, 1).
   */
  lemma ConcurrentRotationsSafeIfAllLoads(kv0: Kv, now: int, steps: seq<Step>, m: nat)
    requires ValidRun(Start(kv0, now), steps) && RunInLease(Start(kv0, now), steps) && WellStored(kv0)
    requires forall i | 0 <= i < |steps| :: steps[i].Load? ==> steps[i].ok
    requires AllReadable(kv0) && NumbersUpTo(kv0, m) && m + |Exec(Start(kv0, now), steps).log| <= U32_MAX
    ensures var s := Exec(Start(kv0, now), steps);
            Evolves(kv0, s.kv) && |ActiveVersions(s.kv)| <= Max(|ActiveVersions(kv0)|, 1)
  {
    RotationsSerialise(kv0, now, steps);
    LoadsOkRun(Start(kv0, now), steps);
    var s := Exec(Start(kv0, now), steps);
    HistorySafeIfAllLoads(s.past + [s.kv], s.log, m, |s.log|);
  }

  // ----- Without the lease hypothesis -----

  ghost predicate Reaches(s: State, t: State, d: nat) {
    exists steps :: ValidRun(s, steps) && RunLateBy(s, steps, d) && Exec(s, steps) == t
  }

  lemma {:induction false} RunAppend(s: State, steps: seq<Step>, last: Step, d: nat)
    requires ValidRun(s, steps) && RunLateBy(s, steps, d)
    requires Enabled(Exec(s, steps), last) && LateBy(Exec(s, steps), last, d)
    ensures ValidRun(s, steps + [last]) && RunLateBy(s, steps + [last], d)
    ensures Exec(s, steps + [last]) == Apply(Exec(s, steps), last)
    decreases |steps|
  {
    hide Apply, Enabled, LateBy;
    var all := steps + [last];
    if steps == [] {
      assert all[1..] == [];
    } else {
      assert all[0] == steps[0] && all[1..] == steps[1..] + [last];
      RunAppend(Apply(s, steps[0]), steps[1..], last, d);
    }
  }

  lemma Stay(s: State, d: nat)
    ensures Reaches(s, s, d)
  {
    assert ValidRun(s, []) && RunLateBy(s, [], d) && Exec(s, []) == s;
  }

  lemma Extend(start: State, s: State, last: Step, d: nat)
    requires Reaches(start, s, d) && Enabled(s, last) && LateBy(s, last, d)
    ensures Reaches(start, Apply(s, last), d)
  {
    hide Apply, Enabled, LateBy;
    var steps :| ValidRun(start, steps) && RunLateBy(start, steps, d) && Exec(start, steps) == s;
    RunAppend(start, steps, last, d);
  }

  /** About to store the first key of an empty namespace. */
  function FirstPut(now: int, publicKey: string, entry: nat): Stage {
    Putting([NewKey([], now, publicKey, "")], 0, entry)
  }

  function FirstRotation(now: int, publicKey: string, puts: nat): Rotation {
    Rotation([], {}, now, publicKey, "", puts)
  }

  /** A rotation gets a free or lapsed lock on an empty namespace and plans its single put. */
  lemma PlansFirstKey(start: State, s: State, pid: nat, token: nat, publicKey: string, d: nat) returns (t: State)
    requires Reaches(start, s, d) && s.kv == map[] && pid !in s.procs && token !in s.used
    requires s.lock.None? || s.lock.value.expiresAt <= s.now
    ensures Reaches(start, t, d)
    ensures t.kv == map[] && t.now == s.now && t.used == s.used + {token}
    ensures t.lock == Some(LockRecord(token, s.now + MAX_LOCK_TTL))
    ensures pid in t.procs && t.procs - {pid} == s.procs
    ensures t.procs[pid] == Proc(token, s.now + MAX_LOCK_TTL, FirstPut(s.now, publicKey, |s.log|))
    ensures t.log == s.log + [FirstRotation(s.now, publicKey, 0)]
  {
    hide Reaches, NewKey;
    Extend(start, s, Acquire(pid, token, 30, true), d);
    t := Apply(s, Acquire(pid, token, 30, true));
    Extend(start, t, List(pid, []), d);
    t := Apply(t, List(pid, []));
    assert t.procs[pid].stage == Loading([], {}, [], 0);
    assert Deprecations([]) + [NewKey([], s.now, publicKey, "")] == [NewKey([], s.now, publicKey, "")];
    Extend(start, t, Plan(pid, publicKey, ""), d);
    t := Apply(t, Plan(pid, publicKey, ""));
    assert t.procs - {pid} == s.procs;
  }

  predicate HoldsKey(s: State, v: string, publicKey: string) {
    v in s.kv && s.kv[v].Loadable? && s.kv[v].rec.publicKey == publicKey
  }

  /**
   * Two rotations plan the first key; the second gets the lock in the second in
   * which the first one's lease ends, and stores its key.
   */
  lemma TwoPlans(start: State, a: string, b: string, d: nat) returns (s: State)
    requires start == Start(map[], start.now) && d >= 1
    ensures Reaches(start, s, d) && s.now == start.now + MAX_LOCK_TTL && s.kv == Put(map[], NewKey([], s.now, b, ""))
    ensures 0 in s.procs && s.procs[0] == Proc(0, start.now + MAX_LOCK_TTL, FirstPut(start.now, a, 0))
    ensures s.log == [FirstRotation(start.now, a, 0), FirstRotation(s.now, b, 1)]
  {
    Stay(start, d);
    hide Reaches, NewKey;
    var s1 := PlansFirstKey(start, start, 0, 0, a, d);
    Extend(start, s1, Tick(30), d);
    var s2 := Apply(s1, Tick(30));
    assert 1 !in s1.procs - {0};
    var s3 := PlansFirstKey(start, s2, 1, 1, b, d);
    assert 0 in s3.procs - {1} && (s3.procs - {1})[0] == s1.procs[0];
    Extend(start, s3, PutNext(1), d);
    s := Apply(s3, PutNext(1));
  }

  /**
   * The store has no fence against a late put: a rotation that is late by less
   * than a second overwrites the key another rotation has stored meanwhile.
   */
  lemma LatePutOverwritesKey(start: State, a: string, b: string, d: nat) returns (s: State, t: State, v: string)
    requires start == Start(map[], start.now) && d >= 1
    ensures Reaches(start, s, d) && Reaches(s, t, d) && HoldsKey(s, v, b) && HoldsKey(t, v, a)
  {
    s := TwoPlans(start, a, b, d);
    Stay(s, d);
    hide Reaches;
    Extend(s, s, PutNext(0), d);
    t := Apply(s, PutNext(0));
    v := NextVersion([]);
  }

  /** The namespace is what the logged rotations leave when run one after another, in some order. */
  ghost predicate Serialisable(kv0: Kv, log: seq<Rotation>, kv: Kv) {
    exists kvs, h :: History(kvs, h) && multiset(h) == multiset(log) && kvs[0] == kv0 && kvs[|h|] == kv
  }

  /** Two rotations that both found the namespace empty and stored a key fit no serial order. */
  lemma TwoFirstKeysDoNotSerialise(log: seq<Rotation>, kv: Kv)
    requires |log| == 2 && forall i | 0 <= i < 2 :: log[i].names == [] && log[i].puts == 1
    ensures !Serialisable(map[], log, kv)
  {
    if Serialisable(map[], log, kv) {
      var kvs: seq<Kv>, h: seq<Rotation> :|
        History(kvs, h) && multiset(h) == multiset(log) && kvs[0] == map[] && kvs[|h|] == kv;
      assert |multiset(h)| == |h| && |multiset(log)| == |log|;
      forall i | 0 <= i < |h|
        ensures h[i].names == [] && h[i].puts == 1
      {
        assert h[i] in multiset(h);
        assert h[i] in log;
      }
      EmptyListing(kvs[1], h[1]);
      OnePutFillsNamespace(kvs[0], h[0]);
    }
  }

  lemma EmptyListing(kv: Kv, r: Rotation)
    requires Legal(kv, r) && r.names == []
    ensures kv == map[]
  {
  }

  lemma OnePutFillsNamespace(kv: Kv, r: Rotation)
    requires Legal(kv, r) && r.puts == 1
    ensures Rotate(kv, r) != map[]
  {
    var puts := PutsOf(kv, r)[..1];
    assert PutAll(kv, puts) == Put(PutAll(kv, puts[..0]), puts[0]);
    assert puts[0].version in Rotate(kv, r);
  }

  /** Every run whose KV steps come less than `d` seconds after the lease serialises. */
  ghost predicate AlwaysSerialisable(d: nat) {
    forall kv0, now, steps | ValidRun(Start(kv0, now), steps) && RunLateBy(Start(kv0, now), steps, d) ::
      var s := Exec(Start(kv0, now), steps);
      Serialisable(kv0, s.log, s.kv)
  }

  /** Exactly how late a KV step may come for rotations to serialise: not at all. */
  lemma AlwaysSerialisableIff(d: nat)
    ensures AlwaysSerialisable(d) <==> d == 0
  {
    if d == 0 {
      forall kv0, now, steps | ValidRun(Start(kv0, now), steps) && RunLateBy(Start(kv0, now), steps, d)
        ensures var s := Exec(Start(kv0, now), steps); Serialisable(kv0, s.log, s.kv)
      {
        RotationsSerialise(kv0, now, steps);
        var s := Exec(Start(kv0, now), steps);
        assert (s.past + [s.kv])[|s.log|] == s.kv;
      }
    } else {
      LateRunDoesNotSerialise(Start(map[], 0), d);
    }
  }

  lemma LateRunDoesNotSerialise(start: State, d: nat)
    requires start == Start(map[], start.now) && d >= 1
    ensures !AlwaysSerialisable(d)
  {
    var s := TwoPlans(start, "a", "b", d);
    Extend(start, s, PutNext(0), d);
    var t := Apply(s, PutNext(0));
    TwoFirstKeysDoNotSerialise(t.log, t.kv);
    var steps :| ValidRun(start, steps) && RunLateBy(start, steps, d) && Exec(start, steps) == t;
  }
}
