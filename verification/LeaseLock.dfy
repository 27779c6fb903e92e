/**
 * The lease lock (src/resource_lock.rs; the lock object of
 * src/durable_objects/resource_lock.rs), and what its holders may rely on.
 */
module LeaseLock {
  import opened Common

  const MAX_LOCK_TTL: int := 30

  datatype LockRecord = LockRecord(token: nat, expiresAt: int)

  /**
   * `/acquire`: granted when free or expired, for at most 30 seconds. A failed
   * read of the stored lock counts as free.
   */
  function Acquired(lock: Option<LockRecord>, readOk: bool, token: nat, ttl: nat, now: int)
      : (bool, Option<LockRecord>)
  {
    if readOk && lock.Some? && now < lock.value.expiresAt then (false, lock)
    else (true, Some(LockRecord(token, now + Min(ttl, MAX_LOCK_TTL))))
  }

  /** `/release`: only the holder's token frees the lock. */
  function Released(lock: Option<LockRecord>, token: nat): Option<LockRecord> {
    if lock.Some? && lock.value.token == token then None else lock
  }

  /** A caller that was granted the lock until `lease`, and how far it has come. */
  datatype Proc<+S> = Proc(token: nat, lease: int, stage: S)

  predicate Live<S>(procs: map<nat, Proc<S>>, now: int, pid: nat) {
    pid in procs && now < procs[pid].lease
  }

  /** Granting the lock without having read it takes it from a caller still in its lease. */
  predicate StealsLock<S>(procs: map<nat, Proc<S>>, now: int, readOk: bool) {
    !readOk && exists p | p in procs :: Live(procs, now, p)
  }

  /** Tokens are never reused, and whoever is in its lease is the recorded holder. */
  ghost predicate Exclusive<S>(lock: Option<LockRecord>, procs: map<nat, Proc<S>>, used: set<nat>, now: int) {
    && (lock.Some? ==> lock.value.token in used)
    && (forall p | p in procs :: procs[p].token in used)
    && (forall p, q | p in procs && q in procs && p != q :: procs[p].token != procs[q].token)
    && (forall p | Live(procs, now, p) :: lock == Some(LockRecord(procs[p].token, procs[p].lease)))
  }

  /** At most one caller is in its lease. */
  lemma OneLive<S>(lock: Option<LockRecord>, procs: map<nat, Proc<S>>, used: set<nat>, now: int, p: nat, q: nat)
    requires Exclusive(lock, procs, used, now) && Live(procs, now, p) && Live(procs, now, q)
    ensures p == q
  {
  }

  // ----- What each kind of step does to mutual exclusion -----

  /** A request for the lock keeps it, unless it takes a held lock that could not be read. */
  lemma AcquireKeepsIff<S>(lock: Option<LockRecord>, procs: map<nat, Proc<S>>, used: set<nat>, now: int,
                           pid: nat, token: nat, ttl: nat, readOk: bool, stage: S)
    requires Exclusive(lock, procs, used, now) && pid !in procs && token !in used
    ensures var (granted, lock') := Acquired(lock, readOk, token, ttl, now);
            var procs' := if granted then procs[pid := Proc(token, lock'.value.expiresAt, stage)] else procs;
            Exclusive(lock', procs', used + {token}, now) <==> !StealsLock(procs, now, readOk)
  {
    var (granted, lock') := Acquired(lock, readOk, token, ttl, now);
    if StealsLock(procs, now, readOk) {
      var p :| p in procs && Live(procs, now, p);
      assert Live(procs[pid := Proc(token, lock'.value.expiresAt, stage)], now, p);
    } else if granted {
      var procs' := procs[pid := Proc(token, lock'.value.expiresAt, stage)];
      forall p | Live(procs', now, p)
        ensures p == pid
      {
        assert p != pid ==> Live(procs, now, p);
      }
    }
  }

  lemma LeaveKeeps<S>(lock: Option<LockRecord>, procs: map<nat, Proc<S>>, used: set<nat>, now: int,
                      pid: nat, released: bool)
    requires Exclusive(lock, procs, used, now) && pid in procs
    ensures Exclusive(if released then Released(lock, procs[pid].token) else lock, procs - {pid}, used, now)
  {
    forall p | Live(procs - {pid}, now, p)
      ensures Live(procs, now, p) && procs[p].token != procs[pid].token
    {
    }
  }

  /** Time passes, and the alarm removes a lapsed lock. */
  lemma LapseKeeps<S>(lock: Option<LockRecord>, procs: map<nat, Proc<S>>, used: set<nat>, now: int, seconds: nat)
    requires Exclusive(lock, procs, used, now)
    ensures Exclusive(lock, procs, used, now + seconds)
    ensures lock.Some? && now >= lock.value.expiresAt ==> Exclusive(None, procs, used, now)
  {
    forall p | Live(procs, now + seconds, p)
      ensures Live(procs, now, p)
    {
    }
  }

  lemma StageKeeps<S>(lock: Option<LockRecord>, procs: map<nat, Proc<S>>, used: set<nat>, now: int, pid: nat, stage: S)
    requires Exclusive(lock, procs, used, now) && pid in procs
    ensures Exclusive(lock, procs[pid := procs[pid].(stage := stage)], used, now)
  {
    forall p | Live(procs[pid := procs[pid].(stage := stage)], now, p)
      ensures Live(procs, now, p)
    {
    }
  }

  // ----- How long a lock is held -----

  /** After the holder's release the next request is granted at once; nobody else's release changes anything. */
  lemma ReleaseFrees(lock: Option<LockRecord>, token: nat, next: nat, ttl: nat, now: int)
    requires lock.Some?
    ensures lock.value.token == token ==> Acquired(Released(lock, token), true, next, ttl, now).0
    ensures lock.value.token != token ==> Released(lock, token) == lock
  {
  }

  /** A granted lock is refused to whoever can read it for the time asked for, at most 30 seconds, and no longer. */
  lemma HeldForItsLease(lock: Option<LockRecord>, readOk: bool, token: nat, ttl: nat, now: int,
                        next: nat, ttl': nat, later: int)
    requires Acquired(lock, readOk, token, ttl, now).0
    ensures var held := Acquired(lock, readOk, token, ttl, now).1;
            && held == Some(LockRecord(token, if ttl <= 30 then now + ttl else now + 30))
            && (Acquired(held, true, next, ttl', later).0 <==> later >= if ttl <= 30 then now + ttl else now + 30)
            && (!Acquired(held, true, next, ttl', later).0 ==> Acquired(held, true, next, ttl', later).1 == held)
  {
  }
}
