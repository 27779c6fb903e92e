/**
 * Runs of the machine in ShardedInterleaving that reach the admission bound,
 * and that break it when requests overlap; the exact limits and numbers of
 * requests in flight for which overlap cannot break it.
 */
module AdmissionRuns {
  import opened Common
  import opened RateLimiting
  import opened ShardedInterleaving

  ghost predicate Reaches(s: State, t: State, limit: u32) {
    Shaped(s) && exists steps :: ValidRun(s, steps, limit) && Exec(s, steps, limit) == t
  }

  lemma {:induction false} Append(s: State, a: seq<Step>, b: seq<Step>, limit: u32)
    requires Shaped(s) && ValidRun(s, a, limit) && ValidRun(Exec(s, a, limit), b, limit)
    ensures ValidRun(s, a + b, limit) && Exec(s, a + b, limit) == Exec(Exec(s, a, limit), b, limit)
    decreases |a|
  {
    hide Apply, Enabled;
    if a == [] {
      assert a + b == b;
    } else {
      Append(Apply(s, a[0], limit), a[1..], b, limit);
      assert (a + b)[0] == a[0] && (a + b)[1..] == a[1..] + b;
    }
  }

  lemma Then(s: State, t: State, u: State, limit: u32)
    requires Reaches(s, t, limit) && Reaches(t, u, limit)
    ensures Reaches(s, u, limit)
  {
    var a :| ValidRun(s, a, limit) && Exec(s, a, limit) == t;
    var b :| ValidRun(t, b, limit) && Exec(t, b, limit) == u;
    Append(s, a, b, limit);
  }

  lemma One(s: State, step: Step, limit: u32)
    requires Shaped(s) && Enabled(s, step)
    ensures Reaches(s, Apply(s, step, limit), limit)
  {
    assert [step][1..] == [];
    assert ValidRun(s, [step], limit) && Exec(s, [step], limit) == Apply(s, step, limit);
  }

  lemma Stay(s: State, limit: u32)
    requires Shaped(s)
    ensures Reaches(s, s, limit)
  {
    assert ValidRun(s, [], limit) && Exec(s, [], limit) == s;
  }

  /** State after a new request has started and read all eight shards. */
  function Entered(s: State, id: nat): State {
    var inflight := s.inflight[id := Reading(SHARD_COUNT, SatSum(s.shards), s.done)];
    s.(inflight := inflight, peak := Max(s.peak, |inflight|))
  }

  lemma {:induction false} ReadOn(s: State, id: nat, limit: u32)
    requires Shaped(s) && id in s.inflight && s.inflight[id].Reading? && s.inflight[id].next <= SHARD_COUNT
    requires s.inflight[id].aggregate == SatSum(s.shards[..s.inflight[id].next])
    ensures var p := s.inflight[id].(next := SHARD_COUNT, aggregate := SatSum(s.shards));
            Reaches(s, s.(inflight := s.inflight[id := p]), limit)
    decreases SHARD_COUNT - s.inflight[id].next
  {
    hide Reaches;
    var p := s.inflight[id];
    var p' := p.(next := SHARD_COUNT, aggregate := SatSum(s.shards));
    if p.next == SHARD_COUNT {
      assert s.shards[..SHARD_COUNT] == s.shards;
      assert s.inflight[id := p] == s.inflight;
      Stay(s, limit);
    } else {
      var s1 := Apply(s, Read(id), limit);
      assert s.shards[..p.next + 1][..p.next] == s.shards[..p.next];
      One(s, Read(id), limit);
      ReadOn(s1, id, limit);
      assert s1.inflight[id := p'] == s.inflight[id := p'];
      Then(s, s1, s.(inflight := s.inflight[id := p']), limit);
    }
  }

  lemma Enter(s: State, id: nat, limit: u32)
    requires Shaped(s) && id !in s.inflight
    ensures Reaches(s, Entered(s, id), limit)
  {
    assert SatSum([]) == 0;
    hide Reaches, SatSum;
    var s1 := Apply(s, Start(id), limit);
    One(s, Start(id), limit);
    assert s1.shards[..0] == [];
    ReadOn(s1, id, limit);
    var p := Reading(SHARD_COUNT, SatSum(s.shards), s.done);
    assert s1.inflight[id := p] == s.inflight[id := p];
    assert s.inflight[id := p].Keys == s1.inflight.Keys;
    assert |s.inflight[id := p].Keys| == |s.inflight[id := p]| && |s1.inflight.Keys| == |s1.inflight|;
    Then(s, s1, Entered(s, id), limit);
  }

  /** State after a request that read less than the limit has decided, re-read shard 0 and written it. */
  function Landed(s: State, id: nat): State
    requires Shaped(s)
  {
    s.(shards := s.shards[0 := SatAdd32(s.shards[0], 1)],
       writes := s.writes[0 := s.writes[0] + 1],
       inflight := s.inflight - {id},
       done := s.done + 1)
  }

  /** State after that request has decided and re-read shard 0, but not written. */
  function Poised(s: State, id: nat): State
    requires Shaped(s)
  {
    s.(inflight := s.inflight[id := Writing(0, s.shards[0], s.writes[0])])
  }

  lemma Poise(s: State, id: nat, limit: u32)
    requires Shaped(s) && id in s.inflight
    requires var p := s.inflight[id]; p.Reading? && p.next == SHARD_COUNT && p.aggregate < limit
    ensures Reaches(s, Poised(s, id), limit)
  {
    hide Reaches, SatSum;
    var s1 := Apply(s, Decide(id), limit);
    One(s, Decide(id), limit);
    One(s1, Reread(id, 0), limit);
    assert Apply(s1, Reread(id, 0), limit).inflight == Poised(s, id).inflight;
    Then(s, s1, Poised(s, id), limit);
  }

  lemma Land(s: State, id: nat, limit: u32)
    requires Shaped(s) && id in s.inflight && s.shards[0] < U32_MAX
    requires var p := s.inflight[id]; p.Reading? && p.next == SHARD_COUNT && p.aggregate < limit
    ensures Reaches(s, Landed(s, id), limit)
  {
    hide Reaches, SatSum;
    Poise(s, id, limit);
    One(Poised(s, id), Write(id), limit);
    assert Apply(Poised(s, id), Write(id), limit).inflight == Landed(s, id).inflight;
    Then(s, Poised(s, id), Landed(s, id), limit);
  }

  function OnShardZero(n: u32): (s: seq<u32>)
    ensures |s| == SHARD_COUNT && s[0] == n && forall i | 1 <= i < SHARD_COUNT :: s[i] == 0
  {
    [n, 0, 0, 0, 0, 0, 0, 0]
  }

  lemma TotalOnShardZero(n: u32)
    ensures SatSum(OnShardZero(n)) == n == Sum(OnShardZero(n))
  {
    var s := OnShardZero(n);
    SumOfZeros(s[0 := 0]);
    SumUpdate(s, 0, 0);
    SatSumIsCappedSum(s);
  }

  /** A total of `n`, all on shard 0, with `lost` admissions uncounted and nobody in flight. */
  function Quiet(n: u32, peak: nat, lost: nat): State
    requires n + lost <= U32_MAX
  {
    State(OnShardZero(n), map[], OnShardZero(n + lost), n + lost, peak, lost == 0)
  }

  /** Requests from..c-1 have each read a total of `n`; `from` of the first c have landed on shard 0 since. */
  function Crowd(n: u32, from: nat, c: nat, peak: nat, lost: nat): State
    requires n + from + lost <= U32_MAX
  {
    State(OnShardZero(n + from), Crowded(n, n + lost, from, c), OnShardZero(n + from + lost),
          n + from + lost, peak, lost == 0)
  }

  function Crowded(n: u32, startDone: nat, from: nat, c: nat): (m: map<nat, Phase>)
    ensures forall i | i in m :: from <= i < c && m[i] == Reading(SHARD_COUNT, n, startDone)
    ensures forall i: nat | from <= i < c :: i in m
    decreases c - from
  {
    if from >= c then map[]
    else Crowded(n, startDone, from + 1, c)[from := Reading(SHARD_COUNT, n, startDone)]
  }

  lemma CrowdGrows(n: u32, d: nat, c: nat)
    ensures Crowded(n, d, 0, c + 1) == Crowded(n, d, 0, c)[c := Reading(SHARD_COUNT, n, d)]
  {
  }

  lemma CrowdShrinks(n: u32, d: nat, from: nat, c: nat)
    requires from < c
    ensures Crowded(n, d, from, c) - {from} == Crowded(n, d, from + 1, c)
  {
  }

  lemma {:induction false} CrowdSize(n: u32, d: nat, c: nat)
    ensures |Crowded(n, d, 0, c)| == c
  {
    if c > 0 {
      CrowdSize(n, d, c - 1);
      CrowdGrows(n, d, c - 1);
    }
  }

  /** One request after another passes, each alone, from a total of `m` up to `n`. */
  lemma {:induction false} Climb(init: State, m: u32, n: u32, peak: nat, lost: nat, limit: u32)
    requires m <= n < limit && n + lost <= U32_MAX && Reaches(init, Quiet(m, peak, lost), limit)
    ensures Reaches(init, Quiet(n, if m < n then Max(peak, 1) else peak, lost), limit)
    decreases n
  {
    hide Reaches, SatSum;
    if m < n {
      Climb(init, m, n - 1, peak, lost, limit);
      var s := Quiet(n - 1, if m < n - 1 then Max(peak, 1) else peak, lost);
      TotalOnShardZero(n - 1);
      Enter(s, 0, limit);
      Then(init, s, Entered(s, 0), limit);
      Land(Entered(s, 0), 0, limit);
      LandedAlone(n, s.peak, lost);
      Then(init, Entered(s, 0), Quiet(n, Max(peak, 1), lost), limit);
    }
  }

  lemma LandedAlone(n: u32, peak: nat, lost: nat)
    requires 0 < n && n + lost <= U32_MAX
    ensures Landed(Entered(Quiet(n - 1, peak, lost), 0), 0) == Quiet(n, Max(peak, 1), lost)
  {
    var t := Landed(Entered(Quiet(n - 1, peak, lost), 0), 0);
    assert t.inflight == map[];
    assert t.shards == OnShardZero(n) && t.writes == OnShardZero(n + lost);
  }

  /** Requests 0..c-1 come in and read, without deciding yet. */
  lemma {:induction false} Gather(init: State, n: u32, c: nat, peak: nat, lost: nat, limit: u32)
    requires n < limit && n + lost <= U32_MAX && Reaches(init, Quiet(n, peak, lost), limit)
    ensures Reaches(init, Crowd(n, 0, c, Max(peak, c), lost), limit)
  {
    hide Reaches, SatSum;
    if c == 0 {
      assert Crowd(n, 0, 0, peak, lost) == Quiet(n, peak, lost);
    } else {
      Gather(init, n, c - 1, peak, lost, limit);
      var s := Crowd(n, 0, c - 1, Max(peak, c - 1), lost);
      TotalOnShardZero(n);
      CrowdGrows(n, n + lost, c - 1);
      CrowdSize(n, n + lost, c);
      Enter(s, c - 1, limit);
      assert Entered(s, c - 1) == Crowd(n, 0, c, Max(peak, c), lost);
      Then(init, s, Crowd(n, 0, c, Max(peak, c), lost), limit);
    }
  }

  lemma {:induction false} Drain(n: u32, from: nat, c: nat, peak: nat, limit: u32)
    requires n < limit && from <= c && n + c <= U32_MAX
    ensures Reaches(Crowd(n, from, c, peak, 0), Crowd(n, c, c, peak, 0), limit)
    decreases c - from
  {
    hide Reaches, SatSum;
    var s := Crowd(n, from, c, peak, 0);
    if from == c {
      Stay(s, limit);
    } else {
      Land(s, from, limit);
      CrowdShrinks(n, n, from, c);
      assert OnShardZero(n + from)[0 := n + from + 1] == OnShardZero(n + from + 1);
      assert Landed(s, from) == Crowd(n, from + 1, c, peak, 0);
      Drain(n, from + 1, c, peak, limit);
      Then(s, Crowd(n, from + 1, c, peak, 0), Crowd(n, c, c, peak, 0), limit);
    }
  }

  /**
   * The bound is the best possible: for every positive limit and every C there
   * is a run without overlap, never more than C in flight, that completes
   * limit + C - 1 admissions.
   */
  lemma BoundAttained(limit: u32, c: nat)
    requires limit >= 1 && c >= 1 && limit + c <= U32_MAX + 1
    ensures exists s :: Reaches(INIT, s, limit) && s.noOverlap && s.peak == c && s.done == limit + c - 1
  {
    hide Reaches, SatSum;
    var init := Quiet(0, 0, 0);
    Stay(init, limit);
    Climb(init, 0, limit - 1, 0, 0, limit);
    var peak := if 0 < limit - 1 then 1 else 0;
    Gather(init, limit - 1, c, peak, 0, limit);
    Drain(limit - 1, 0, c, c, limit);
    Then(init, Crowd(limit - 1, 0, c, c, 0), Crowd(limit - 1, c, c, c, 0), limit);
    assert init == INIT;
  }

  // ----- Losing one count -----

  /** Request 1 re-reads shard 0, request 2 passes it completely, request 1 writes its stale value. */
  lemma OverlapLosesOne(init: State, limit: u32)
    requires init == Quiet(0, 0, 0) && limit >= 1
    ensures Reaches(init, Quiet(1, 2, 1), limit)
  {
    hide Reaches, SatSum;
    TotalOnShardZero(0);
    var s1 := Entered(init, 1);
    Enter(init, 1, limit);
    Poise(s1, 1, limit);
    var s2 := State(OnShardZero(0), map[1 := Writing(0, 0, 0)], OnShardZero(0), 0, 1, true);
    assert Poised(s1, 1) == s2;
    Then(init, s1, s2, limit);
    Overtake(s2, Quiet(1, 2, 1), limit);
    Then(init, s2, Quiet(1, 2, 1), limit);
  }

  lemma Overtake(s: State, mid: State, limit: u32)
    requires s == State(OnShardZero(0), map[1 := Writing(0, 0, 0)], OnShardZero(0), 0, 1, true)
    requires mid == Quiet(1, 2, 1) && limit >= 1
    ensures Reaches(s, mid, limit)
  {
    hide Reaches, SatSum;
    TotalOnShardZero(0);
    var s1 := Entered(s, 2);
    Enter(s, 2, limit);
    Land(s1, 2, limit);
    var s2 := State(OnShardZero(1), map[1 := Writing(0, 0, 0)], OnShardZero(1), 1, 2, true);
    assert Landed(s1, 2) == s2 by {
      assert Landed(s1, 2).inflight == s2.inflight;
      assert Landed(s1, 2).shards == OnShardZero(1);
    }
    Then(s, s1, s2, limit);
    One(s2, Write(1), limit);
    var s3 := Apply(s2, Write(1), limit);
    assert s3.inflight == map[] && s3.shards == OnShardZero(1) && s3.writes == OnShardZero(2);
    Then(s, s2, mid, limit);
  }

  /** Everyone in flight is admitted or has read everything, and less than the limit. */
  ghost predicate AllWillPass(s: State, limit: u32) {
    && Shaped(s)
    && forall id | id in s.inflight ::
         s.inflight[id].Reading? ==> s.inflight[id].next == SHARD_COUNT && s.inflight[id].aggregate < limit
  }

  lemma {:induction false} DecideAll(init: State, s: State, limit: u32) returns (t: State)
    requires Reaches(init, s, limit) && AllWillPass(s, limit)
    ensures Reaches(init, t, limit) && t.done == s.done && t.peak == s.peak && AwaitingWrite(t) == s.inflight.Keys
    decreases |s.inflight.Keys - AwaitingWrite(s)|
  {
    hide Reaches;
    t := s;
    assert AwaitingWrite(s) <= s.inflight.Keys;
    if AwaitingWrite(s) != s.inflight.Keys {
      assert exists id :: id in s.inflight.Keys && id !in AwaitingWrite(s);
      var id :| id in s.inflight.Keys && id !in AwaitingWrite(s);
      One(s, Decide(id), limit);
      var s1 := Apply(s, Decide(id), limit);
      Then(init, s, s1, limit);
      assert s1.inflight.Keys == s.inflight.Keys;
      assert s1.inflight.Keys - AwaitingWrite(s1) == s.inflight.Keys - AwaitingWrite(s) - {id};
      t := DecideAll(init, s1, limit);
    }
  }

  /**
   * With a limit of two or more and two or more in flight, some run loses a
   * count by an overlap and then lets limit + C requests through.
   */
  lemma OverlapBreaksBound(init: State, limit: u32, c: nat)
    requires init == Quiet(0, 0, 0) && limit >= 2 && c >= 2
    ensures exists s :: Reaches(init, s, limit) && s.peak == c && Admissions(s) == limit + c
  {
    hide Reaches, SatSum;
    OverlapLosesOne(init, limit);
    Climb(init, 1, limit - 1, 2, 1, limit);
    Gather(init, limit - 1, c, 2, 1, limit);
    var s := Crowd(limit - 1, 0, c, c, 1);
    CrowdSize(limit - 1, limit, c);
    assert |s.inflight.Keys| == |s.inflight|;
    var t := DecideAll(init, s, limit);
  }

  /**
   * Exactly when the bound needs no hypothesis about overlap: every run with at
   * most C in flight lets at most limit + C - 1 requests through if and only if
   * the limit is at most one or requests come one at a time.
   */
  lemma BoundHoldsIff(limit: u32, c: nat)
    requires c >= 1
    ensures BoundHolds(limit, c) <==> limit <= 1 || c <= 1
  {
    if limit <= 1 || c <= 1 {
      forall steps | ValidRun(INIT, steps, limit) && Exec(INIT, steps, limit).peak <= c
        ensures Admissions(Exec(INIT, steps, limit)) <= limit + c - 1
      {
        SmallCasesBounded(limit, c, steps);
      }
    } else {
      assert Quiet(0, 0, 0) == INIT;
      OverlapBreaksBound(INIT, limit, c);
      var s :| Reaches(INIT, s, limit) && s.peak == c && Admissions(s) == limit + c;
      var steps :| ValidRun(INIT, steps, limit) && Exec(INIT, steps, limit) == s;
    }
  }
}
