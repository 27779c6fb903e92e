/**
 * Interleaved requests on the sharded hourly counter (src/rate_limiting.rs,
 * check_blind_issuance_sharded). Every step is one KV operation or one local
 * decision of one request; any number of requests, in any number of isolates,
 * interleave freely. All KV operations succeed.
 */
module ShardedInterleaving {
  import opened Common
  import opened RateLimiting

  /**
   * Where a request stands. `startDone` is the number of completed admissions
   * when it started and `seen` the number of writes its shard had received when
   * it was re-read; both are history, no step decides on them.
   */
  datatype Phase =
    | Reading(next: nat, aggregate: u32, startDone: nat)
    | Admitted
    | Writing(shard: nat, base: u32, seen: nat)

  /**
   * `shards` is what KV holds. The rest is history: writes received per shard,
   * completed admissions, the most requests ever in flight at once, and whether
   * every write so far found its shard untouched since its own re-read.
   */
  datatype State = State(
    shards: seq<u32>,
    inflight: map<nat, Phase>,
    writes: seq<nat>,
    done: nat,
    peak: nat,
    noOverlap: bool)

  datatype Step =
    | Start(id: nat)
    | Read(id: nat)
    | Decide(id: nat)
    | Reread(id: nat, shard: nat)
    | Write(id: nat)

  const ZEROS: seq<nat> := [0, 0, 0, 0, 0, 0, 0, 0]
  const INIT: State := State(ZEROS, map[], ZEROS, 0, 0, true)

  predicate Enabled(s: State, step: Step) {
    if step.Start? then step.id !in s.inflight
    else
      && step.id in s.inflight
      && var p := s.inflight[step.id];
         match step
         case Start(_) => false
         case Read(_) => p.Reading? && p.next < SHARD_COUNT
         case Decide(_) => p.Reading? && p.next == SHARD_COUNT
         case Reread(_, k) => p.Admitted? && k < SHARD_COUNT
         case Write(_) => p.Writing?
  }

  predicate Shaped(s: State) {
    && |s.shards| == SHARD_COUNT && |s.writes| == SHARD_COUNT
    && forall id | id in s.inflight :: s.inflight[id].Writing? ==> s.inflight[id].shard < SHARD_COUNT
  }

  function Apply(s: State, step: Step, limit: u32): (s': State)
    requires Shaped(s) && Enabled(s, step)
    ensures Shaped(s')
  {
    match step
    case Start(id) =>
      var inflight := s.inflight[id := Reading(0, 0, s.done)];
      s.(inflight := inflight, peak := Max(s.peak, |inflight|))
    case Read(id) =>
      var p := s.inflight[id];
      s.(inflight := s.inflight[id := p.(next := p.next + 1, aggregate := SatAdd32(p.aggregate, s.shards[p.next]))])
    case Decide(id) =>
      if s.inflight[id].aggregate >= limit then s.(inflight := s.inflight - {id})
      else s.(inflight := s.inflight[id := Admitted])
    case Reread(id, k) =>
      s.(inflight := s.inflight[id := Writing(k, s.shards[k], s.writes[k])])
    case Write(id) =>
      var p := s.inflight[id];
      var k := p.shard;
      s.(shards := if p.base >= U32_MAX then s.shards else s.shards[k := p.base + 1],
         writes := s.writes[k := s.writes[k] + 1],
         inflight := s.inflight - {id},
         done := s.done + 1,
         noOverlap := s.noOverlap && s.writes[k] == p.seen)
  }

  predicate ValidRun(s: State, steps: seq<Step>, limit: u32)
    requires Shaped(s)
    decreases |steps|
  {
    steps == [] || (Enabled(s, steps[0]) && ValidRun(Apply(s, steps[0], limit), steps[1..], limit))
  }

  function Exec(s: State, steps: seq<Step>, limit: u32): (s': State)
    requires Shaped(s) && ValidRun(s, steps, limit)
    ensures Shaped(s')
    decreases |steps|
  {
    if steps == [] then s else Exec(Apply(s, steps[0], limit), steps[1..], limit)
  }

  // ----- The shard total against the completed admissions -----

  /**
   * A shard never holds more than the writes it received; a pending write whose
   * shard was not written since its re-read still carries the shard's value.
   */
  ghost predicate Counted(s: State) {
    && Shaped(s)
    && Sum(s.writes) == s.done
    && (forall k | 0 <= k < SHARD_COUNT :: s.shards[k] <= s.writes[k])
    && (s.noOverlap <==> s.shards == s.writes)
    && (forall id | id in s.inflight :: s.inflight[id].Writing? ==> Pending(s, s.inflight[id]))
  }

  ghost predicate Pending(s: State, p: Phase)
    requires Shaped(s) && p.Writing?
  {
    && p.shard < SHARD_COUNT
    && p.base <= p.seen <= s.writes[p.shard]
    && (p.seen == s.writes[p.shard] ==> p.base == s.shards[p.shard])
  }

  lemma CountedStep(s: State, step: Step, limit: u32)
    requires Counted(s) && Enabled(s, step)
    requires Apply(s, step, limit).done <= U32_MAX
    ensures Counted(Apply(s, step, limit))
  {
    hide Sum;
    if step.Write? {
      CountedWrite(s, step.id, limit);
    }
  }

  lemma CountedWrite(s: State, id: nat, limit: u32)
    requires Counted(s) && Enabled(s, Write(id))
    requires Apply(s, Write(id), limit).done <= U32_MAX
    ensures Counted(Apply(s, Write(id), limit))
  {
    hide Sum;
    var s' := Apply(s, Write(id), limit);
    var p := s.inflight[id];
    assert Pending(s, p);
    SumUpdate(s.writes, p.shard, s.writes[p.shard] + 1);
    SumAtLeast(s.writes, p.shard);
    assert s'.shards[p.shard] == p.base + 1;
    assert s'.writes[p.shard] == s.writes[p.shard] + 1;
    if s'.noOverlap {
      assert s'.shards == s'.writes;
    } else if !s.noOverlap {
      var j :| 0 <= j < SHARD_COUNT && s.shards[j] != s.writes[j];
      assert s'.shards[j] != s'.writes[j];
    }
    forall q | q in s'.inflight && s'.inflight[q].Writing?
      ensures Pending(s', s'.inflight[q])
    {
      assert Pending(s, s.inflight[q]);
    }
  }

  lemma {:induction false} CountedRun(s: State, steps: seq<Step>, limit: u32)
    requires Counted(s) && ValidRun(s, steps, limit)
    requires Exec(s, steps, limit).done <= U32_MAX
    ensures Counted(Exec(s, steps, limit)) && s.done <= Exec(s, steps, limit).done
    decreases |steps|
  {
    if steps != [] {
      var s1 := Apply(s, steps[0], limit);
      HistoryGrows(s1, steps[1..], limit);
      CountedStep(s, steps[0], limit);
      CountedRun(s1, steps[1..], limit);
    }
  }

  lemma {:induction false} HistoryGrows(s: State, steps: seq<Step>, limit: u32)
    requires Shaped(s) && ValidRun(s, steps, limit)
    ensures var s' := Exec(s, steps, limit);
            s.done <= s'.done && s.peak <= s'.peak && (s'.noOverlap ==> s.noOverlap)
    decreases |steps|
  {
    if steps != [] {
      HistoryGrows(Apply(s, steps[0], limit), steps[1..], limit);
    }
  }

  /**
   * In every run the shard total undercounts the completed admissions, and
   * equals them if and only if no write landed between another request's
   * re-read and write on the same shard.
   */
  lemma TotalIsExactIffNoOverlap(steps: seq<Step>, limit: u32)
    requires ValidRun(INIT, steps, limit)
    requires Exec(INIT, steps, limit).done <= U32_MAX
    ensures var s := Exec(INIT, steps, limit);
            Sum(s.shards) <= s.done && (Sum(s.shards) == s.done <==> s.noOverlap)
  {
    SumOfZeros(ZEROS);
    CountedRun(INIT, steps, limit);
    var s := Exec(INIT, steps, limit);
    SumPointwise(s.shards, s.writes);
  }

  lemma {:induction false} SumPointwise(a: seq<nat>, b: seq<nat>)
    requires |a| == |b| && forall i | 0 <= i < |a| :: a[i] <= b[i]
    ensures Sum(a) <= Sum(b) && (Sum(a) == Sum(b) <==> a == b)
  {
    if a != [] {
      var n := |a| - 1;
      SumPointwise(a[..n], b[..n]);
      assert a == a[..n] + [a[n]] && b == b[..n] + [b[n]];
    }
  }

  // ----- The admission bound -----

  /** Requests that were admitted, or that started early enough to be. */
  function Viable(s: State, limit: u32): set<nat> {
    set id | id in s.inflight && !(s.inflight[id].Reading? && s.inflight[id].startDone >= limit)
  }

  function AwaitingWrite(s: State): set<nat> {
    set id | id in s.inflight && !s.inflight[id].Reading?
  }

  /** Requests let through so far: completed ones and admitted ones yet to write. */
  function Admissions(s: State): nat {
    s.done + |AwaitingWrite(s)|
  }

  /** A reader's running total plus the shards it has yet to read covers what was done when it started. */
  ghost predicate Covers(s: State, p: Phase)
    requires Shaped(s) && p.Reading?
  {
    && p.next <= SHARD_COUNT
    && (p.aggregate == U32_MAX || p.startDone <= p.aggregate + Sum(s.shards) - Sum(s.shards[..p.next]))
  }

  ghost predicate Bounded(s: State, limit: u32) {
    && Counted(s)
    && (forall id | id in s.inflight :: s.inflight[id].Reading? ==> Covers(s, s.inflight[id]))
    && (if s.peak == 0 then s.done == 0 && s.inflight == map[] else s.done + |Viable(s, limit)| <= limit - 1 + s.peak)
  }

  lemma BoundedStart(s: State, id: nat, limit: u32)
    requires Bounded(s, limit) && Enabled(s, Start(id)) && s.noOverlap
    ensures Bounded(Apply(s, Start(id), limit), limit)
  {
    assert Sum([]) == 0;
    hide Sum;
    var s' := Apply(s, Start(id), limit);
    var v, v' := Viable(s, limit), Viable(s', limit);
    assert s.shards[..0] == [];
    if s.done < limit {
      SubsetCardinality(v', s'.inflight.Keys);
      assert |s'.inflight.Keys| == |s'.inflight|;
    } else {
      assert v' == v;
    }
  }

  lemma BoundedStep(s: State, step: Step, limit: u32)
    requires Bounded(s, limit) && Enabled(s, step)
    requires var s' := Apply(s, step, limit); s'.noOverlap && limit + s'.peak <= U32_MAX + 1
    ensures Bounded(Apply(s, step, limit), limit)
  {
    match step
    case Start(id) => BoundedStart(s, id, limit);
    case Read(id) => BoundedRead(s, id, limit);
    case Decide(id) => BoundedDecide(s, id, limit);
    case Reread(id, k) =>
      hide Sum;
      assert Viable(Apply(s, step, limit), limit) == Viable(s, limit);
    case Write(id) => BoundedWrite(s, id, limit);
  }

  lemma BoundedRead(s: State, id: nat, limit: u32)
    requires Bounded(s, limit) && Enabled(s, Read(id))
    ensures Bounded(Apply(s, Read(id), limit), limit)
  {
    var p := s.inflight[id];
    assert Covers(s, p);
    assert Sum(s.shards[..p.next + 1]) == Sum(s.shards[..p.next]) + s.shards[p.next] by {
      assert s.shards[..p.next + 1][..p.next] == s.shards[..p.next];
    }
    hide Sum;
    assert Viable(Apply(s, Read(id), limit), limit) == Viable(s, limit);
  }

  lemma BoundedDecide(s: State, id: nat, limit: u32)
    requires Bounded(s, limit) && Enabled(s, Decide(id))
    ensures Bounded(Apply(s, Decide(id), limit), limit)
  {
    hide Sum;
    assert Covers(s, s.inflight[id]);
    assert s.shards[..SHARD_COUNT] == s.shards;
    SubsetCardinality(Viable(Apply(s, Decide(id), limit), limit), Viable(s, limit));
  }

  lemma BoundedWrite(s: State, id: nat, limit: u32)
    requires Bounded(s, limit) && Enabled(s, Write(id))
    requires var s' := Apply(s, Write(id), limit); s'.noOverlap && limit + s'.peak <= U32_MAX + 1
    ensures Bounded(Apply(s, Write(id), limit), limit)
  {
    hide Sum;
    assert id in Viable(s, limit);
    assert Viable(Apply(s, Write(id), limit), limit) == Viable(s, limit) - {id};
    CountedStep(s, Write(id), limit);
    WriteKeepsCover(s, id, limit);
  }

  lemma WriteKeepsCover(s: State, id: nat, limit: u32)
    requires Counted(s) && Enabled(s, Write(id))
    requires Apply(s, Write(id), limit).noOverlap && s.done < U32_MAX
    ensures var s' := Apply(s, Write(id), limit);
            forall p: Phase | p.Reading? && Covers(s, p) :: Covers(s', p)
  {
    var s' := Apply(s, Write(id), limit);
    var k := s.inflight[id].shard;
    assert Pending(s, s.inflight[id]);
    SumAtLeast(s.writes, k);
    SumUpdate(s.shards, k, s.shards[k] + 1);
    forall p: Phase | p.Reading? && Covers(s, p)
      ensures Covers(s', p)
    {
      if k < p.next {
        SumUpdate(s.shards[..p.next], k, s.shards[k] + 1);
        assert s'.shards[..p.next] == s.shards[..p.next][k := s.shards[k] + 1];
      } else {
        assert s'.shards[..p.next] == s.shards[..p.next];
      }
    }
  }

  lemma {:induction false} BoundedRun(s: State, steps: seq<Step>, limit: u32)
    requires Bounded(s, limit) && ValidRun(s, steps, limit)
    requires var s' := Exec(s, steps, limit); s'.noOverlap && limit + s'.peak <= U32_MAX + 1
    ensures Bounded(Exec(s, steps, limit), limit)
    decreases |steps|
  {
    if steps != [] {
      var s1 := Apply(s, steps[0], limit);
      HistoryGrows(s1, steps[1..], limit);
      BoundedStep(s, steps[0], limit);
      BoundedRun(s1, steps[1..], limit);
    }
  }

  /**
   * Over every interleaving in which no two requests overlap between re-read
   * and write on one shard, the counter lets through at most limit + C - 1
   * requests, C being the most requests ever in flight at once.
   */
  lemma AdmissionsBounded(steps: seq<Step>, limit: u32)
    requires ValidRun(INIT, steps, limit)
    requires var s := Exec(INIT, steps, limit); s.noOverlap && 1 <= s.peak && limit + s.peak <= U32_MAX + 1
    ensures var s := Exec(INIT, steps, limit);
            Admissions(s) <= limit + s.peak - 1 && Sum(s.shards) == s.done
  {
    SumOfZeros(ZEROS);
    BoundedRun(INIT, steps, limit);
    var s := Exec(INIT, steps, limit);
    SubsetCardinality(AwaitingWrite(s), Viable(s, limit));
  }

  // ----- Without the no-overlap hypothesis -----

  /** With limit zero nobody is ever admitted. */
  predicate NoneAdmitted(s: State) {
    s.done == 0 && forall id | id in s.inflight :: s.inflight[id].Reading?
  }

  /** Has this request read only zeros, and would it read only zeros from here on? */
  ghost predicate SeesZero(s: State, p: Phase)
    requires Shaped(s)
  {
    p.Reading? ==> p.aggregate == 0 && forall k | p.next <= k < SHARD_COUNT :: s.shards[k] == 0
  }

  ghost predicate Nonzero(s: State)
    requires Shaped(s)
  {
    exists k | 0 <= k < SHARD_COUNT :: s.shards[k] > 0
  }

  /** The requests that limit one may still let through, or has let through. */
  ghost function ZeroSeers(s: State): set<nat>
    requires Shaped(s)
  {
    set id | id in s.inflight && SeesZero(s, s.inflight[id])
  }

  /** With limit one, a first write ends the admissions of everyone who comes later. */
  ghost predicate FirstWave(s: State) {
    && Shaped(s)
    && (s.done > 0 ==> Nonzero(s))
    && s.done + |ZeroSeers(s)| <= s.peak
    && |s.inflight| <= s.peak
    && forall id | id in s.inflight ::
         s.inflight[id].Writing? && s.inflight[id].base > 0 ==> s.shards[s.inflight[id].shard] > 0
  }

  /** With one request in flight, nobody writes between its re-read and its write. */
  ghost predicate Alone(s: State) {
    && Shaped(s)
    && |s.inflight| <= s.peak
    && s.noOverlap
    && forall id | id in s.inflight :: s.inflight[id].Writing? ==> s.inflight[id].seen == s.writes[s.inflight[id].shard]
  }

  lemma FirstWaveStart(s: State, id: nat)
    requires FirstWave(s) && Enabled(s, Start(id))
    ensures FirstWave(Apply(s, Start(id), 1))
  {
    var s' := Apply(s, Start(id), 1);
    if s.done == 0 {
      SubsetCardinality(ZeroSeers(s'), s'.inflight.Keys);
      assert |s'.inflight.Keys| == |s'.inflight|;
    } else {
      var k :| 0 <= k < SHARD_COUNT && s.shards[k] > 0;
      assert s'.shards[k] > 0;
      assert ZeroSeers(s') <= ZeroSeers(s);
      SubsetCardinality(ZeroSeers(s'), ZeroSeers(s));
    }
  }

  lemma FirstWaveWrite(s: State, id: nat)
    requires FirstWave(s) && Enabled(s, Write(id))
    ensures FirstWave(Apply(s, Write(id), 1))
  {
    var s' := Apply(s, Write(id), 1);
    var k := s.inflight[id].shard;
    assert s'.shards[k] > 0 && id in ZeroSeers(s);
    forall q | q in ZeroSeers(s')
      ensures q in ZeroSeers(s) - {id}
    {
      assert SeesZero(s', s'.inflight[q]);
      assert s'.inflight[q] == s.inflight[q];
      assert forall j | 0 <= j < SHARD_COUNT && j != k :: s'.shards[j] == s.shards[j];
      assert SeesZero(s, s.inflight[q]);
    }
    SubsetCardinality(ZeroSeers(s'), ZeroSeers(s) - {id});
    SubsetCardinality(s'.inflight.Keys, s.inflight.Keys);
    assert |s'.inflight.Keys| == |s'.inflight| && |s.inflight.Keys| == |s.inflight|;
  }

  /** Reading, deciding and re-reading touch no shard and make nobody see zero again. */
  lemma FirstWaveLocal(s: State, step: Step)
    requires FirstWave(s) && Enabled(s, step) && (step.Read? || step.Decide? || step.Reread?)
    ensures FirstWave(Apply(s, step, 1))
  {
    var s' := Apply(s, step, 1);
    assert s'.shards == s.shards && s'.inflight.Keys <= s.inflight.Keys;
    forall q | q in ZeroSeers(s')
      ensures q in ZeroSeers(s)
    {
      assert SeesZero(s', s'.inflight[q]);
      assert SeesZero(s, s.inflight[q]);
    }
    SubsetCardinality(ZeroSeers(s'), ZeroSeers(s));
    SubsetCardinality(s'.inflight.Keys, s.inflight.Keys);
    assert |s'.inflight.Keys| == |s'.inflight| && |s.inflight.Keys| == |s.inflight|;
    hide ZeroSeers, SeesZero;
    assert Nonzero(s) ==> Nonzero(s');
  }

  lemma FirstWaveStep(s: State, step: Step)
    requires Shaped(s) && FirstWave(s) && Enabled(s, step)
    ensures FirstWave(Apply(s, step, 1))
  {
    hide FirstWave;
    match step
    case Start(id) => FirstWaveStart(s, id);
    case Write(id) => FirstWaveWrite(s, id);
    case _ => FirstWaveLocal(s, step);
  }

  lemma AloneStep(s: State, step: Step, limit: u32)
    requires Alone(s) && Enabled(s, step) && Apply(s, step, limit).peak <= 1
    ensures Alone(Apply(s, step, limit))
  {
    var s' := Apply(s, step, limit);
    assert |s'.inflight.Keys| == |s'.inflight| && |s.inflight.Keys| == |s.inflight|;
    if step.Write? {
      SubsetCardinality({step.id}, s.inflight.Keys);
      assert s.inflight.Keys == {step.id} by {
        SoleElement(s.inflight.Keys, step.id);
      }
    } else if !step.Start? {
      SubsetCardinality(s'.inflight.Keys, s.inflight.Keys);
    }
  }

  lemma SoleElement(a: set<nat>, x: nat)
    requires x in a && |a| <= 1
    ensures a == {x}
  {
    SubsetCardinality({x}, a);
    assert |a - {x}| == 0;
  }

  lemma {:induction false} NoneAdmittedRun(s: State, steps: seq<Step>)
    requires NoneAdmitted(s) && Shaped(s) && ValidRun(s, steps, 0)
    ensures NoneAdmitted(Exec(s, steps, 0))
    decreases |steps|
  {
    if steps != [] {
      NoneAdmittedRun(Apply(s, steps[0], 0), steps[1..]);
    }
  }

  lemma {:induction false} FirstWaveRun(s: State, steps: seq<Step>)
    requires Shaped(s) && FirstWave(s) && ValidRun(s, steps, 1)
    ensures FirstWave(Exec(s, steps, 1))
    decreases |steps|
  {
    hide FirstWave;
    if steps != [] {
      FirstWaveStep(s, steps[0]);
      FirstWaveRun(Apply(s, steps[0], 1), steps[1..]);
    }
  }

  lemma {:induction false} AloneRun(s: State, steps: seq<Step>, limit: u32)
    requires Shaped(s) && Alone(s) && ValidRun(s, steps, limit) && Exec(s, steps, limit).peak <= 1
    ensures Alone(Exec(s, steps, limit))
    decreases |steps|
  {
    hide Alone;
    if steps != [] {
      var s1 := Apply(s, steps[0], limit);
      HistoryGrows(s1, steps[1..], limit);
      AloneStep(s, steps[0], limit);
      AloneRun(s1, steps[1..], limit);
    }
  }

  /** The bound for every run that never has more than `c` requests in flight, overlapping or not. */
  ghost predicate BoundHolds(limit: u32, c: nat) {
    forall steps | ValidRun(INIT, steps, limit) && Exec(INIT, steps, limit).peak <= c ::
      Admissions(Exec(INIT, steps, limit)) <= limit + c - 1
  }

  lemma SmallCasesBounded(limit: u32, c: nat, steps: seq<Step>)
    requires c >= 1 && (limit <= 1 || c <= 1)
    requires ValidRun(INIT, steps, limit) && Exec(INIT, steps, limit).peak <= c
    ensures Admissions(Exec(INIT, steps, limit)) <= limit + c - 1
  {
    hide Apply, Enabled, Sum;
    var s := Exec(INIT, steps, limit);
    if limit == 0 {
      NoneAdmittedRun(INIT, steps);
      assert AwaitingWrite(s) == {};
    } else if limit == 1 {
      assert ZeroSeers(INIT) == {};
      FirstWaveRun(INIT, steps);
      SubsetCardinality(AwaitingWrite(s), ZeroSeers(s));
    } else {
      AloneRun(INIT, steps, limit);
      SubsetCardinality(AwaitingWrite(s), s.inflight.Keys);
      assert |s.inflight.Keys| == |s.inflight|;
      if s.peak == 1 {
        AdmissionsBounded(steps, limit);
      } else {
        NeverStarted(INIT, steps, limit);
      }
    }
  }

  lemma {:induction false} NeverStarted(s: State, steps: seq<Step>, limit: u32)
    requires Shaped(s) && s.inflight == map[] && ValidRun(s, steps, limit) && Exec(s, steps, limit).peak == 0
    ensures Exec(s, steps, limit) == s
    decreases |steps|
  {
    if steps != [] {
      var s1 := Apply(s, steps[0], limit);
      assert |s1.inflight.Keys| == |s1.inflight| && steps[0].id in s1.inflight.Keys;
      HistoryGrows(s1, steps[1..], limit);
      assert false;
    }
  }
}
