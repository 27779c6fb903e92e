/**
 * The per-isolate TTL cache in front of the secret store (src/secret_cache.rs),
 * for any cached value type. Times are milliseconds.
 */
module SecretCache {
  import opened Common

  const CACHE_TTL_MS: int := 300_000

  /** A cached value, stamped with the time its fetch started. */
  datatype Entry<+T> = Entry(value: T, fetchedAt: int)

  /** Served from the cache only at an age in [0, TTL). */
  function Hit<T>(slot: Option<Entry<T>>, now: int): Option<T> {
    if slot.Some? && 0 <= now - slot.value.fetchedAt < CACHE_TTL_MS then Some(slot.value.value) else None
  }

  class CacheSlot<T> {
    var entry: Option<Entry<T>>

    constructor ()
      ensures entry == None
    {
      entry := None;
    }

    /** Serve a hit, else fetch; a failed fetch leaves the slot as it was. */
    method GetOrFetch<E>(now: int, fetched: Result<T, E>) returns (r: Result<T, E>)
      modifies this
      ensures old(entry).Some? && 0 <= now - old(entry).value.fetchedAt < CACHE_TTL_MS ==>
                r == Ok(old(entry).value.value) && entry == old(entry)
      ensures !(old(entry).Some? && 0 <= now - old(entry).value.fetchedAt < CACHE_TTL_MS) ==>
                && r == fetched
                && entry == if fetched.Ok? then Some(Entry(fetched.value, now)) else old(entry)
      ensures r.Ok? ==> entry.Some? && entry.value.value == r.value && now - CACHE_TTL_MS < entry.value.fetchedAt <= now
    {
      var hit := Hit(entry, now);
      if hit.Some? {
        return Ok(hit.value);
      }
      if fetched.Ok? {
        entry := Some(Entry(fetched.value, now));
      }
      r := fetched;
    }
  }

  // ----- One isolate over time, with overlapping requests -----

  /** An answer given at `at` to a call made at `asked`; `None` is a failed fetch. */
  datatype Answer<+T> = Answer(asked: int, at: int, value: Option<T>)

  datatype State<T> = State(clock: int, slot: Option<Entry<T>>, pending: map<nat, int>, answers: seq<Answer<T>>)

  /** A call that misses leaves a fetch pending; other calls may come and go until it completes. */
  datatype Step<T> =
    | Tick(ms: nat)
    | Call(id: nat)
    | Complete(id: nat, outcome: Option<T>)

  /** `source(v, m, n)`: a fetch making its reads from moment m to moment n may return v. */
  ghost predicate ReadBetween<T>(source: (T, int, int) -> bool, v: T, from: int, to: int) {
    exists m, n :: from <= m <= n <= to && source(v, m, n)
  }

  ghost predicate Enabled<T>(source: (T, int, int) -> bool, s: State<T>, step: Step<T>) {
    match step
    case Tick(_) => true
    case Call(id) => id !in s.pending
    case Complete(id, outcome) =>
      id in s.pending && (outcome.Some? ==> ReadBetween(source, outcome.value, s.pending[id], s.clock))
  }

  function Apply<T>(s: State<T>, step: Step<T>): State<T>
    requires step.Complete? ==> step.id in s.pending
  {
    match step
    case Tick(ms) => s.(clock := s.clock + ms)
    case Call(id) =>
      var hit := Hit(s.slot, s.clock);
      if hit.Some? then s.(answers := s.answers + [Answer(s.clock, s.clock, hit)])
      else s.(pending := s.pending[id := s.clock])
    case Complete(id, outcome) =>
      var start := s.pending[id];
      s.(slot := if outcome.Some? then Some(Entry(outcome.value, start)) else s.slot,
         pending := s.pending - {id},
         answers := s.answers + [Answer(start, s.clock, outcome)])
  }

  /**
   * One call with nothing in between does what `GetOrFetch` promises: a hit is
   * served and changes nothing; a miss answers what was fetched, and only a
   * successful fetch replaces the entry.
   */
  lemma CallAlone<T>(s: State<T>, id: nat, outcome: Option<T>)
    requires id !in s.pending
    ensures var s1 := Apply(s, Call(id));
            if s.slot.Some? && 0 <= s.clock - s.slot.value.fetchedAt < 300_000
            then s1 == s.(answers := s.answers + [Answer(s.clock, s.clock, Some(s.slot.value.value))])
            else id in s1.pending
                 && Apply(s1, Complete(id, outcome)) ==
                    s.(slot := if outcome.Some? then Some(Entry(outcome.value, s.clock)) else s.slot,
                       answers := s.answers + [Answer(s.clock, s.clock, outcome)])
  {
    if Hit(s.slot, s.clock).None? {
      assert s.pending[id := s.clock] - {id} == s.pending;
    }
  }

  function Fresh<T>(clock: int): State<T> { State(clock, None, map[], []) }

  ghost predicate ValidRun<T>(source: (T, int, int) -> bool, s: State<T>, steps: seq<Step<T>>)
    decreases |steps|
  {
    steps == [] || (Enabled(source, s, steps[0]) && ValidRun(source, Apply(s, steps[0]), steps[1..]))
  }

  ghost function Exec<T>(source: (T, int, int) -> bool, s: State<T>, steps: seq<Step<T>>): State<T>
    requires ValidRun(source, s, steps)
    decreases |steps|
  {
    if steps == [] then s else Exec(source, Apply(s, steps[0]), steps[1..])
  }

  /** The earliest moment whose data an answer may carry. */
  function Since<T>(a: Answer<T>): int { Min(a.asked, a.at - CACHE_TTL_MS + 1) }

  /** An answer's value was read less than the TTL before it, or after the call that fetched it. */
  ghost predicate Current<T>(source: (T, int, int) -> bool, a: Answer<T>) {
    a.value.Some? ==> ReadBetween(source, a.value.value, Since(a), a.at)
  }

  ghost predicate Inv<T>(source: (T, int, int) -> bool, s: State<T>) {
    && (s.slot.Some? ==> ReadBetween(source, s.slot.value.value, s.slot.value.fetchedAt, s.clock))
    && (forall i | 0 <= i < |s.answers| :: Current(source, s.answers[i]))
  }

  lemma Widen<T>(source: (T, int, int) -> bool, v: T, a: int, b: int, c: int, d: int)
    requires ReadBetween(source, v, b, c) && a <= b && c <= d
    ensures ReadBetween(source, v, a, d)
  {
    var m, n :| b <= m <= n <= c && source(v, m, n);
  }

  lemma StepKeeps<T>(source: (T, int, int) -> bool, s: State<T>, step: Step<T>)
    requires Inv(source, s) && Enabled(source, s, step)
    ensures Inv(source, Apply(s, step))
  {
    match step
    case Tick(ms) =>
      if s.slot.Some? {
        Widen(source, s.slot.value.value, s.slot.value.fetchedAt, s.slot.value.fetchedAt, s.clock, s.clock + ms);
      }
    case Call(id) =>
      if Hit(s.slot, s.clock).Some? {
        Widen(source, s.slot.value.value, s.clock - CACHE_TTL_MS + 1, s.slot.value.fetchedAt, s.clock, s.clock);
      }
    case Complete(id, outcome) =>
      if outcome.Some? {
        Widen(source, outcome.value, Min(s.pending[id], s.clock - CACHE_TTL_MS + 1), s.pending[id], s.clock, s.clock);
      }
  }

  lemma {:induction false} RunKeeps<T>(source: (T, int, int) -> bool, s: State<T>, steps: seq<Step<T>>)
    requires Inv(source, s) && ValidRun(source, s, steps)
    ensures Inv(source, Exec(source, s, steps))
    decreases |steps|
  {
    if steps != [] {
      StepKeeps(source, s, steps[0]);
      RunKeeps(source, Apply(s, steps[0]), steps[1..]);
    }
  }

  /** Some call of this run gets answer `a`; the run starts at `clock` with an empty slot. */
  ghost predicate Serves<T>(source: (T, int, int) -> bool, clock: int, steps: seq<Step<T>>, a: Answer<T>) {
    ValidRun(source, Fresh(clock), steps) && a in Exec(source, Fresh(clock), steps).answers
  }

  /**
   * Staleness bound: in every run, however calls and slow or failed fetches
   * overlap, a served value was read from the store less than the TTL before
   * it was served, or after the call it answers.
   */
  lemma ServedValuesAreCurrent<T>(source: (T, int, int) -> bool, clock: int, steps: seq<Step<T>>, a: Answer<T>)
    requires Serves(source, clock, steps, a)
    ensures Current(source, a)
  {
    RunKeeps(source, Fresh(clock), steps);
    var answers := Exec(source, Fresh(clock), steps).answers;
    var i :| 0 <= i < |answers| && answers[i] == a;
  }

  lemma OneStep<T>(source: (T, int, int) -> bool, s: State<T>, step: Step<T>, rest: seq<Step<T>>)
    requires Enabled(source, s, step) && ValidRun(source, Apply(s, step), rest)
    ensures ValidRun(source, s, [step] + rest)
    ensures Exec(source, s, [step] + rest) == Exec(source, Apply(s, step), rest)
  {
    assert ([step] + rest)[1..] == rest;
  }

  /** A fetch made at once can be served again at any age under the TTL. */
  lemma FetchedThenHit<T>(source: (T, int, int) -> bool, clock: int, v: T, d: nat) returns (steps: seq<Step<T>>)
    requires source(v, clock, clock) && d < CACHE_TTL_MS
    ensures Serves(source, clock, steps, Answer(clock + d, clock + d, Some(v)))
  {
    var s0 := Fresh(clock);
    var s1 := Apply(s0, Call(0));
    var s2 := Apply(s1, Complete(0, Some(v)));
    var s3 := Apply(s2, Tick(d));
    var s4 := Apply(s3, Call(0));
    assert ReadBetween(source, v, clock, clock);
    assert s4.answers[1] == Answer(clock + d, clock + d, Some(v));
    assert ValidRun(source, s4, []) && Exec(source, s4, []) == s4;
    hide ValidRun, Exec, Apply;
    OneStep(source, s3, Call(0), []);
    OneStep(source, s2, Tick(d), [Call(0)] + []);
    OneStep(source, s1, Complete(0, Some(v)), [Tick(d)] + ([Call(0)] + []));
    OneStep(source, s0, Call(0), [Complete(0, Some(v))] + ([Tick(d)] + ([Call(0)] + [])));
    steps := [Call(0)] + ([Complete(0, Some(v))] + ([Tick(d)] + ([Call(0)] + [])));
  }
}
