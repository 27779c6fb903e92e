/**
 * The key-encryption-key pair (src/kek.rs): sealing under the current key,
 * opening with fallback to the previous one, and the preflight cache stacked
 * on the pair cache. AES-GCM is ideal: an envelope opens under its own key and
 * associated data, and under nothing else.
 */
module Kek {
  import opened Common
  import opened SecretCache

  datatype KekPair = KekPair(current: nat, previous: Option<nat>)

  datatype Envelope = Envelope(key: nat, plaintext: seq<nat>, aad: string)

  function Seal(pair: KekPair, plaintext: seq<nat>, aad: string): Envelope {
    Envelope(pair.current, plaintext, aad)
  }

  /** A failed decryption reports which key failed. */
  function DecryptWithKek(key: nat, e: Envelope, aad: string): Result<seq<nat>, nat> {
    if key == e.key && aad == e.aad then Ok(e.plaintext) else Err(key)
  }

  /** Current key first, then the previous one if there is one; the first error is reported. */
  function DecryptWithKekFallback(pair: KekPair, e: Envelope, aad: string): Result<seq<nat>, nat> {
    match DecryptWithKek(pair.current, e, aad)
    case Ok(plaintext) => Ok(plaintext)
    case Err(primary) =>
      if pair.previous.Some? && DecryptWithKek(pair.previous.value, e, aad).Ok?
      then DecryptWithKek(pair.previous.value, e, aad)
      else Err(primary)
  }

  // ----- Envelopes across rotations and isolates -----

  /**
   * The two secret slots over time, with the keys numbered in order of
   * rotation: at moment m the current slot holds key `current(m)` and the
   * previous slot key `moved(m) - 1`, or nothing when `moved(m)` is zero. A
   * rotation is two writes, so the two counts may differ in between.
   */
  datatype Slots = Slots(current: int -> nat, moved: int -> nat) {
    ghost predicate Monotone() {
      && (forall a, b :: a <= b ==> current(a) <= current(b))
      && (forall a, b :: a <= b ==> moved(a) <= moved(b))
    }
  }

  /**
   * A pair fetch reads the current slot at m and then the optional previous
   * slot at n; a previous slot that is missing or fails to read gives none.
   */
  ghost function PairSource(slots: Slots): (KekPair, int, int) -> bool {
    (v: KekPair, m: int, n: int) =>
      v.current == slots.current(m) && (v.previous.None? || v.previous.value == slots.moved(n) - 1)
  }

  /** A pair fetch whose read of the previous slot succeeds. */
  ghost function IntactSource(slots: Slots): (KekPair, int, int) -> bool {
    (v: KekPair, m: int, n: int) =>
      && v.current == slots.current(m)
      && v.previous == if slots.moved(n) == 0 then None else Some(slots.moved(n) - 1)
  }

  /**
   * The plaintext comes back exactly when the pair holds the sealing key and the
   * data match; otherwise the failure of the current key is reported.
   */
  lemma OpensIff(sealing: KekPair, opening: KekPair, plaintext: seq<nat>, aad: string, aad': string)
    ensures var r := DecryptWithKekFallback(opening, Seal(sealing, plaintext, aad), aad');
            && (r.Ok? <==>
                  aad == aad' && (opening.current == sealing.current || opening.previous == Some(sealing.current)))
            && (r.Ok? ==> r.value == plaintext)
            && (r.Err? ==> r.error == opening.current)
  {
  }

  /** Opened at least the cache TTL after sealing, with at most one rotation from the TTL before the sealing on. */
  ghost predicate OneRotation(slots: Slots, sealing: Answer<KekPair>, opening: Answer<KekPair>) {
    && sealing.value.Some? && opening.value.Some?
    && sealing.at <= opening.asked && sealing.at + CACHE_TTL_MS <= opening.at
    && slots.moved(opening.at) <= slots.current(Since(sealing)) + 1
  }

  /** When this pair was fetched, the previous slot was at least as far on as the current one. */
  predicate FetchedTogether(v: KekPair) {
    v.current <= if v.previous.Some? then v.previous.value + 1 else 0
  }

  lemma FetchedTogetherIff(slots: Slots, v: KekPair, m: int, n: int)
    requires IntactSource(slots)(v, m, n)
    ensures FetchedTogether(v) <==> slots.current(m) <= slots.moved(n)
  {
  }

  /**
   * An envelope sealed on one isolate opens on any isolate at least the cache
   * TTL later, with at most one rotation, of which either write may fall inside
   * a pair fetch and in either order, if the one fetch that the opening pair
   * comes from did not read a replaced current slot and an unfilled previous one.
   */
  lemma EnvelopeSurvivesOneRotation(
      slots: Slots,
      clock1: int, steps1: seq<Step<KekPair>>, sealing: Answer<KekPair>,
      clock2: int, steps2: seq<Step<KekPair>>, opening: Answer<KekPair>,
      plaintext: seq<nat>, aad: string)
    requires slots.Monotone() && OneRotation(slots, sealing, opening) && FetchedTogether(opening.value.value)
    requires Serves(IntactSource(slots), clock1, steps1, sealing)
    requires Serves(IntactSource(slots), clock2, steps2, opening)
    ensures DecryptWithKekFallback(opening.value.value, Seal(sealing.value.value, plaintext, aad), aad) == Ok(plaintext)
  {
    var source := IntactSource(slots);
    ServedValuesAreCurrent(source, clock1, steps1, sealing);
    ServedValuesAreCurrent(source, clock2, steps2, opening);
    var m1, n1 :| Since(sealing) <= m1 <= n1 <= sealing.at && source(sealing.value.value, m1, n1);
    var m2, n2 :| Since(opening) <= m2 <= n2 <= opening.at && source(opening.value.value, m2, n2);
    FetchedTogetherIff(slots, opening.value.value, m2, n2);
    OneRotationApart(slots, Since(sealing), m1, m2, n2, opening.at);
    OpensIff(sealing.value.value, opening.value.value, plaintext, aad, aad);
  }

  /**
   * The exact condition, also where reads of the optional previous slot may
   * fail: the envelope opens if and only if the opening pair has the sealing key
   * as current, or has a previous key and was fetched together.
   */
  lemma EnvelopeSurvivesIff(
      slots: Slots,
      clock1: int, steps1: seq<Step<KekPair>>, sealing: Answer<KekPair>,
      clock2: int, steps2: seq<Step<KekPair>>, opening: Answer<KekPair>,
      plaintext: seq<nat>, aad: string)
    requires slots.Monotone() && OneRotation(slots, sealing, opening)
    requires slots.current(opening.at) <= slots.current(Since(sealing)) + 1
    requires Serves(PairSource(slots), clock1, steps1, sealing) && Serves(PairSource(slots), clock2, steps2, opening)
    ensures var v := opening.value.value;
            DecryptWithKekFallback(v, Seal(sealing.value.value, plaintext, aad), aad) == Ok(plaintext)
            <==> v.current == sealing.value.value.current || (v.previous.Some? && FetchedTogether(v))
  {
    var source := PairSource(slots);
    ServedValuesAreCurrent(source, clock1, steps1, sealing);
    ServedValuesAreCurrent(source, clock2, steps2, opening);
    var m1, n1 :| Since(sealing) <= m1 <= n1 <= sealing.at && source(sealing.value.value, m1, n1);
    var m2, n2 :| Since(opening) <= m2 <= n2 <= opening.at && source(opening.value.value, m2, n2);
    assert slots.current(Since(sealing)) <= slots.current(m1) <= slots.current(m2) <= slots.current(opening.at);
    if slots.current(m2) <= slots.moved(n2) {
      OneRotationApart(slots, Since(sealing), m1, m2, n2, opening.at);
    }
    OpensIff(sealing.value.value, opening.value.value, plaintext, aad, aad);
  }

  /** If the current slot has moved on, the previous slot already holds the key it held before. */
  lemma OneRotationApart(slots: Slots, from: int, sealed: int, current: int, previous: int, to: int)
    requires slots.Monotone() && slots.current(current) <= slots.moved(previous)
    requires from <= sealed <= current <= previous <= to
    requires slots.moved(to) <= slots.current(from) + 1
    ensures slots.current(current) != slots.current(sealed) ==> slots.moved(previous) - 1 == slots.current(sealed)
  {
    assert slots.current(from) <= slots.current(sealed) <= slots.current(current);
    assert slots.current(current) <= slots.moved(previous) <= slots.moved(to);
  }

  /** Every pair that a fetch between two moments can return has this key. */
  ghost predicate EveryFetchHolds(slots: Slots, key: nat, from: int, to: int) {
    forall v, m, n | from <= m <= n <= to && IntactSource(slots)(v, m, n) :: v.current == key || v.previous == Some(key)
  }

  /**
   * Exactly which write orders are safe: given at most one rotation away from
   * the sealing key, every fetch holds it if and only if at each moment the
   * current slot still has it or the previous slot already has it.
   */
  lemma EveryFetchHoldsIff(slots: Slots, key: nat, from: int, to: int)
    requires slots.Monotone() && slots.moved(to) <= key + 1
    ensures EveryFetchHolds(slots, key, from, to) <==>
            forall m | from <= m <= to :: slots.current(m) == key || slots.moved(m) == key + 1
  {
    if EveryFetchHolds(slots, key, from, to) {
      forall m | from <= m <= to
        ensures slots.current(m) == key || slots.moved(m) == key + 1
      {
        var v := KekPair(slots.current(m), if slots.moved(m) == 0 then None else Some(slots.moved(m) - 1));
        assert IntactSource(slots)(v, m, m);
      }
    }
    if forall m | from <= m <= to :: slots.current(m) == key || slots.moved(m) == key + 1 {
      forall v, m, n | from <= m <= n <= to && IntactSource(slots)(v, m, n)
        ensures v.current == key || v.previous == Some(key)
      {
        assert slots.moved(m) <= slots.moved(n) <= slots.moved(to);
      }
    }
  }

  /**
   * Current slot first: a gap of one millisecond between the two writes is
   * enough. A pair fetched in it is served for the whole cache TTL, long after
   * both writes, and does not open what was sealed before the rotation, although
   * everything that `EnvelopeSurvivesOneRotation` asks for but `FetchedTogether` holds.
   */
  lemma CurrentFirstLosesOldKey(d: nat, plaintext: seq<nat>, aad: string)
      returns (slots: Slots, steps1: seq<Step<KekPair>>, sealing: Answer<KekPair>,
               steps2: seq<Step<KekPair>>, opening: Answer<KekPair>)
    requires d < CACHE_TTL_MS
    ensures slots.Monotone() && OneRotation(slots, sealing, opening)
    ensures slots.current(opening.at) <= slots.current(Since(sealing)) + 1
    ensures forall m | m != CACHE_TTL_MS :: slots.current(m) <= slots.moved(m)
    ensures Serves(IntactSource(slots), 0, steps1, sealing)
    ensures Serves(IntactSource(slots), CACHE_TTL_MS, steps2, opening)
    ensures opening.asked == opening.at == CACHE_TTL_MS + d
    ensures DecryptWithKekFallback(opening.value.value, Seal(sealing.value.value, plaintext, aad), aad).Err?
  {
    slots := Slots(m => if m < CACHE_TTL_MS then 0 else 1, m => if m <= CACHE_TTL_MS then 0 else 1);
    sealing := Answer(0, 0, Some(KekPair(0, None)));
    opening := Answer(CACHE_TTL_MS + d, CACHE_TTL_MS + d, Some(KekPair(1, None)));
    steps1 := FetchedThenHit(IntactSource(slots), 0, KekPair(0, None), 0);
    steps2 := FetchedThenHit(IntactSource(slots), CACHE_TTL_MS, KekPair(1, None), d);
  }

  /**
   * The TTL is needed too: with both slots written at one moment, an isolate
   * that fetched just before does not open what another seals just after, for
   * as long as its pair stays cached.
   */
  lemma NewEnvelopeFailsOnStaleIsolate(d: nat, plaintext: seq<nat>, aad: string)
      returns (slots: Slots, steps1: seq<Step<KekPair>>, sealing: Answer<KekPair>,
               steps2: seq<Step<KekPair>>, opening: Answer<KekPair>)
    requires d < CACHE_TTL_MS - 1
    ensures slots.Monotone() && forall m :: slots.current(m) == slots.moved(m)
    ensures Serves(IntactSource(slots), 1, steps1, sealing) && Serves(IntactSource(slots), 0, steps2, opening)
    ensures slots.moved(opening.at) <= slots.current(Since(sealing)) + 1
    ensures sealing.at <= opening.asked == opening.at == sealing.at + d
    ensures sealing.value.Some? && opening.value.Some?
    ensures DecryptWithKekFallback(opening.value.value, Seal(sealing.value.value, plaintext, aad), aad).Err?
  {
    slots := Slots(m => if m < 1 then 0 else 1, m => if m < 1 then 0 else 1);
    sealing := Answer(1, 1, Some(KekPair(1, Some(0))));
    opening := Answer(1 + d, 1 + d, Some(KekPair(0, None)));
    steps1 := FetchedThenHit(IntactSource(slots), 1, KekPair(1, Some(0)), 0);
    steps2 := FetchedThenHit(IntactSource(slots), 0, KekPair(0, None), 1 + d);
  }

  // ----- Preflight stacked on the pair cache -----

  const OK_TTL_MS: int := 300_000
  const FAIL_TTL_MS: int := 30_000

  datatype Checked = Checked(available: bool, checkedAt: int)

  function TtlFor(available: bool): int { if available then OK_TTL_MS else FAIL_TTL_MS }

  predicate PreflightCacheHit(available: bool, age: int) { 0 <= age < TtlFor(available) }

  /** The isolate's two thread-local caches. */
  class Isolate {
    const pairs: CacheSlot<KekPair>
    var preflight: Option<Checked>

    constructor ()
      ensures preflight == None && pairs.entry == None && fresh(pairs)
    {
      pairs := new CacheSlot();
      preflight := None;
    }

    /** `now` is the call's clock reading, `later` the pair cache's own one. */
    method PreflightKek(now: int, later: int, fetched: Result<KekPair, string>) returns (available: bool)
      requires now <= later
      modifies this, pairs
      ensures old(preflight.Some? && 0 <= now - preflight.value.checkedAt < TtlFor(preflight.value.available)) ==>
                && available == old(preflight).value.available
                && preflight == old(preflight) && pairs.entry == old(pairs.entry)
      ensures !old(preflight.Some? && 0 <= now - preflight.value.checkedAt < TtlFor(preflight.value.available)) ==>
                && preflight == Some(Checked(available, now))
                && (available <==> Hit(old(pairs.entry), later).Some? || fetched.Ok?)
                && (available ==> pairs.entry.Some? && pairs.entry.value.fetchedAt > now - CACHE_TTL_MS)
    {
      if preflight.Some? && PreflightCacheHit(preflight.value.available, now - preflight.value.checkedAt) {
        return preflight.value.available;
      }
      var pair := pairs.GetOrFetch(later, fetched);
      available := pair.Ok?;
      preflight := Some(Checked(available, now));
    }
  }

  /** A fetch of the pair from the secret store, started at `start`. */
  datatype Fetch = Fetch(start: int, ok: bool)

  datatype Probe =
    | Probing(since: int)
    | Fetching(since: int, start: int)

  /** `since` is when the call that was answered began. */
  datatype Verdict = Verdict(since: int, available: bool)

  datatype PreflightState = PreflightState(
    clock: int,
    pair: Option<Entry<()>>,
    preflight: Option<Checked>,
    probes: map<nat, Probe>,
    others: map<nat, int>,
    fetches: seq<Fetch>,
    verdicts: seq<Verdict>)

  /** Preflight calls, and other users of the pair cache, overlapping freely. */
  datatype PreflightStep =
    | Wait(ms: nat)
    | Ask(id: nat)
    | LookUp(id: nat)
    | Fetched(id: nat, ok: bool)
    | OtherFetch(id: nat)
    | OtherFetched(id: nat, ok: bool)

  predicate Allowed(s: PreflightState, step: PreflightStep) {
    match step
    case Wait(_) => true
    case Ask(id) => id !in s.probes
    case LookUp(id) => id in s.probes && s.probes[id].Probing?
    case Fetched(id, _) => id in s.probes && s.probes[id].Fetching?
    case OtherFetch(id) => id !in s.others && Hit(s.pair, s.clock).None?
    case OtherFetched(id, _) => id in s.others
  }

  function Answered(s: PreflightState, id: nat, since: int, available: bool): PreflightState {
    s.(preflight := Some(Checked(available, since)), probes := s.probes - {id},
       verdicts := s.verdicts + [Verdict(since, available)])
  }

  function Filled(s: PreflightState, start: int, ok: bool): PreflightState {
    s.(pair := if ok then Some(Entry((), start)) else s.pair, fetches := s.fetches + [Fetch(start, ok)])
  }

  function Next(s: PreflightState, step: PreflightStep): PreflightState
    requires Allowed(s, step)
  {
    match step
    case Wait(ms) => s.(clock := s.clock + ms)
    case Ask(id) =>
      if s.preflight.Some? && PreflightCacheHit(s.preflight.value.available, s.clock - s.preflight.value.checkedAt)
      then s.(verdicts := s.verdicts + [Verdict(s.clock, s.preflight.value.available)])
      else s.(probes := s.probes[id := Probing(s.clock)])
    case LookUp(id) =>
      if Hit(s.pair, s.clock).Some? then Answered(s, id, s.probes[id].since, true)
      else s.(probes := s.probes[id := Fetching(s.probes[id].since, s.clock)])
    case Fetched(id, ok) =>
      Answered(Filled(s, s.probes[id].start, ok), id, s.probes[id].since, ok)
    case OtherFetch(id) => s.(others := s.others[id := s.clock])
    case OtherFetched(id, ok) => Filled(s, s.others[id], ok).(others := s.others - {id})
  }

  function Idle(clock: int): PreflightState {
    PreflightState(clock, None, None, map[], map[], [], [])
  }

  predicate PreflightRun(s: PreflightState, steps: seq<PreflightStep>)
    decreases |steps|
  {
    steps == [] || (Allowed(s, steps[0]) && PreflightRun(Next(s, steps[0]), steps[1..]))
  }

  function After(s: PreflightState, steps: seq<PreflightStep>): PreflightState
    requires PreflightRun(s, steps)
    decreases |steps|
  {
    if steps == [] then s else After(Next(s, steps[0]), steps[1..])
  }

  /** Some fetch with this result started after `from`. */
  ghost predicate FetchedSince(fetches: seq<Fetch>, ok: bool, from: int) {
    exists i | 0 <= i < |fetches| :: fetches[i].ok == ok && fetches[i].start > from
  }

  /** A fresh probe is a fetch of its own, or a pair cached less than the TTL ago. */
  ghost predicate CheckedBacked(fetches: seq<Fetch>, c: Checked) {
    FetchedSince(fetches, c.available, c.checkedAt - if c.available then CACHE_TTL_MS else 1)
  }

  /** The staleness bounds of the stacked caches: 600 seconds for yes, 30 for no. */
  ghost predicate VerdictBacked(fetches: seq<Fetch>, v: Verdict) {
    FetchedSince(fetches, v.available, v.since - if v.available then CACHE_TTL_MS + OK_TTL_MS else FAIL_TTL_MS)
  }

  ghost predicate PreflightInv(s: PreflightState) {
    && (s.pair.Some? ==> FetchedSince(s.fetches, true, s.pair.value.fetchedAt - 1))
    && (s.preflight.Some? ==> CheckedBacked(s.fetches, s.preflight.value))
    && (forall id | id in s.probes ::
          s.probes[id].since <= s.clock && (s.probes[id].Fetching? ==> s.probes[id].since <= s.probes[id].start))
    && (forall i | 0 <= i < |s.verdicts| :: VerdictBacked(s.fetches, s.verdicts[i]))
  }

  lemma Earlier(fetches: seq<Fetch>, ok: bool, from: int, earlier: int)
    requires FetchedSince(fetches, ok, from) && earlier <= from
    ensures FetchedSince(fetches, ok, earlier)
  {
    var i :| 0 <= i < |fetches| && fetches[i].ok == ok && fetches[i].start > from;
  }

  lemma Grown(fetches: seq<Fetch>, f: Fetch, ok: bool, from: int)
    requires FetchedSince(fetches, ok, from)
    ensures FetchedSince(fetches + [f], ok, from)
  {
    var i :| 0 <= i < |fetches| && fetches[i].ok == ok && fetches[i].start > from;
    assert (fetches + [f])[i] == fetches[i];
  }

  lemma FilledKeeps(s: PreflightState, start: int, ok: bool)
    requires PreflightInv(s)
    ensures PreflightInv(Filled(s, start, ok)) && FetchedSince(Filled(s, start, ok).fetches, ok, start - 1)
  {
    var f := Fetch(start, ok);
    assert (s.fetches + [f])[|s.fetches|] == f;
    forall yes, from | FetchedSince(s.fetches, yes, from) ensures FetchedSince(s.fetches + [f], yes, from) {
      Grown(s.fetches, f, yes, from);
    }
  }

  lemma AnsweredKeeps(s: PreflightState, id: nat, since: int, available: bool)
    requires PreflightInv(s) && CheckedBacked(s.fetches, Checked(available, since))
    ensures PreflightInv(Answered(s, id, since, available))
  {
    Earlier(s.fetches, available, since - if available then CACHE_TTL_MS else 1,
            since - if available then CACHE_TTL_MS + OK_TTL_MS else FAIL_TTL_MS);
  }

  lemma AskKeeps(s: PreflightState, id: nat)
    requires PreflightInv(s) && Allowed(s, Ask(id))
    ensures PreflightInv(Next(s, Ask(id)))
  {
    if s.preflight.Some? && PreflightCacheHit(s.preflight.value.available, s.clock - s.preflight.value.checkedAt) {
      var c := s.preflight.value;
      Earlier(s.fetches, c.available, c.checkedAt - if c.available then CACHE_TTL_MS else 1,
              s.clock - if c.available then CACHE_TTL_MS + OK_TTL_MS else FAIL_TTL_MS);
    }
  }

  lemma PreflightStepKeeps(s: PreflightState, step: PreflightStep)
    requires PreflightInv(s) && Allowed(s, step)
    ensures PreflightInv(Next(s, step))
  {
    match step
    case Wait(_) =>
    case Ask(id) => AskKeeps(s, id);
    case LookUp(id) =>
      if Hit(s.pair, s.clock).Some? {
        Earlier(s.fetches, true, s.pair.value.fetchedAt - 1, s.probes[id].since - CACHE_TTL_MS);
        AnsweredKeeps(s, id, s.probes[id].since, true);
      }
    case Fetched(id, ok) =>
      var filled := Filled(s, s.probes[id].start, ok);
      FilledKeeps(s, s.probes[id].start, ok);
      Earlier(filled.fetches, ok, s.probes[id].start - 1, s.probes[id].since - if ok then CACHE_TTL_MS else 1);
      AnsweredKeeps(filled, id, s.probes[id].since, ok);
    case OtherFetch(_) =>
    case OtherFetched(id, ok) => FilledKeeps(s, s.others[id], ok);
  }

  lemma {:induction false} PreflightRunKeeps(s: PreflightState, steps: seq<PreflightStep>)
    requires PreflightInv(s) && PreflightRun(s, steps)
    ensures PreflightInv(After(s, steps))
    decreases |steps|
  {
    if steps != [] {
      PreflightStepKeeps(s, steps[0]);
      PreflightRunKeeps(Next(s, steps[0]), steps[1..]);
    }
  }

  /**
   * In every timed run of one isolate: a yes to a call made at t rests on a
   * successful fetch started less than 600 s before t, a no on a failed fetch
   * started less than 30 s before t.
   */
  lemma PreflightStaleness(clock: int, steps: seq<PreflightStep>, k: nat)
    requires PreflightRun(Idle(clock), steps) && k < |After(Idle(clock), steps).verdicts|
    ensures var end := After(Idle(clock), steps);
            var v := end.verdicts[k];
            && (v.available ==> FetchedSince(end.fetches, true, v.since - 600_000))
            && (!v.available ==> FetchedSince(end.fetches, false, v.since - 30_000))
  {
    PreflightRunKeeps(Idle(clock), steps);
    var end := After(Idle(clock), steps);
    assert VerdictBacked(end.fetches, end.verdicts[k]);
  }

  ghost predicate Reachable(start: PreflightState, s: PreflightState) {
    exists steps :: PreflightRun(start, steps) && After(start, steps) == s
  }

  lemma {:induction false} RunAppend(s: PreflightState, steps: seq<PreflightStep>, last: PreflightStep)
    requires PreflightRun(s, steps) && Allowed(After(s, steps), last)
    ensures PreflightRun(s, steps + [last]) && After(s, steps + [last]) == Next(After(s, steps), last)
    decreases |steps|
  {
    var all := steps + [last];
    if steps == [] {
      assert all[1..] == [];
    } else {
      assert all[0] == steps[0] && all[1..] == steps[1..] + [last];
      RunAppend(Next(s, steps[0]), steps[1..], last);
    }
  }

  lemma Extend(start: PreflightState, s: PreflightState, last: PreflightStep)
    requires Reachable(start, s) && Allowed(s, last)
    ensures Reachable(start, Next(s, last))
  {
    var steps :| PreflightRun(start, steps) && After(start, steps) == s;
    RunAppend(start, steps, last);
  }

  /** Another caller fetches the pair into an empty cache. */
  lemma PairFetched(start: PreflightState, s: PreflightState)
    requires Reachable(start, s) && s.pair.None? && s.others == map[]
    ensures Reachable(start, Filled(s, s.clock, true))
  {
    Extend(start, s, OtherFetch(0));
    Extend(start, Next(s, OtherFetch(0)), OtherFetched(0, true));
    assert Next(Next(s, OtherFetch(0)), OtherFetched(0, true)) == Filled(s, s.clock, true);
  }

  /** A first preflight call that the cached pair answers. */
  lemma AnsweredFromPair(start: PreflightState, s: PreflightState)
    requires Reachable(start, s) && s.preflight.None? && Hit(s.pair, s.clock).Some? && s.probes == map[]
    ensures Reachable(start, s.(preflight := Some(Checked(true, s.clock)),
                                verdicts := s.verdicts + [Verdict(s.clock, true)]))
  {
    Extend(start, s, Ask(0));
    Extend(start, Next(s, Ask(0)), LookUp(0));
    assert Next(Next(s, Ask(0)), LookUp(0)).probes == map[];
  }

  /** The bound for yes is tight: the only fetch can be two milliseconds short of 600 s old. */
  lemma YesCanBeTenMinutesOld(start: PreflightState, clock: int)
    requires start == Idle(clock)
    ensures exists s :: Reachable(start, s) && s.fetches == [Fetch(clock, true)]
                        && s.verdicts == [Verdict(clock + 299_999, true), Verdict(clock + 599_998, true)]
  {
    assert PreflightRun(start, []) && After(start, []) == start;
    hide Reachable, PreflightRun, After;
    PairFetched(start, start);
    var s1 := Filled(start, clock, true);
    Extend(start, s1, Wait(299_999));
    var s2 := Next(s1, Wait(299_999));
    AnsweredFromPair(start, s2);
    var s3 := s2.(preflight := Some(Checked(true, s2.clock)), verdicts := s2.verdicts + [Verdict(s2.clock, true)]);
    Extend(start, s3, Wait(299_999));
    var s4 := Next(s3, Wait(299_999));
    Extend(start, s4, Ask(0));
    var s5 := Next(s4, Ask(0));
    assert s5.fetches == [Fetch(clock, true)];
    assert s5.verdicts == [Verdict(clock + 299_999, true), Verdict(clock + 599_998, true)];
  }

  /** One probe that finds no pair and whose fetch is over at once. */
  lemma Probes(start: PreflightState, s: PreflightState, ok: bool)
    requires Reachable(start, s) && s.preflight.None? && s.pair.None? && s.probes == map[]
    ensures Reachable(start, Answered(Filled(s, s.clock, ok), 0, s.clock, ok))
  {
    hide Reachable;
    Extend(start, s, Ask(0));
    var s1 := Next(s, Ask(0));
    Extend(start, s1, LookUp(0));
    var s2 := Next(s1, LookUp(0));
    Extend(start, s2, Fetched(0, ok));
    assert s2.probes[0] == Fetching(s.clock, s.clock);
    assert s2.probes - {0} == map[] == s.probes - {0};
  }

  /** The bound for no is tight: the only fetch can be one millisecond short of 30 s old. */
  lemma NoCanBeThirtySecondsOld(start: PreflightState, clock: int)
    requires start == Idle(clock)
    ensures exists s :: Reachable(start, s) && s.fetches == [Fetch(clock, false)]
                        && s.verdicts == [Verdict(clock, false), Verdict(clock + 29_999, false)]
  {
    assert PreflightRun(start, []) && After(start, []) == start;
    hide Reachable, PreflightRun, After;
    Probes(start, start, false);
    var s1 := Answered(Filled(start, clock, false), 0, clock, false);
    Extend(start, s1, Wait(29_999));
    var s2 := Next(s1, Wait(29_999));
    Extend(start, s2, Ask(0));
    var s3 := Next(s2, Ask(0));
    assert s3.fetches == [Fetch(clock, false)];
    assert s3.verdicts == [Verdict(clock, false), Verdict(clock + 29_999, false)];
  }
}
