/**
 * The hourly KV counters of src/rate_limiting.rs run one request at a time:
 * the one-key counter, the counter sharded over eight keys, the round-robin
 * shard cursor, and bursts on the one-key counter. Interleaved requests on the
 * sharded counter are in ShardedInterleaving.
 */
module RateLimiting {
  import opened Common
  import opened Decimal

  const SHARD_COUNT: nat := 8
  const CURSOR_MODULUS: nat := U64_MAX + 1

  datatype CounterResult = CounterResult(allowed: bool, count: u32, limit: u32, readFailed: bool)

  /** The count a KV value stands for: absent or unparseable text counts as 0. */
  function CountAt(kv: map<string, string>, key: string): u32 {
    if key !in kv then 0 else
      match ParseUnsigned(kv[key], U32_MAX)
      case Some(n) => n
      case None => 0
  }

  function ShardKey(issuer: string, shard: nat, hour: nat): string {
    "blind:" + issuer + ":" + Print(shard) + "|" + Print(hour)
  }

  function ShardsOf(kv: map<string, string>, issuer: string, hour: nat): (s: seq<u32>)
    ensures |s| == SHARD_COUNT
  {
    seq(SHARD_COUNT, i requires 0 <= i < SHARD_COUNT => CountAt(kv, ShardKey(issuer, i, hour)))
  }

  function Sum(s: seq<nat>): nat {
    if s == [] then 0 else Sum(s[..|s| - 1]) + s[|s| - 1]
  }

  /** The running `saturating_add` of the read loop. */
  function SatSum(s: seq<nat>): u32 {
    if s == [] then 0 else SatAdd32(SatSum(s[..|s| - 1]), s[|s| - 1])
  }

  lemma {:induction false} SatSumIsCappedSum(s: seq<nat>)
    ensures SatSum(s) == Min(Sum(s), U32_MAX)
  {
    if s != [] {
      SatSumIsCappedSum(s[..|s| - 1]);
    }
  }

  lemma {:induction false} SumUpdate(s: seq<nat>, k: nat, v: nat)
    requires k < |s|
    ensures Sum(s[k := v]) == Sum(s) - s[k] + v
  {
    var n := |s| - 1;
    if k == n {
      assert s[k := v][..n] == s[..n];
    } else {
      assert s[k := v][..n] == s[..n][k := v];
      SumUpdate(s[..n], k, v);
    }
  }

  lemma {:induction false} SumAtLeast(s: seq<nat>, k: nat)
    requires k < |s|
    ensures s[k] <= Sum(s)
  {
    if k < |s| - 1 {
      SumAtLeast(s[..|s| - 1], k);
    }
  }

  lemma {:induction false} SumOfZeros(s: seq<nat>)
    requires forall i | 0 <= i < |s| :: s[i] == 0
    ensures Sum(s) == 0
  {
    if s != [] {
      SumOfZeros(s[..|s| - 1]);
    }
  }

  /** One call of the one-key counter on a key holding `count`: its answer and the new count. */
  function OneKeyCheck(count: u32, limit: u32, readOk: bool, writeOk: bool): (CounterResult, u32) {
    if !readOk then (CounterResult(false, 0, limit, true), count)
    else if count >= limit then (CounterResult(false, count, limit, false), count)
    else (CounterResult(true, count + 1, limit, false), if writeOk then count + 1 else count)
  }

  /** How many of the eight summation reads succeed before the first failure. */
  function GoodReads(ok: nat -> bool, from: nat): (n: nat)
    requires from <= SHARD_COUNT
    ensures from <= n <= SHARD_COUNT
    ensures forall i | from <= i < n :: ok(i)
    ensures n < SHARD_COUNT ==> !ok(n)
    decreases SHARD_COUNT - from
  {
    if from == SHARD_COUNT || !ok(from) then from else GoodReads(ok, from + 1)
  }

  /**
   * One call of the sharded counter: answer, new shard counts, new cursor.
   * Operations 0..7 are the summation reads, 8 the re-read, 9 the write.
   */
  function ShardedCheck(shards: seq<u32>, cursor: u64, limit: u32, ok: nat -> bool): (CounterResult, seq<u32>, u64)
    requires |shards| == SHARD_COUNT
  {
    var n := GoodReads(ok, 0);
    var aggregate := SatSum(shards[..n]);
    if n < SHARD_COUNT then (CounterResult(false, aggregate, limit, true), shards, cursor)
    else if aggregate >= limit then (CounterResult(false, aggregate, limit, false), shards, cursor)
    else
      var k := cursor % SHARD_COUNT;
      (CounterResult(true, SatAdd32(aggregate, 1), limit, false),
       shards[k := OneKeyCheck(shards[k], U32_MAX, ok(8), ok(9)).1],
       (cursor + 1) % CURSOR_MODULUS)
  }

  lemma ShardKeysDiffer(issuer: string, i: nat, j: nat, hour: nat)
    requires i < SHARD_COUNT && j < SHARD_COUNT && i != j
    ensures ShardKey(issuer, i, hour) != ShardKey(issuer, j, hour)
  {
    var at := |"blind:" + issuer + ":"|;
    assert ShardKey(issuer, i, hour)[at] == Print(i)[0];
    assert ShardKey(issuer, j, hour)[at] == Print(j)[0];
  }

  lemma ShardsAfterPut(kv: map<string, string>, issuer: string, hour: nat, k: nat, n: u32)
    requires k < SHARD_COUNT
    ensures ShardsOf(kv[ShardKey(issuer, k, hour) := Print(n)], issuer, hour) == ShardsOf(kv, issuer, hour)[k := n]
  {
    ParseOfPrint(n, U32_MAX);
    forall i | 0 <= i < SHARD_COUNT && i != k
      ensures ShardKey(issuer, i, hour) != ShardKey(issuer, k, hour)
    {
      ShardKeysDiffer(issuer, i, k, hour);
    }
  }

  /** The rate-limit KV namespace, and the isolate's shard cursor. */
  class RateLimitKv {
    var values: map<string, string>
    var cursor: u64

    constructor ()
      ensures values == map[] && cursor == 0
    {
      values, cursor := map[], 0;
    }

    method CheckKvCounterReadOnly(key: string, readOk: bool) returns (count: u32, readFailed: bool)
      ensures readFailed == !readOk
      ensures count == if readOk then CountAt(values, key) else 0
    {
      if !readOk {
        return 0, true;
      }
      count, readFailed := CountAt(values, key), false;
    }

    /** Read, compare, write back: three operations on one key, none of them atomic together. */
    method CheckKvCounter(key: string, limit: u32, readOk: bool, writeOk: bool) returns (r: CounterResult)
      modifies this`values
      ensures r == OneKeyCheck(old(CountAt(values, key)), limit, readOk, writeOk).0
      ensures r.allowed <==> readOk && old(CountAt(values, key)) < limit
      ensures r.readFailed <==> !readOk
      ensures readOk ==> r.count == old(CountAt(values, key)) + if r.allowed then 1 else 0
      ensures CountAt(values, key) == OneKeyCheck(old(CountAt(values, key)), limit, readOk, writeOk).1
      ensures values == if r.allowed && writeOk then old(values)[key := Print(r.count)] else old(values)
    {
      if !readOk {
        return CounterResult(false, 0, limit, true);
      }
      var count := CountAt(values, key);
      if count >= limit {
        return CounterResult(false, count, limit, false);
      }
      var next := SatAdd32(count, 1);
      if writeOk {
        values := values[key := Print(next)];
        ParseOfPrint(next, U32_MAX);
      }
      r := CounterResult(true, next, limit, false);
    }

    /** `fetch_add` on a wrapping 64-bit cursor, reduced to a shard index. */
    method NextBlindShard() returns (k: nat)
      modifies this`cursor
      ensures k == old(cursor) % SHARD_COUNT < SHARD_COUNT
      ensures cursor == (old(cursor) + 1) % CURSOR_MODULUS
    {
      k := cursor % SHARD_COUNT;
      cursor := (cursor + 1) % CURSOR_MODULUS;
    }

    /** Read and add up the shards, stopping at the first failed read. */
    method SumShards(issuer: string, hour: nat, ok: nat -> bool) returns (aggregate: u32, readFailed: bool)
      ensures aggregate == SatSum(ShardsOf(values, issuer, hour)[..GoodReads(ok, 0)])
      ensures readFailed <==> exists i | 0 <= i < SHARD_COUNT :: !ok(i)
    {
      var shards := ShardsOf(values, issuer, hour);
      aggregate := 0;
      for shard := 0 to SHARD_COUNT
        invariant aggregate == SatSum(shards[..shard])
        invariant forall i | 0 <= i < shard :: ok(i)
      {
        var count, failed := CheckKvCounterReadOnly(ShardKey(issuer, shard, hour), ok(shard));
        if failed {
          assert GoodReads(ok, 0) == shard;
          return aggregate, true;
        }
        aggregate := SatAdd32(aggregate, count);
        assert shards[..shard + 1][..shard] == shards[..shard];
      }
      readFailed := false;
    }

    method CheckBlindIssuanceSharded(issuer: string, hour: nat, limit: u32, ok: nat -> bool) returns (r: CounterResult)
      modifies this
      ensures (r, ShardsOf(values, issuer, hour), cursor)
           == ShardedCheck(old(ShardsOf(values, issuer, hour)), old(cursor), limit, ok)
      ensures var picked := ShardKey(issuer, old(cursor) % SHARD_COUNT, hour);
              values - {picked} == old(values) - {picked}
    {
      var aggregate, readFailed := SumShards(issuer, hour, ok);
      if readFailed {
        return CounterResult(false, aggregate, limit, true);
      }
      if aggregate >= limit {
        return CounterResult(false, aggregate, limit, false);
      }
      var shard := NextBlindShard();
      var c := CheckKvCounter(ShardKey(issuer, shard, hour), U32_MAX, ok(8), ok(9));
      ghost var shards := ShardsOf(old(values), issuer, hour);
      ShardsAfterPut(old(values), issuer, hour, shard, c.count);
      assert shards[..SHARD_COUNT] == shards == shards[shard := shards[shard]];
      r := CounterResult(true, SatAdd32(aggregate, 1), limit, false);
    }
  }

  // ----- What the counts and answers mean -----

  /** What is stored under a key counts as n exactly when it spells n; anything else, or nothing, counts as 0. */
  lemma CountAtMeans(kv: map<string, string>, key: string)
    ensures key !in kv ==> CountAt(kv, key) == 0
    ensures key in kv && (forall n: u32 :: !Spells(kv[key], n)) ==> CountAt(kv, key) == 0
    ensures forall n: u32 :: key in kv && Spells(kv[key], n) ==> CountAt(kv, key) == n
  {
    if key in kv {
      forall n: u32
        ensures ParseUnsigned(kv[key], U32_MAX) == Some(n) <==> Spells(kv[key], n)
      {
        ParseIff(kv[key], U32_MAX, n);
      }
      if ParseUnsigned(kv[key], U32_MAX).Some? {
        ParseIff(kv[key], U32_MAX, ParseUnsigned(kv[key], U32_MAX).value);
      }
    }
  }

  /** Counters of different issuers, shards or hours never share a key. */
  lemma ShardKeyInjective(issuer: string, shard: nat, hour: nat, issuer': string, shard': nat, hour': nat)
    ensures ShardKey(issuer, shard, hour) == ShardKey(issuer', shard', hour') <==>
            issuer == issuer' && shard == shard' && hour == hour'
  {
    if ShardKey(issuer, shard, hour) == ShardKey(issuer', shard', hour') {
      var a, a' := "blind:" + issuer, "blind:" + issuer';
      assert ShardKey(issuer, shard, hour) == (a + [':'] + Print(shard)) + ['|'] + Print(hour);
      assert ShardKey(issuer', shard', hour') == (a' + [':'] + Print(shard')) + ['|'] + Print(hour');
      hide ShardKey, Print;
      SplitAtLast(a + [':'] + Print(shard), Print(hour), a' + [':'] + Print(shard'), Print(hour'), '|');
      SplitAtLast(a, Print(shard), a', Print(shard'), ':');
      assert a[|"blind:"|..] == issuer && a'[|"blind:"|..] == issuer';
      PrintInjective(shard, shard');
      PrintInjective(hour, hour');
    }
  }

  /** The sharded check admits exactly when all eight reads succeed and the true total is under the limit. */
  lemma ShardedAnswerMeans(shards: seq<u32>, cursor: u64, limit: u32, ok: nat -> bool)
    requires |shards| == SHARD_COUNT
    ensures var r := ShardedCheck(shards, cursor, limit, ok).0;
            && (r.readFailed <==> exists i | 0 <= i < 8 :: !ok(i))
            && (r.allowed <==> !r.readFailed && Sum(shards) < limit)
            && r.limit == limit
            && (!r.readFailed ==> r.count == Min(Sum(shards), U32_MAX) + if r.allowed then 1 else 0)
  {
    hide Sum;
    assert shards[..SHARD_COUNT] == shards;
    SatSumIsCappedSum(shards);
  }

  /**
   * Admitting adds one to one shard, if its re-read and write succeed, and moves
   * the cursor on; nothing else changes, and a denied request changes nothing.
   */
  lemma ShardedEffectMeans(shards: seq<u32>, cursor: u64, limit: u32, ok: nat -> bool)
    requires |shards| == SHARD_COUNT
    ensures var (r, shards', cursor') := ShardedCheck(shards, cursor, limit, ok);
            && |shards'| == SHARD_COUNT
            && Sum(shards') == Sum(shards) + (if r.allowed && ok(8) && ok(9) then 1 else 0)
            && (forall k | 0 <= k < 8 && !(r.allowed && k == cursor % 8) :: shards'[k] == shards[k])
            && cursor' == if r.allowed then (cursor + 1) % 0x1_0000_0000_0000_0000 else cursor
  {
    ShardedAnswerMeans(shards, cursor, limit, ok);
    var k := cursor % SHARD_COUNT;
    var plain: seq<nat> := shards;
    SumAtLeast(plain, k);
    SumUpdate(plain, k, plain[k] + 1);
    hide Sum;
    assert shards[k := shards[k]] == shards;
  }

  /** Nothing readable is stored for this issuer and hour. */
  ghost predicate FreshHour(kv: map<string, string>, issuer: string, hour: nat) {
    forall shard, n: u32 | 0 <= shard < SHARD_COUNT && ShardKey(issuer, shard, hour) in kv ::
      !Spells(kv[ShardKey(issuer, shard, hour)], n)
  }

  lemma FreshHourIsZero(kv: map<string, string>, issuer: string, hour: nat)
    requires FreshHour(kv, issuer, hour)
    ensures Sum(ShardsOf(kv, issuer, hour)) == 0
  {
    forall shard | 0 <= shard < SHARD_COUNT
      ensures CountAt(kv, ShardKey(issuer, shard, hour)) == 0
    {
      CountAtMeans(kv, ShardKey(issuer, shard, hour));
    }
    SumOfZeros(ShardsOf(kv, issuer, hour));
  }

  lemma {:induction false} OneKeyRunAt(count: u32, limits: seq<u32>, limit: u32, i: nat)
    requires i < |limits| && forall j | 0 <= j < |limits| :: limits[j] == limit
    ensures OneKeyRun(count, limits)[i] ==
            if count + i < limit then CounterResult(true, count + i + 1, limit, false)
            else CounterResult(false, Max(count, limit), limit, false)
    decreases |limits|
  {
    if i > 0 {
      OneKeyRunAt(OneKeyCheck(count, limits[0], true, true).1, limits[1..], limit, i - 1);
    }
  }

  /**
   * A fresh hour, with nothing or only unreadable text stored: of any number of
   * sequential calls the first `limit` are admitted, counted one by one, and the
   * rest denied, wherever the cursor stands.
   */
  lemma FreshHourAdmitsLimit(kv: map<string, string>, issuer: string, hour: nat, cursor: u64,
                             limits: seq<u32>, limit: u32, i: nat)
    requires FreshHour(kv, issuer, hour)
    requires i < |limits| && forall j | 0 <= j < |limits| :: limits[j] == limit
    ensures ShardedRun(ShardsOf(kv, issuer, hour), cursor, limits)[i] ==
            if i < limit then CounterResult(true, i + 1, limit, false) else CounterResult(false, limit, limit, false)
  {
    FreshHourIsZero(kv, issuer, hour);
    ShardedRefinesOneKey(ShardsOf(kv, issuer, hour), cursor, 0, limits);
    OneKeyRunAt(0, limits, limit, i);
  }

  // ----- The sharded counter refines the one-key counter -----

  /** Answers of the one-key counter to a request sequence, each request with its own limit. */
  function OneKeyRun(count: u32, limits: seq<u32>): (answers: seq<CounterResult>)
    ensures |answers| == |limits|
    decreases |limits|
  {
    if limits == [] then [] else
      var (r, count') := OneKeyCheck(count, limits[0], true, true);
      [r] + OneKeyRun(count', limits[1..])
  }

  function ShardedRun(shards: seq<u32>, cursor: u64, limits: seq<u32>): (answers: seq<CounterResult>)
    requires |shards| == SHARD_COUNT
    ensures |answers| == |limits|
    decreases |limits|
  {
    if limits == [] then [] else
      var (r, shards', cursor') := ShardedCheck(shards, cursor, limits[0], _ => true);
      [r] + ShardedRun(shards', cursor', limits[1..])
  }

  /**
   * With no failures and no overlap, the sharded counter answers every request
   * exactly as a one-key counter holding the shard total would, whatever the
   * cursor and however the total is spread.
   */
  lemma {:induction false} ShardedRefinesOneKey(shards: seq<u32>, cursor: u64, count: u32, limits: seq<u32>)
    requires |shards| == SHARD_COUNT && Sum(shards) == count
    ensures ShardedRun(shards, cursor, limits) == OneKeyRun(count, limits)
    decreases |limits|
  {
    if limits != [] {
      var k := cursor % SHARD_COUNT;
      var (r, shards', cursor') := ShardedCheck(shards, cursor, limits[0], _ => true);
      var (_, count') := OneKeyCheck(count, limits[0], true, true);
      assert shards[..SHARD_COUNT] == shards;
      SatSumIsCappedSum(shards);
      SumAtLeast(shards, k);
      if r.allowed {
        SumUpdate(shards, k, shards[k] + 1);
      }
      ShardedRefinesOneKey(shards', cursor', count', limits[1..]);
    }
  }

  // ----- Round-robin balance -----

  /** The next `n` picks from a cursor. */
  function Picks(cursor: u64, n: nat): (ks: seq<nat>)
    ensures |ks| == n
    decreases n
  {
    if n == 0 then [] else [cursor % SHARD_COUNT] + Picks((cursor + 1) % CURSOR_MODULUS, n - 1)
  }

  function Occurrences(ks: seq<nat>, k: nat): nat {
    if ks == [] then 0 else (if ks[0] == k then 1 else 0) + Occurrences(ks[1..], k)
  }

  lemma {:induction false} PickAt(cursor: u64, n: nat, i: nat)
    requires i < n
    ensures Picks(cursor, n)[i] == (cursor + i) % SHARD_COUNT
    decreases n
  {
    if i > 0 {
      PickAt((cursor + 1) % CURSOR_MODULUS, n - 1, i - 1);
      WrapKeepsResidue(cursor, i - 1);
    }
  }

  /** Eight divides the cursor modulus, so wrapping does not disturb the round robin. */
  lemma WrapKeepsResidue(cursor: u64, d: nat)
    ensures ((cursor + 1) % CURSOR_MODULUS + d) % SHARD_COUNT == (cursor + 1 + d) % SHARD_COUNT
  {
    if cursor == U64_MAX {
      assert (cursor + 1 + d) % SHARD_COUNT == d % SHARD_COUNT;
    }
  }

  /** Any eight consecutive picks hit eight different shards, also across the 64-bit wrap. */
  lemma EightPicksDiffer(cursor: u64, n: nat, i: nat, j: nat)
    requires i < j < n && j - i < SHARD_COUNT
    ensures Picks(cursor, n)[i] != Picks(cursor, n)[j]
  {
    PickAt(cursor, n, i);
    PickAt(cursor, n, j);
    ResiduesDiffer(cursor + i, j - i);
  }

  lemma ResiduesDiffer(a: nat, d: nat)
    requires 0 < d < SHARD_COUNT
    ensures a % SHARD_COUNT != (a + d) % SHARD_COUNT
  {
  }

  /** How many picks pass before the cursor next stands on shard `k`. */
  function Distance(cursor: nat, k: nat): (d: nat)
    requires k < SHARD_COUNT
    ensures d < SHARD_COUNT && (d == 0 <==> cursor % SHARD_COUNT == k)
  {
    (k + SHARD_COUNT - cursor % SHARD_COUNT) % SHARD_COUNT
  }

  lemma DistanceStep(cursor: u64, k: nat)
    requires k < SHARD_COUNT
    ensures Distance((cursor + 1) % CURSOR_MODULUS, k) ==
            if Distance(cursor, k) == 0 then SHARD_COUNT - 1 else Distance(cursor, k) - 1
  {
    var c := cursor % SHARD_COUNT;
    var next := (cursor + 1) % CURSOR_MODULUS;
    assert next % SHARD_COUNT == if c == SHARD_COUNT - 1 then 0 else c + 1 by {
      WrapKeepsResidue(cursor, 0);
    }
    assert Distance(next, k) == (k + SHARD_COUNT - next % SHARD_COUNT) % SHARD_COUNT;
  }

  /** After n picks each shard was picked n/8 times, rounded down or up. */
  lemma {:induction false} PicksBalanced(cursor: u64, n: nat, k: nat)
    requires k < SHARD_COUNT
    ensures Occurrences(Picks(cursor, n), k) == (n + 7 - Distance(cursor, k)) / SHARD_COUNT
    ensures n / SHARD_COUNT <= Occurrences(Picks(cursor, n), k) <= (n + 7) / SHARD_COUNT
    decreases n
  {
    if n > 0 {
      var next := (cursor + 1) % CURSOR_MODULUS;
      PicksBalanced(next, n - 1, k);
      DistanceStep(cursor, k);
      assert Picks(cursor, n)[1..] == Picks(next, n - 1);
    }
  }

  lemma PickCountsWithinOne(cursor: u64, n: nat, j: nat, k: nat)
    requires j < SHARD_COUNT && k < SHARD_COUNT
    ensures -1 <= Occurrences(Picks(cursor, n), j) - Occurrences(Picks(cursor, n), k) <= 1
  {
    PicksBalanced(cursor, n, j);
    PicksBalanced(cursor, n, k);
  }

  // ----- Bursts on the one-key counter -----

  /** Every request of the burst writes back one more than it read, if what it read was under the limit. */
  function WriteBack(value: u32, bases: seq<u32>, limit: u32): u32
    decreases |bases|
  {
    if bases == [] then value else WriteBack(OneKeyCheck(bases[0], limit, true, true).1, bases[1..], limit)
  }

  function AdmittedOf(bases: seq<u32>, limit: u32): nat {
    if bases == [] then 0
    else (if OneKeyCheck(bases[0], limit, true, true).0.allowed then 1 else 0) + AdmittedOf(bases[1..], limit)
  }

  /** Admissions per burst, when all requests of a burst read before any of them writes. */
  function BurstRun(value: u32, sizes: seq<nat>, limit: u32): (admitted: seq<nat>)
    ensures |admitted| == |sizes|
    decreases |sizes|
  {
    if sizes == [] then [] else
      var bases := seq(sizes[0], _ => value);
      [AdmittedOf(bases, limit)] + BurstRun(WriteBack(value, bases, limit), sizes[1..], limit)
  }

  lemma {:induction false} BurstEffect(value: u32, start: u32, bases: seq<u32>, limit: u32)
    requires forall i | 0 <= i < |bases| :: bases[i] == value
    ensures AdmittedOf(bases, limit) == if value < limit then |bases| else 0
    ensures WriteBack(start, bases, limit) ==
            if bases == [] then start else if value < limit then value + 1 else value
    decreases |bases|
  {
    if bases != [] {
      BurstEffect(value, OneKeyCheck(bases[0], limit, true, true).1, bases[1..], limit);
    }
  }

  /** The first `limit` bursts are admitted whole, all later ones denied whole. */
  lemma {:induction false} BurstsAllOrNothing(value: u32, sizes: seq<nat>, limit: u32, i: nat)
    requires forall j | 0 <= j < |sizes| :: sizes[j] >= 1
    requires i < |sizes|
    ensures BurstRun(value, sizes, limit)[i] == if value + i < limit then sizes[i] else 0
    decreases |sizes|
  {
    BurstEffect(value, value, seq(sizes[0], _ => value), limit);
    if i > 0 {
      BurstsAllOrNothing(WriteBack(value, seq(sizes[0], _ => value), limit), sizes[1..], limit, i - 1);
    }
  }

  lemma {:induction false} SumOfPrefixBursts(value: u32, m: nat, n: nat, limit: u32)
    requires n >= 1
    ensures Sum(BurstRun(value, seq(m, _ => 1) + [n], limit)) ==
            Min(m, Max(limit - value, 0)) + if value + m < limit then n else 0
  {
    var sizes := seq(m, _ => 1) + [n];
    var run := BurstRun(value, sizes, limit);
    forall i | 0 <= i < |run|
      ensures run[i] == if value + i < limit then sizes[i] else 0
    {
      BurstsAllOrNothing(value, sizes, limit, i);
    }
    SumOfOnes(run[..m], Min(m, Max(limit - value, 0)));
  }

  lemma {:induction false} SumOfOnes(s: seq<nat>, k: nat)
    requires k <= |s|
    requires forall i | 0 <= i < |s| :: s[i] == if i < k then 1 else 0
    ensures Sum(s) == k
  {
    if s != [] {
      SumOfOnes(s[..|s| - 1], if k == |s| then k - 1 else k);
    }
  }

  /** One burst of n requests after any sequential history overshoots the limit by at most n - 1. */
  lemma SequentialThenBurstBound(m: nat, n: nat, limit: u32)
    requires n >= 1
    ensures Sum(BurstRun(0, seq(m, _ => 1) + [n], limit)) <= limit + n - 1
  {
    SumOfPrefixBursts(0, m, n, limit);
  }
}
