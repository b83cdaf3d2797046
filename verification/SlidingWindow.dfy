/** The distributed rate limiter: one counter per window in a shared cache, and an estimate that
    weighs the previous window by how much of it is still in view
    (`apps/gateway/src/rate_limit.rs`). */
module SlidingWindows {
  import opened MachineInts
  import opened Arithmetic

  datatype Config = Config(limit: i64, windowMs: i64)
  {
    predicate Valid() {
      0 < windowMs && limit < TWO_63 - 1
    }
  }

  function SaturatingAddI64(x: i64, y: i64): i64 {
    if x + y >= TWO_63 then TWO_63 - 1 else if x + y < -TWO_63 then -TWO_63 else x + y
  }

  type Counter = c: int | 0 <= c < TWO_63

  /** The part of the previous window's requests that still weighs on offset `dt` of this one. */
  function Weighted(prev: Counter, windowMs: i64, dt: nat): (w: i64)
    requires dt < windowMs
    ensures 0 <= w <= prev
  {
    ProductBound(prev, windowMs - dt, TWO_63, TWO_63);
    var product: i128 := prev * (windowMs - dt);
    MulMonotone(windowMs - dt, windowMs, prev);
    QuotientBounds(product, windowMs);
    MulCancels(product / windowMs, prev + 1, windowMs);
    product / windowMs
  }

  predicate Admits(c: Config, prev: Counter, current: Counter, dt: nat)
    requires c.Valid() && dt < c.windowMs
  {
    SaturatingAddI64(current, Weighted(prev, c.windowMs, dt)) <= c.limit
  }

  function Count(counters: map<nat, Counter>, bucket: nat): Counter {
    if bucket in counters then counters[bucket] else 0
  }

  function Previous(bucket: nat): nat {
    if bucket == 0 then 0 else bucket - 1
  }

  // ---- Runs ----

  datatype Call = Call(bucket: nat, offset: nat, admitted: bool)

  function Calls(run: seq<Call>, bucket: nat): nat {
    if run == [] then 0
    else Calls(run[..|run| - 1], bucket) + if run[|run| - 1].bucket == bucket then 1 else 0
  }

  /** Admitted in `bucket` at an offset of at most `dt`. */
  function Admitted(run: seq<Call>, bucket: nat, dt: nat): nat {
    if run == [] then 0
    else
      var last := run[|run| - 1];
      Admitted(run[..|run| - 1], bucket, dt) + if last.bucket == bucket && last.offset <= dt && last.admitted then 1 else 0
  }

  /** A run of calls by any number of replicas against one cache: the counter of each window has
      counted its calls so far, rejected ones included. */
  ghost predicate IsRun(c: Config, run: seq<Call>)
    requires c.Valid()
  {
    run == [] ||
    (var init, last := run[..|run| - 1], run[|run| - 1];
     && IsRun(c, init)
     && Calls(run, last.bucket) < TWO_63 && Calls(run, Previous(last.bucket)) < TWO_63
     && last.offset < c.windowMs
     && (last.admitted <==> Admits(c, Calls(run, Previous(last.bucket)), Calls(run, last.bucket), last.offset)))
  }

  /** The clock does not step back over a window's end. */
  ghost predicate Monotone(run: seq<Call>) {
    forall i, j :: 0 <= i < j < |run| ==> run[i].bucket <= run[j].bucket
  }

  lemma {:induction false} CallsAtMost(run: seq<Call>, bucket: nat)
    ensures Calls(run, bucket) <= |run|
  {
    if run != [] { CallsAtMost(run[..|run| - 1], bucket); }
  }

  // ---- The limiter ----

  /** A clock reading is a window and an offset into it. */
  function BucketOf(nowMs: u64, windowMs: i64): nat
    requires 0 < windowMs
  {
    Quotient(nowMs, windowMs)
  }

  function OffsetOf(nowMs: u64, windowMs: i64): (dt: nat)
    requires 0 < windowMs
    ensures dt < windowMs
  {
    Remainder(nowMs, windowMs)
  }

  lemma ClockMonotone(before: u64, after: u64, windowMs: i64)
    requires 0 < windowMs && before <= after
    ensures BucketOf(before, windowMs) <= BucketOf(after, windowMs)
  {
    QuotientBounds(before, windowMs);
    QuotientBounds(after, windowMs);
    MulCancels(before / windowMs, after / windowMs + 1, windowMs);
  }

  /** A call as the clock saw it. */
  datatype Reading = Reading(ms: u64, admitted: bool)

  /** The readings as windows and offsets. */
  function RunOf(readings: seq<Reading>, windowMs: i64): (run: seq<Call>)
    requires 0 < windowMs
    ensures |run| == |readings|
  {
    seq(|readings|, i requires 0 <= i < |readings| =>
      Call(BucketOf(readings[i].ms, windowMs), OffsetOf(readings[i].ms, windowMs), readings[i].admitted))
  }

  /** The clock does not step back. */
  ghost predicate InOrder(readings: seq<Reading>) {
    forall i, j :: 0 <= i < j < |readings| ==> readings[i].ms <= readings[j].ms
  }

  lemma InOrderIsMonotone(readings: seq<Reading>, windowMs: i64)
    requires 0 < windowMs && InOrder(readings)
    ensures Monotone(RunOf(readings, windowMs))
  {
    hide BucketOf, OffsetOf;
    forall i, j | 0 <= i < j < |readings| ensures RunOf(readings, windowMs)[i].bucket <= RunOf(readings, windowMs)[j].bucket {
      ClockMonotone(readings[i].ms, readings[j].ms, windowMs);
    }
  }

  /** The calls with a reading in `[from, to)`, admitted or not. */
  function CountIn(readings: seq<Reading>, from: int, to: int): nat {
    if readings == [] then 0
    else
      var last := readings[|readings| - 1];
      CountIn(readings[..|readings| - 1], from, to) + if from <= last.ms < to then 1 else 0
  }

  /** The admitted calls with a reading in `[from, to)`. */
  function AdmittedIn(readings: seq<Reading>, from: int, to: int): nat {
    if readings == [] then 0
    else
      var last := readings[|readings| - 1];
      AdmittedIn(readings[..|readings| - 1], from, to) + if from <= last.ms < to && last.admitted then 1 else 0
  }

  lemma SecondOf(ms: nat, k: nat, dt: nat)
    requires dt < 1000
    ensures ms / 1000 == k && ms % 1000 <= dt <==> 1000 * k <= ms < 1000 * k + dt + 1
  {}

  lemma {:induction false} CallsOnClock(readings: seq<Reading>, k: nat)
    ensures Calls(RunOf(readings, 1000), k) == CountIn(readings, 1000 * k, 1000 * k + 1000)
  {
    if readings != [] {
      var last := |readings| - 1;
      CallsOnClock(readings[..last], k);
      assert RunOf(readings, 1000)[..last] == RunOf(readings[..last], 1000);
      SecondOf(readings[last].ms, k, 999);
    }
  }

  lemma {:induction false} AdmittedOnClock(readings: seq<Reading>, k: nat, dt: nat)
    requires dt < 1000
    ensures Admitted(RunOf(readings, 1000), k, dt) == AdmittedIn(readings, 1000 * k, 1000 * k + dt + 1)
  {
    if readings != [] {
      var last := |readings| - 1;
      AdmittedOnClock(readings[..last], k, dt);
      assert RunOf(readings, 1000)[..last] == RunOf(readings[..last], 1000);
      SecondOf(readings[last].ms, k, dt);
    }
  }

  /** The limiters of every replica, sharing the counters in the cache. */
  class DistributedLimiter {
    const limit: i64
    const windowSecs: u64
    var counters: map<nat, Counter>
    /** The calls made so far, for specification only. */
    ghost var readings: seq<Reading>

    ghost predicate Valid()
      reads this
    {
      && 1 <= windowSecs < TWO_63 / 1000 && limit < TWO_63 - 1
      && IsRun(Settings(), RunOf(readings, Settings().windowMs))
      && forall bucket: nat :: Count(counters, bucket) == Calls(RunOf(readings, Settings().windowMs), bucket)
    }

    /** As built for a number of requests per second: that limit, at least 1, per window of a second. */
    ghost predicate BuiltFor(requestsPerSec: u64)
      reads this
    {
      Valid() && limit == Max(1, requestsPerSec) && windowSecs == 1
    }

    function Settings(): Config
      requires 1 <= windowSecs < TWO_63 / 1000
    {
      Config(limit, 1000 * windowSecs)
    }

    constructor (requestsPerSec: u64)
      requires requestsPerSec < TWO_63 - 1
      ensures BuiltFor(requestsPerSec) && readings == []
    {
      limit := if requestsPerSec < 1 then 1 else requestsPerSec;
      windowSecs := 1;
      counters := map[];
      readings := [];
    }

    /** One round trip: count the request, admitted or not, and read the previous window's count. */
    method TryAcquire(nowMs: u64) returns (admitted: bool)
      requires Valid() && |readings| + 1 < TWO_63
      modifies this
      ensures Valid() && readings == old(readings) + [Reading(nowMs, admitted)]
      ensures windowSecs == 1 ==> admitted == DecidedOnClock(readings, limit, nowMs)
    {
      hide BucketOf, OffsetOf, Weighted, Admits;
      var windowMs := Settings().windowMs;
      var bucket := BucketOf(nowMs, windowMs);
      var dt := OffsetOf(nowMs, windowMs);
      ghost var before := RunOf(readings, windowMs);
      CallsAtMost(before, bucket);
      CallsAtMost(before, Previous(bucket));
      counters := counters[bucket := Count(counters, bucket) + 1];
      var current := Count(counters, bucket);
      var prev := Count(counters, Previous(bucket));
      admitted := Admits(Settings(), prev, current, dt);
      readings := readings + [Reading(nowMs, admitted)];
      ghost var run := RunOf(readings, windowMs);
      assert run[..|run| - 1] == before && run[|run| - 1] == Call(bucket, dt, admitted);
      assert forall b: nat :: Calls(run, b) == Calls(before, b) + if b == bucket then 1 else 0;
      if windowSecs == 1 { DecisionOnClock(Settings(), readings, nowMs); }
    }
  }

  /** The decision on a window of a second, in terms of the clock alone: this second's calls so far, this one
      included, and the part of the previous second's calls that is still in view. */
  predicate DecidedOnClock(readings: seq<Reading>, limit: int, nowMs: u64) {
    var k, dt := nowMs / 1000, nowMs % 1000;
    var current := CountIn(readings, 1000 * k, 1000 * k + 1000);
    var previous := if k == 0 then current else CountIn(readings, 1000 * (k - 1), 1000 * k);
    current + previous * (1000 - dt) / 1000 <= limit
  }

  lemma DecisionOnClock(c: Config, readings: seq<Reading>, nowMs: u64)
    requires c.Valid() && c.windowMs == 1000
    requires var run, bucket := RunOf(readings, 1000), BucketOf(nowMs, 1000);
      Calls(run, bucket) < TWO_63 && Calls(run, Previous(bucket)) < TWO_63
    ensures var run, bucket := RunOf(readings, 1000), BucketOf(nowMs, 1000);
      Admits(c, Calls(run, Previous(bucket)), Calls(run, bucket), OffsetOf(nowMs, 1000)) <==> DecidedOnClock(readings, c.limit, nowMs)
  {
    var run, bucket := RunOf(readings, 1000), BucketOf(nowMs, 1000);
    AdmitsBelowLimit(c, Calls(run, Previous(bucket)), Calls(run, bucket), OffsetOf(nowMs, 1000));
    CallsOnClock(readings, bucket);
    CallsOnClock(readings, Previous(bucket));
  }

  // ---- The bounds ----

  function CeilDiv(x: int, d: int): int
    requires d != 0
  {
    (x + d - 1) / d
  }

  function Positive(x: int): nat {
    if x < 0 then 0 else x
  }

  lemma AdmitsBelowLimit(c: Config, prev: Counter, current: Counter, dt: nat)
    requires c.Valid() && dt < c.windowMs
    ensures Admits(c, prev, current, dt) <==> current + Weighted(prev, c.windowMs, dt) <= c.limit
  {}

  /** No window alone ever admits more than the limit, whatever the clock does. */
  lemma {:induction false} BucketBound(c: Config, run: seq<Call>, bucket: nat, dt: nat)
    requires c.Valid() && IsRun(c, run)
    ensures Admitted(run, bucket, dt) <= Calls(run, bucket)
    ensures Admitted(run, bucket, dt) <= Positive(c.limit)
  {
    if run != [] {
      var last := run[|run| - 1];
      BucketBound(c, run[..|run| - 1], bucket, dt);
      AdmitsBelowLimit(c, Calls(run, Previous(last.bucket)), Calls(run, last.bucket), last.offset);
    }
  }

  lemma {:induction false} NothingLater(run: seq<Call>, bucket: nat, dt: nat)
    requires forall i :: 0 <= i < |run| ==> run[i].bucket < bucket
    ensures Admitted(run, bucket, dt) == 0
  {
    if run != [] { NothingLater(run[..|run| - 1], bucket, dt); }
  }

  /** The arithmetic of the bound: what the previous window can have admitted beyond its weight. */
  lemma WeightMissed(limit: nat, prev: Counter, windowMs: i64, dt: nat, later: nat)
    requires dt <= later < windowMs
    ensures (if prev < limit then prev else limit) - Weighted(prev, windowMs, dt) <= CeilDiv(limit * later, windowMs)
  {
    var kept := if prev < limit then prev else limit;
    var w := Weighted(prev, windowMs, dt);
    var product := prev * (windowMs - dt);
    QuotientBounds(product, windowMs);
    // kept * windowMs - limit * later <= kept * (windowMs - dt) <= product < (w + 1) * windowMs
    MulMonotone(kept, prev, windowMs - dt);
    MulMonotone(dt, later, kept);
    MulMonotone(kept, limit, later);
    assert kept * (windowMs - dt) == kept * windowMs - kept * dt;
    CeilAtLeast(kept - w, limit * later, windowMs);
  }

  lemma CeilAtLeast(n: int, x: int, d: int)
    requires 0 < d && n * d < x + d
    ensures n <= CeilDiv(x, d)
  {
    QuotientBounds(x + d - 1, d);
    assert (CeilDiv(x, d) + 1) * d == CeilDiv(x, d) * d + d;
    MulCancels(n, CeilDiv(x, d) + 1, d);
  }

  /** The sliding-window bound: what the previous window admitted and what this one has admitted by
      offset `dt` never exceed the limit and its share of the `dt` milliseconds gone by. */
  lemma {:induction false} SlidingBound(c: Config, run: seq<Call>, bucket: nat, dt: nat)
    requires c.Valid() && IsRun(c, run) && Monotone(run) && 1 <= bucket && dt < c.windowMs
    ensures Admitted(run, bucket - 1, c.windowMs) + Admitted(run, bucket, dt)
         <= Positive(c.limit) + CeilDiv(Positive(c.limit) * dt, c.windowMs)
  {
    CeilAtLeast(0, Positive(c.limit) * dt, c.windowMs);
    if run != [] {
      var init, last := run[..|run| - 1], run[|run| - 1];
      SlidingBound(c, init, bucket, dt);
      if last.admitted && last.bucket == bucket && last.offset <= dt {
        BucketBound(c, run, bucket, dt);
        BucketBound(c, run, bucket - 1, c.windowMs);
        AdmitsBelowLimit(c, Calls(run, bucket - 1), Calls(run, bucket), last.offset);
        WeightMissed(Positive(c.limit), Calls(run, bucket - 1), c.windowMs, last.offset, dt);
      } else if last.bucket == bucket - 1 {
        NothingLater(run, bucket, dt);
        BucketBound(c, run, bucket - 1, c.windowMs);
      }
    }
  }

  // ---- The bound is exact ----

  function Repeated(call: Call, n: nat): seq<Call> {
    seq(n, _ => call)
  }

  /** The busiest run: all of `bucket - 1` in its last millisecond, then as much as possible at offset `dt`. */
  function Busiest(c: Config, bucket: nat, dt: nat, first: nat, second: nat): seq<Call>
    requires c.Valid() && 1 <= bucket
  {
    Repeated(Call(bucket - 1, c.windowMs - 1, true), first) + Repeated(Call(bucket, dt, true), second)
  }

  lemma WeightKept(limit: Counter, windowMs: i64, dt: nat)
    requires dt < windowMs
    ensures CeilDiv(limit * dt, windowMs) + Weighted(limit, windowMs, dt) == limit
  {
    var w, ceil := Weighted(limit, windowMs, dt), CeilDiv(limit * dt, windowMs);
    WeightMissed(limit, limit, windowMs, dt, dt);
    QuotientBounds(limit * (windowMs - dt), windowMs);
    QuotientBounds(limit * dt + windowMs - 1, windowMs);
    assert limit * (windowMs - dt) == limit * windowMs - limit * dt;
    assert (ceil + w) * windowMs == ceil * windowMs + w * windowMs;
    MulCancels(ceil + w, limit + 1, windowMs);
  }

  lemma {:induction false} BusiestIsRun(c: Config, bucket: nat, dt: nat, first: nat, second: nat)
    requires c.Valid() && 0 <= c.limit && 2 <= bucket && dt < c.windowMs
    requires first <= c.limit && second <= CeilDiv(c.limit * dt, c.windowMs)
    requires second > 0 ==> first == c.limit
    ensures var run := Busiest(c, bucket, dt, first, second);
      && IsRun(c, run)
      && Calls(run, bucket - 1) == first && Calls(run, bucket) == second && Calls(run, bucket - 2) == 0
      && Admitted(run, bucket - 1, c.windowMs) == first && Admitted(run, bucket, dt) == second
    decreases first + second
  {
    var run := Busiest(c, bucket, dt, first, second);
    WeightKept(c.limit, c.windowMs, dt);
    if second > 0 {
      BusiestIsRun(c, bucket, dt, first, second - 1);
      assert run[..|run| - 1] == Busiest(c, bucket, dt, first, second - 1);
      AdmitsBelowLimit(c, first, second, dt);
    } else if first > 0 {
      BusiestIsRun(c, bucket, dt, first - 1, 0);
      assert run[..|run| - 1] == Busiest(c, bucket, dt, first - 1, 0);
      AdmitsBelowLimit(c, 0, first, c.windowMs - 1);
    }
  }

  /** No smaller bound holds: for every limit and offset some run attains it. With `dt` close to
      the window's length, that is nearly twice the limit within little more than one window. */
  lemma BoundAttained(c: Config, bucket: nat, dt: nat) returns (run: seq<Call>)
    requires c.Valid() && 0 <= c.limit && 2 <= bucket && dt < c.windowMs
    ensures IsRun(c, run) && Monotone(run)
    ensures Admitted(run, bucket - 1, c.windowMs) + Admitted(run, bucket, dt) == c.limit + CeilDiv(c.limit * dt, c.windowMs)
  {
    CeilAtLeast(0, c.limit * dt, c.windowMs) by { MulMonotone(0, c.limit, dt); }
    run := Busiest(c, bucket, dt, c.limit, CeilDiv(c.limit * dt, c.windowMs));
    BusiestIsRun(c, bucket, dt, c.limit, CeilDiv(c.limit * dt, c.windowMs));
  }

  // ---- The bounds on the clock ----

  /** A limiter built for some requests per second admits no more in any second of the clock. */
  lemma SecondBound(limiter: DistributedLimiter, requestsPerSec: u64, k: nat)
    requires limiter.BuiltFor(requestsPerSec)
    ensures AdmittedIn(limiter.readings, 1000 * k, 1000 * k + 1000) <= Max(1, requestsPerSec)
  {
    BucketBound(limiter.Settings(), RunOf(limiter.readings, 1000), k, 999);
    AdmittedOnClock(limiter.readings, k, 999);
  }

  lemma {:induction false} AdmittedWithin(run: seq<Call>, windowMs: i64, bucket: nat)
    requires 0 < windowMs && forall i :: 0 <= i < |run| ==> run[i].offset < windowMs
    ensures Admitted(run, bucket, windowMs) == Admitted(run, bucket, windowMs - 1)
  {
    if run != [] { AdmittedWithin(run[..|run| - 1], windowMs, bucket); }
  }

  /** On a clock that does not step back, a second and the first `dt` milliseconds after it together admit no
      more than the limit and its share of those milliseconds. */
  lemma SlidingBoundOnClock(limiter: DistributedLimiter, requestsPerSec: u64, k: nat, dt: nat)
    requires limiter.BuiltFor(requestsPerSec) && InOrder(limiter.readings) && 1 <= k && dt < 1000
    ensures AdmittedIn(limiter.readings, 1000 * (k - 1), 1000 * k) + AdmittedIn(limiter.readings, 1000 * k, 1000 * k + dt + 1)
         <= Max(1, requestsPerSec) + CeilDiv(Max(1, requestsPerSec) * dt, 1000)
  {
    var run := RunOf(limiter.readings, 1000);
    InOrderIsMonotone(limiter.readings, 1000);
    SlidingBound(limiter.Settings(), run, k, dt);
    AdmittedWithin(run, 1000, k - 1);
    AdmittedOnClock(limiter.readings, k - 1, 999);
    AdmittedOnClock(limiter.readings, k, dt);
  }
}
