/** The retry engine: exponential backoff with full jitter (`crates/core/src/retry.rs`). */
module Retry {
  import opened Wrappers
  import opened MachineInts
  import opened Arithmetic
  import opened Sets
  import opened SplitMix

  // ---- How uniform the jitter is ----

  /** The numbers below `n` that leave remainder `d`. */
  ghost function Residues(n: nat, c: nat, d: nat): set<int>
    requires c != 0
  {
    set y | 0 <= y < n && y % c == d
  }

  lemma {:induction false} ResidueCount(n: nat, c: nat, d: nat)
    requires d < c
    ensures |Residues(n, c, d)| == n / c + if d < n % c then 1 else 0
  {
    if n > 0 {
      ResidueCount(n - 1, c, d);
      StepUp(n - 1, c);
      if (n - 1) % c == d {
        assert Residues(n, c, d) == Residues(n - 1, c, d) + {n - 1};
      } else {
        assert Residues(n, c, d) == Residues(n - 1, c, d);
      }
    }
  }

  lemma StepUp(n: nat, c: nat)
    requires 0 < c
    ensures if n % c == c - 1 then (n + 1) / c == n / c + 1 && (n + 1) % c == 0
            else (n + 1) / c == n / c && (n + 1) % c == n % c + 1
  {
    var q := n / c;
    assert (q + 1) * c == q * c + c;
    assert (q + 2) * c == q * c + 2 * c;
    if n % c == c - 1 { QuotientUnique(n + 1, c, q + 1); } else { QuotientUnique(n + 1, c, q); }
  }

  ghost function Image(s: set<int>, f: int -> int): set<int> {
    set x | x in s :: f(x)
  }

  ghost predicate Injective(s: set<int>, f: int -> int) {
    forall x, y :: x in s && y in s && f(x) == f(y) ==> x == y
  }

  lemma ImageAdds(s: set<int>, x: int, f: int -> int)
    requires x in s && Injective(s, f)
    ensures Image(s, f) == Image(s - {x}, f) + {f(x)} && f(x) !in Image(s - {x}, f)
  {
    forall y | y in Image(s, f) ensures y in Image(s - {x}, f) + {f(x)} {
      var z :| z in s && f(z) == y;
      assert z != x ==> z in s - {x};
    }
  }

  lemma {:induction false} ImageSize(s: set<int>, f: int -> int)
    requires Injective(s, f)
    ensures |Image(s, f)| == |s|
  {
    if s != {} {
      var x := Element(s);
      ImageAdds(s, x, f);
      ImageSize(s - {x}, f);
    } else {
      assert Image(s, f) == {};
    }
  }

  // ---- The delay ----

  /** Durations are in nanoseconds. */
  datatype RetryPolicy = RetryPolicy(maxRetries: u32, initialDelay: nat, maxDelay: nat)
  {
    /** `min(max_delay, initial_delay * 2^attempt)` in microseconds, saturating. */
    function Ceiling(attempt: u32): u64 {
      if initialDelay == 0 || maxDelay == 0 then 0
      else
        PowFits(if attempt < 30 then attempt else 30);
        var factor: u64 := Pow2(if attempt < 30 then attempt else 30);
        var product := Micros(initialDelay) * factor;
        var saturated := if 0 <= product < TWO_64 then product else TWO_64 - 1;
        if saturated < Micros(maxDelay) then saturated else Micros(maxDelay)
    }

    function Seed(attempt: u32, nanos: u64): u64 {
      WrappingAdd(nanos, WrappingMul(attempt, GAMMA))
    }

    /** The delay in microseconds, from the clock's nanoseconds. */
    function Delay(attempt: u32, nanos: u64): u64 {
      if Ceiling(attempt) == 0 then 0 else SplitMix64(Seed(attempt, nanos)) % Ceiling(attempt)
    }
  }

  function Micros(nanos: nat): u64 {
    if nanos / 1000 < TWO_64 then nanos / 1000 else TWO_64 - 1
  }

  lemma PowFits(k: nat)
    requires k <= 64
    ensures 0 < Pow2(k) && (k < 64 ==> Pow2(k) < TWO_64)
  {
    PowPositive(k);
    PowPositive(64 - k);
    PowSum(k, 64 - k);
    WordIsBelow(0);
    if k < 64 {
      PowPositive(64 - k - 1);
      assert Pow2(64 - k) == 2 * Pow2(64 - k - 1);
      MulMonotone(2, Pow2(64 - k), Pow2(k));
    }
  }

  lemma {:induction false} PowPositive(k: nat)
    ensures 0 < Pow2(k)
  {
    if k > 0 { PowPositive(k - 1); }
  }

  /** The ceiling in whole microseconds of the policy's nanoseconds, each cut to 64 bits; the saturation of
      their product never shows. */
  lemma CeilingIs(policy: RetryPolicy, attempt: u32)
    ensures policy.Ceiling(attempt)
         == Min(Min(policy.initialDelay / 1000, TWO_64 - 1) * Pow2(Min(attempt, 30)), Min(policy.maxDelay / 1000, TWO_64 - 1))
  {
    PowFits(Min(attempt, 30));
    MulMonotone(0, Micros(policy.initialDelay), Pow2(Min(attempt, 30)));
  }

  /** The documented ceiling, whose exponent grows without end, is the code's exactly when the
      exponent has not outgrown 30 before the maximum is reached. */
  lemma CeilingAsDocumented(policy: RetryPolicy, attempt: u32)
    ensures var initial, most := Min(policy.initialDelay / 1000, TWO_64 - 1), Min(policy.maxDelay / 1000, TWO_64 - 1);
      policy.Ceiling(attempt) == Min(initial * Pow2(attempt), most)
      <==> (attempt <= 30 || initial == 0 || most <= initial * Pow2(30))
  {
    hide RetryPolicy.Ceiling, Pow2;
    CeilingIs(policy, attempt);
    if attempt > 30 {
      PowDoubles(attempt);
      Outgrown(Min(policy.initialDelay / 1000, TWO_64 - 1), Min(policy.maxDelay / 1000, TWO_64 - 1), Pow2(30), Pow2(attempt));
    }
  }

  lemma {:induction false} PowDoubles(k: nat)
    requires 30 < k
    ensures 0 < Pow2(30) && 2 * Pow2(30) <= Pow2(k)
  {
    PowPositive(30);
    if k > 31 { PowDoubles(k - 1); }
  }

  lemma Outgrown(initial: nat, most: nat, small: nat, big: nat)
    requires 0 < small && 2 * small <= big
    ensures Min(initial * small, most) == Min(initial * big, most) <==> (initial == 0 || most <= initial * small)
  {
    MulMonotone(2 * small, big, initial);
    assert initial * big >= 2 * (initial * small);
    if initial > 0 { MulMonotone(1, initial, small); }
  }

  /** Every delay is below the ceiling, and none exceeds the policy's maximum. */
  lemma DelayBelowCeiling(policy: RetryPolicy, attempt: u32, nanos: u64)
    ensures policy.Delay(attempt, nanos) < policy.Ceiling(attempt) || policy.Delay(attempt, nanos) == policy.Ceiling(attempt) == 0
    ensures 1000 * policy.Delay(attempt, nanos) <= policy.maxDelay
  {
    hide SplitMix64;
  }

  /** The clock readings that lead to a given delay. */
  ghost function ReadingsFor(policy: RetryPolicy, attempt: u32, delay: nat): set<int> {
    set nanos: u64 | 0 <= nanos < TWO_64 && policy.Delay(attempt, nanos) == delay
  }

  lemma SeedUndone(policy: RetryPolicy, attempt: u32, nanos: u64)
    ensures var back := (TWO_64 - WrappingMul(attempt, GAMMA)) % TWO_64;
      WrappingAdd(policy.Seed(attempt, nanos), back) == nanos && policy.Seed(attempt, WrappingAdd(nanos, back)) == nanos
  {
    AddUndone(nanos, WrappingMul(attempt, GAMMA));
  }

  lemma AddUndone(x: u64, shift: u64)
    ensures var back := (TWO_64 - shift) % TWO_64;
      WrappingAdd(WrappingAdd(x, shift), back) == x && WrappingAdd(WrappingAdd(x, back), shift) == x
  {
    AddWraps(x, shift);
    if shift > 0 {
      AddWraps(x, TWO_64 - shift);
      AddWraps(WrappingAdd(x, shift), TWO_64 - shift);
      AddWraps(WrappingAdd(x, TWO_64 - shift), shift);
    }
  }

  lemma AddWraps(x: u64, y: u64)
    ensures WrappingAdd(x, y) == if x + y < TWO_64 then x + y else x + y - TWO_64
  {}

  /** How far from uniform the jitter is: over all readings of the clock, each delay below the ceiling
      `c` comes up `2^64 / c` times, rounded down or up, the smaller delays rounded up. */
  lemma JitterBias(policy: RetryPolicy, attempt: u32, delay: nat)
    requires delay < policy.Ceiling(attempt)
    ensures var c := policy.Ceiling(attempt);
      |ReadingsFor(policy, attempt, delay)| == TWO_64 / c + if delay < TWO_64 % c then 1 else 0
  {
    hide SplitMix64, Unmixed, RetryPolicy.Seed, RetryPolicy.Ceiling, WrappingAdd, WrappingMul;
    var c, shift := policy.Ceiling(attempt), WrappingMul(attempt, GAMMA);
    var mix := (n: int) => if 0 <= n < TWO_64 then SplitMix64(policy.Seed(attempt, n)) else n;
    var unmix := (w: int) => if 0 <= w < TWO_64 then WrappingAdd(Unmixed(w), (TWO_64 - shift) % TWO_64) else w;
    var readings := ReadingsFor(policy, attempt, delay);
    forall n: u64 ensures unmix(mix(n)) == n && mix(unmix(n)) == n {
      SplitMixIsBijective(policy.Seed(attempt, n));
      SeedUndone(policy, attempt, n);
      SplitMixIsBijective(n);
      SeedUndone(policy, attempt, Unmixed(n));
    }
    forall x, y | x in readings && y in readings && mix(x) == mix(y) ensures x == y {
      assert unmix(mix(x)) == x && unmix(mix(y)) == y;
    }
    ImageSize(readings, mix);
    forall y | y in Residues(TWO_64, c, delay) ensures y in Image(readings, mix) {
      assert unmix(y) in readings && mix(unmix(y)) == y;
    }
    assert Image(readings, mix) == Residues(TWO_64, c, delay);
    ResidueCount(TWO_64, c, delay);
  }

  /** The jitter is exactly uniform if and only if the ceiling divides 2^64. */
  lemma UniformIffDivides(policy: RetryPolicy, attempt: u32)
    requires policy.Ceiling(attempt) > 0
    ensures (forall d, e :: 0 <= d < policy.Ceiling(attempt) && 0 <= e < policy.Ceiling(attempt) ==>
              |ReadingsFor(policy, attempt, d)| == |ReadingsFor(policy, attempt, e)|)
        <==> TWO_64 % policy.Ceiling(attempt) == 0
  {
    hide RetryPolicy.Ceiling;
    forall d | 0 <= d < policy.Ceiling(attempt)
      ensures |ReadingsFor(policy, attempt, d)|
           == TWO_64 / policy.Ceiling(attempt) + if d < TWO_64 % policy.Ceiling(attempt) then 1 else 0
    {
      JitterBias(policy, attempt, d);
    }
    var last := policy.Ceiling(attempt) - 1;
    assert |ReadingsFor(policy, attempt, 0)| >= |ReadingsFor(policy, attempt, last)|;
  }

  /** A microsecond is a thousand nanoseconds, so within 64 bits of microseconds the ceiling is at most the
      initial delay doubled `attempt` times and at most the maximum, and it is one of the two, rounded down. */
  lemma CeilingInNanoseconds(policy: RetryPolicy, attempt: u32)
    requires policy.initialDelay < 1000 * TWO_64 && policy.maxDelay < 1000 * TWO_64 && attempt <= 30
    ensures var c: nat := policy.Ceiling(attempt);
      && 1000 * c <= policy.initialDelay * Pow2(attempt) && 1000 * c <= policy.maxDelay
      && (policy.initialDelay * Pow2(attempt) < 1000 * (c + Pow2(attempt)) || policy.maxDelay < 1000 * c + 1000)
  {
    CeilingIs(policy, attempt);
    PowPositive(attempt);
    hide RetryPolicy.Ceiling, Pow2;
    ProductInNanos(policy.initialDelay, policy.initialDelay / 1000, Pow2(attempt));
  }

  lemma ProductInNanos(nanos: nat, micros: nat, p: nat)
    requires 1000 * micros <= nanos < 1000 * micros + 1000
    ensures 1000 * (micros * p) <= nanos * p && (p > 0 ==> nanos * p < 1000 * (micros * p + p))
  {
    var rest := nanos - 1000 * micros;
    assert nanos * p == 1000 * (micros * p) + rest * p;
    MulMonotone(0, rest, p);
    MulMonotone(rest, 999, p);
  }

  /** Different attempts mix different seeds out of the same reading of the clock. */
  lemma AttemptsDiffer(policy: RetryPolicy, a: u32, b: u32, nanos: u64)
    requires a != b
    ensures policy.Seed(a, nanos) != policy.Seed(b, nanos)
    ensures SplitMix64(policy.Seed(a, nanos)) != SplitMix64(policy.Seed(b, nanos))
  {
    hide SplitMix64, Unmixed;
    assert GAMMA * 0xf1de_83e1_9937_733d % TWO_64 == 1;
    WrappingMulUndone(a, GAMMA, 0xf1de_83e1_9937_733d);
    WrappingMulUndone(b, GAMMA, 0xf1de_83e1_9937_733d);
    hide WrappingMul;
    AddWraps(nanos, WrappingMul(a, GAMMA));
    AddWraps(nanos, WrappingMul(b, GAMMA));
    SplitMixIsBijective(policy.Seed(a, nanos));
    SplitMixIsBijective(policy.Seed(b, nanos));
  }

  // ---- The loop ----

  /** `outcomes(n)` is what the n-th call of the operation returns, counting from 0, `clock(n)` the reading
      after it. */
  method RetryAsync<T, E>(policy: RetryPolicy, retryable: E -> bool, outcomes: nat -> Result<T, E>, clock: nat -> u64)
    returns (result: Result<T, E>, calls: nat, sleeps: seq<u64>)
    ensures 1 <= calls <= policy.maxRetries + 1
    ensures result == outcomes(calls - 1)
    ensures result.Ok? || !retryable(result.error) || calls == policy.maxRetries + 1
    ensures forall n :: 0 <= n < calls - 1 ==> outcomes(n).Err? && retryable(outcomes(n).error)
    ensures |sleeps| == calls - 1 && forall n :: 0 <= n < |sleeps| ==> sleeps[n] == policy.Delay(n, clock(n))
  {
    var attempt: u32 := 0;
    sleeps := [];
    while true
      invariant attempt <= policy.maxRetries
      invariant forall n :: 0 <= n < attempt ==> outcomes(n).Err? && retryable(outcomes(n).error)
      invariant |sleeps| == attempt && forall n :: 0 <= n < |sleeps| ==> sleeps[n] == policy.Delay(n, clock(n))
      decreases policy.maxRetries - attempt
    {
      var outcome := outcomes(attempt);
      match outcome
      case Ok(_) =>
        return outcome, attempt + 1, sleeps;
      case Err(error) =>
        if attempt >= policy.maxRetries || !retryable(error) {
          return outcome, attempt + 1, sleeps;
        }
      sleeps := sleeps + [policy.Delay(attempt, clock(attempt))];
      attempt := attempt + 1;
    }
  }

  function Total(sleeps: seq<u64>): nat {
    if sleeps == [] then 0 else Total(sleeps[..|sleeps| - 1]) + sleeps[|sleeps| - 1]
  }

  lemma OneMore(n: nat, d: nat)
    ensures (n + 1) * d == n * d + d
  {}

  /** However the calls go, a retried operation sleeps at most `max_retries` times the maximum delay. */
  lemma {:induction false} SleepBound(policy: RetryPolicy, sleeps: seq<u64>, clock: nat -> u64)
    requires |sleeps| <= policy.maxRetries
    requires forall n :: 0 <= n < |sleeps| ==> sleeps[n] == policy.Delay(n, clock(n))
    ensures 1000 * Total(sleeps) <= |sleeps| * policy.maxDelay
  {
    if sleeps != [] {
      var last := |sleeps| - 1;
      SleepBound(policy, sleeps[..last], clock);
      DelayBelowCeiling(policy, last, clock(last));
      hide RetryPolicy.Delay;
      OneMore(last, policy.maxDelay);
    }
  }
}
