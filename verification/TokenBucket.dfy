/** The in-process rate limiter: a token bucket refilled lazily, when it is asked
    (`apps/gateway/src/rate_limit.rs`). Instants are nanoseconds, tokens are millionths. */
module TokenBuckets {
  import opened MachineInts
  import opened Arithmetic

  const MICROTOKENS_PER_TOKEN: int := 1_000_000

  /** Instants close enough together for their distance in microseconds to fit a `u64`. */
  type Instant = t: int | 0 <= t < 1000 * TWO_64

  function SaturatingMul(x: u64, y: u64): u64 {
    if x * y < TWO_64 then ProductBound(x, y, TWO_64, TWO_64); x * y else TWO_64 - 1
  }

  function SaturatingAdd(x: u64, y: u64): u64 {
    if x + y < TWO_64 then x + y else TWO_64 - 1
  }

  datatype Bucket = Bucket(capacity: u64, rate: u64, tokens: u64, lastRefill: Instant)
  {
    predicate Valid() {
      && 1 <= rate && capacity == SaturatingMul(rate, MICROTOKENS_PER_TOKEN)
      && tokens <= capacity
    }

    /** The tokens that have dripped in since the last refill, up to the capacity. An instant that is
        not a whole number of microseconds later leaves its fraction to the next refill. */
    function Refilled(now: Instant): Bucket {
      var micros: u64 := if now < lastRefill then 0 else (now - lastRefill) / 1000;
      if micros == 0 then this
      else
        var filled := Min(SaturatingAdd(tokens, SaturatingMul(micros, rate)), capacity);
        this.(tokens := filled, lastRefill := if filled == capacity then now else lastRefill + 1000 * micros)
    }

    predicate CanTake() {
      tokens >= MICROTOKENS_PER_TOKEN
    }

    function Asked(now: Instant): Bucket {
      var b := Refilled(now);
      if b.CanTake() then b.(tokens := b.tokens - MICROTOKENS_PER_TOKEN) else b
    }

    predicate Grants(now: Instant) {
      Refilled(now).CanTake()
    }

    lemma RefilledValid(now: Instant)
      requires Valid() && lastRefill <= now
      ensures Refilled(now).Valid() && Asked(now).Valid()
      ensures now - 1000 < Refilled(now).lastRefill <= now
      ensures Refilled(now).rate == rate && Refilled(now).capacity == capacity
      ensures lastRefill <= Refilled(now).lastRefill
    {}
  }

  function NewBucket(requestsPerSec: u64, now: Instant): (b: Bucket)
    ensures b.Valid() && b.rate == Max(1, requestsPerSec) && b.lastRefill == now && b.tokens == b.capacity
    ensures b.capacity == Min(Max(1, requestsPerSec) * MICROTOKENS_PER_TOKEN, TWO_64 - 1)
  {
    var rate := if requestsPerSec < 1 then 1 else requestsPerSec;
    var capacity := SaturatingMul(rate, MICROTOKENS_PER_TOKEN);
    Bucket(capacity, rate, capacity, now)
  }

  class TokenBucket {
    const capacityMicrotokens: u64
    const refillPerSec: u64
    var tokens: u64
    var lastRefill: Instant

    function Contents(): Bucket
      reads this
    {
      Bucket(capacityMicrotokens, refillPerSec, tokens, lastRefill)
    }

    constructor (requestsPerSec: u64, now: Instant)
      ensures Contents() == NewBucket(requestsPerSec, now)
    {
      var rate := if requestsPerSec < 1 then 1 else requestsPerSec;
      refillPerSec := rate;
      capacityMicrotokens := SaturatingMul(rate, MICROTOKENS_PER_TOKEN);
      tokens := SaturatingMul(rate, MICROTOKENS_PER_TOKEN);
      lastRefill := now;
    }

    method TryAcquire(now: Instant) returns (granted: bool)
      modifies this
      ensures granted == old(Contents()).Grants(now)
      ensures Contents() == old(Contents()).Asked(now)
    {
      var elapsedMicros: u64 := if now < lastRefill then 0 else (now - lastRefill) / 1000;
      if elapsedMicros > 0 {
        var added := SaturatingMul(elapsedMicros, refillPerSec);
        tokens := Min(SaturatingAdd(tokens, added), capacityMicrotokens);
        if tokens == capacityMicrotokens {
          lastRefill := now;
        } else {
          lastRefill := lastRefill + 1000 * elapsedMicros;
        }
      }
      if tokens >= MICROTOKENS_PER_TOKEN {
        tokens := tokens - MICROTOKENS_PER_TOKEN;
        return true;
      }
      return false;
    }
  }

  // ---- Runs ----

  /** The calls come in time order, none before `from`. */
  ghost predicate Ordered(from: Instant, times: seq<Instant>) {
    && (forall i :: 0 <= i < |times| ==> from <= times[i])
    && (forall i, j :: 0 <= i < j < |times| ==> times[i] <= times[j])
  }

  function End(from: Instant, times: seq<Instant>): Instant {
    if times == [] then from else times[|times| - 1]
  }

  /** The bucket after a run of calls. */
  function After(b: Bucket, times: seq<Instant>): Bucket
    decreases |times|
  {
    if times == [] then b else After(b, times[..|times| - 1]).Asked(times[|times| - 1])
  }

  /** How many of the calls were granted. */
  function Granted(b: Bucket, times: seq<Instant>): nat
    decreases |times|
  {
    if times == [] then 0
    else
      var init := times[..|times| - 1];
      Granted(b, init) + if After(b, init).Grants(times[|times| - 1]) then 1 else 0
  }

  lemma {:induction false} AfterValid(b: Bucket, times: seq<Instant>)
    requires b.Valid() && Ordered(b.lastRefill, times)
    ensures After(b, times).Valid() && After(b, times).rate == b.rate && After(b, times).capacity == b.capacity
    ensures b.lastRefill <= After(b, times).lastRefill <= End(b.lastRefill, times) < After(b, times).lastRefill + 1000
    decreases |times|
  {
    if times != [] {
      AfterValid(b, times[..|times| - 1]);
      After(b, times[..|times| - 1]).RefilledValid(times[|times| - 1]);
    }
  }

  lemma DripPays(rate: int, micros: int, elapsed: int)
    requires 0 <= rate && 0 <= micros && 1000 * micros <= elapsed
    ensures 1000 * (micros * rate) <= rate * elapsed
  {
    MulMonotone(1000 * micros, elapsed, rate);
    assert (1000 * micros) * rate == 1000 * (micros * rate);
  }

  lemma SaturatingIsLess(x: u64, y: u64)
    ensures SaturatingMul(x, y) <= x * y
  {}

  /** What one call costs: a token taken, or time passed, pays for every token there is. */
  lemma AskedPays(b: Bucket, now: Instant)
    requires b.Valid() && b.lastRefill <= now
    ensures 1000 * b.Asked(now).tokens + (if b.Grants(now) then 1000 * MICROTOKENS_PER_TOKEN else 0)
         <= 1000 * b.tokens + b.rate * (b.Asked(now).lastRefill - b.lastRefill)
  {
    hide SaturatingMul;
    var micros := (now - b.lastRefill) / 1000;
    if micros > 0 {
      SaturatingIsLess(micros, b.rate);
      DripPays(b.rate, micros, b.Asked(now).lastRefill - b.lastRefill);
    }
  }

  lemma {:induction false} RunPays(b: Bucket, times: seq<Instant>)
    requires b.Valid() && Ordered(b.lastRefill, times)
    ensures 1000 * MICROTOKENS_PER_TOKEN * Granted(b, times) + 1000 * After(b, times).tokens
         <= 1000 * b.tokens + b.rate * (After(b, times).lastRefill - b.lastRefill)
    decreases |times|
  {
    hide Bucket.Asked, Bucket.Grants, Bucket.Valid;
    if times != [] {
      var init, now := times[..|times| - 1], times[|times| - 1];
      RunPays(b, init);
      AfterValid(b, init);
      AskedPays(After(b, init), now);
      RateTimes(b.rate, b.lastRefill, After(b, init).lastRefill, After(b, times).lastRefill);
    }
  }

  lemma RateTimes(rate: int, x: int, y: int, z: int)
    ensures rate * (z - x) == rate * (y - x) + rate * (z - y)
  {}

  lemma {:induction false} RefillFirst(b: Bucket, window: seq<Instant>)
    requires b.Valid() && window != [] && Ordered(b.lastRefill, window)
    ensures var full := b.Refilled(window[0]);
            After(full, window) == After(b, window) && Granted(full, window) == Granted(b, window)
    decreases |window|
  {
    var init := window[..|window| - 1];
    b.RefilledValid(window[0]);
    if init == [] {
      assert After(b, init) == b;
    } else {
      RefillFirst(b, init);
    }
  }

  lemma Spent(rate: int, granted: int, tokens: int, first: int, refilled: int, last: int)
    requires 0 <= rate && tokens <= rate * MICROTOKENS_PER_TOKEN && refilled <= last
    requires 1000 * MICROTOKENS_PER_TOKEN * granted <= 1000 * tokens + rate * (refilled - first)
    ensures 1000 * MICROTOKENS_PER_TOKEN * granted <= rate * (1000 * MICROTOKENS_PER_TOKEN + last - first)
  {
    MulMonotone(refilled - first, last - first, rate);
    RateTimes(rate, first, last, last + 1000 * MICROTOKENS_PER_TOKEN);
  }

  /** A stretch is paid for from the moment its first call refilled the bucket. */
  lemma StretchPays(b: Bucket, window: seq<Instant>)
    requires b.Valid() && window != [] && Ordered(b.lastRefill, window)
    ensures 1000 * MICROTOKENS_PER_TOKEN * Granted(b, window)
         <= b.rate * (1000 * MICROTOKENS_PER_TOKEN + window[|window| - 1] - b.Refilled(window[0]).lastRefill)
  {
    var full := b.Refilled(window[0]);
    RefillFirst(b, window);
    b.RefilledValid(window[0]);
    RunPays(full, window);
    AfterValid(full, window);
    SaturatingIsLess(full.rate, MICROTOKENS_PER_TOKEN);
    hide Bucket.Refilled, SaturatingMul;
    Spent(b.rate, Granted(b, window), full.tokens, full.lastRefill, After(full, window).lastRefill, window[|window| - 1]);
  }

  lemma AtMostLate(rate: int, granted: int, first: int, refilled: int, last: int)
    requires 0 <= rate && first - 1000 < refilled
    requires 1000 * MICROTOKENS_PER_TOKEN * granted <= rate * (1000 * MICROTOKENS_PER_TOKEN + last - refilled)
    ensures 1000 * MICROTOKENS_PER_TOKEN * granted <= rate * (1000 * MICROTOKENS_PER_TOKEN + 999 + (last - first))
  {
    MulMonotone(1000 * MICROTOKENS_PER_TOKEN + last - refilled, 1000 * MICROTOKENS_PER_TOKEN + 999 + (last - first), rate);
  }

  /** The length of a stretch of calls. */
  function Span(window: seq<Instant>): int
    requires window != []
  {
    window[|window| - 1] as int - window[0] as int
  }

  lemma StretchFollows(from: Instant, before: seq<Instant>, window: seq<Instant>)
    requires Ordered(from, before + window)
    ensures Ordered(from, before) && Ordered(End(from, before), window)
  {
    var all := before + window;
    assert before == all[..|before|] && window == all[|before|..];
  }

  /** The bound, for every clock: in any stretch of any run of calls the bucket grants no more than
      its capacity and what drips in over the stretch, counting at most one microsecond too many. */
  lemma GrantBound(requestsPerSec: u64, start: Instant, before: seq<Instant>, window: seq<Instant>)
    requires Ordered(start, before + window) && window != []
    ensures var b := NewBucket(requestsPerSec, start);
      1000 * MICROTOKENS_PER_TOKEN * Granted(After(b, before), window)
      <= Max(1, requestsPerSec) * (1000 * MICROTOKENS_PER_TOKEN + 999 + Span(window))
  {
    var b := NewBucket(requestsPerSec, start);
    StretchFollows(start, before, window);
    AfterValid(b, before);
    var mid := After(b, before);
    StretchPays(mid, window);
    mid.RefilledValid(window[0]);
    hide Bucket.Refilled, Bucket.Valid, NewBucket;
    AtMostLate(b.rate, Granted(mid, window), window[0], mid.Refilled(window[0]).lastRefill, window[|window| - 1]);
  }

  // ---- A microsecond clock ----

  predicate Aligned(t: int) {
    t % 1000 == 0
  }

  lemma {:induction false} AfterAligned(b: Bucket, times: seq<Instant>)
    requires Aligned(b.lastRefill) && forall i :: 0 <= i < |times| ==> Aligned(times[i])
    ensures Aligned(After(b, times).lastRefill)
    decreases |times|
  {
    if times != [] {
      AfterAligned(b, times[..|times| - 1]);
    }
  }

  lemma AlignedTokens(rate: nat, first: nat, last: nat, granted: nat)
    requires Aligned(first) && Aligned(last) && first <= last
    requires 1000 * MICROTOKENS_PER_TOKEN * granted <= rate * (1000 * MICROTOKENS_PER_TOKEN + last - first)
    ensures granted <= rate + rate * ((last - first) / 1000) / MICROTOKENS_PER_TOKEN
  {
    var micros := (last - first) / 1000;
    assert last - first == 1000 * micros;
    assert 1000 * MICROTOKENS_PER_TOKEN + last - first == 1000 * MICROTOKENS_PER_TOKEN + 1000 * micros;
    hide *;
    WholeTokens(rate, micros, granted);
  }

  /** The bound on a clock of whole microseconds: over `d` of them, the capacity and what drips in. */
  lemma GrantBoundMicroseconds(requestsPerSec: u64, start: Instant, before: seq<Instant>, window: seq<Instant>)
    requires Ordered(start, before + window) && window != []
    requires Aligned(start) && forall i :: 0 <= i < |before + window| ==> Aligned((before + window)[i])
    ensures var b := NewBucket(requestsPerSec, start);
            var d := Span(window) / 1000;
      Granted(After(b, before), window) <= Max(1, requestsPerSec) + Max(1, requestsPerSec) * d / MICROTOKENS_PER_TOKEN
  {
    var b := NewBucket(requestsPerSec, start);
    assert before == (before + window)[..|before|] && window == (before + window)[|before|..];
    StretchFollows(start, before, window);
    AfterValid(b, before);
    AfterAligned(b, before);
    var mid := After(b, before);
    RefilledAligned(mid, window[0]);
    StretchPays(mid, window);
    hide *;
    AlignedTokens(b.rate, window[0], window[|window| - 1], Granted(mid, window));
  }

  lemma RefilledAligned(b: Bucket, now: Instant)
    requires b.Valid() && b.lastRefill <= now && Aligned(b.lastRefill) && Aligned(now)
    ensures b.Refilled(now).lastRefill == now
  {}

  lemma WholeTokens(rate: int, micros: int, granted: int)
    requires 0 <= rate && 0 <= micros
    requires 1000 * MICROTOKENS_PER_TOKEN * granted <= rate * (1000 * MICROTOKENS_PER_TOKEN + 1000 * micros)
    ensures granted <= rate + rate * micros / MICROTOKENS_PER_TOKEN
  {
    assert rate * (1000 * MICROTOKENS_PER_TOKEN + 1000 * micros) == 1000 * MICROTOKENS_PER_TOKEN * rate + 1000 * (rate * micros);
  }

  // ---- The ideal bucket ----

  /** The bucket nobody could build: it drips `rate` millionths into itself every microsecond. */
  function Dripped(capacity: nat, rate: nat, level: nat, micros: nat): nat {
    if micros == 0 then level else Min(capacity, Dripped(capacity, rate, level, micros - 1) + rate)
  }

  /** The ideal bucket's level after the calls at `times`. */
  function IdealLevel(b: Bucket, times: seq<Instant>): nat
    requires Ordered(b.lastRefill, times)
    decreases |times|
  {
    if times == [] then b.tokens
    else
      var init, now := times[..|times| - 1], times[|times| - 1];
      var level := Dripped(b.capacity, b.rate, IdealLevel(b, init), (now - End(b.lastRefill, init)) / 1000);
      if level >= MICROTOKENS_PER_TOKEN then level - MICROTOKENS_PER_TOKEN else level
  }

  lemma {:induction false} DrippedAtOnce(capacity: nat, rate: nat, level: nat, micros: nat)
    requires level <= capacity
    ensures Dripped(capacity, rate, level, micros) == Min(capacity, level + micros * rate)
  {
    if micros > 0 {
      DrippedAtOnce(capacity, rate, level, micros - 1);
      assert micros * rate == (micros - 1) * rate + rate;
      MulMonotone(0, micros - 1, rate);
    }
  }

  lemma SaturationIsHarmless(tokens: u64, micros: u64, rate: u64, capacity: u64)
    ensures Min(SaturatingAdd(tokens, SaturatingMul(micros, rate)), capacity) == Min(capacity, tokens + micros * rate)
  {}

  lemma RefillIsDrip(b: Bucket, now: Instant)
    requires b.Valid() && b.lastRefill <= now && Aligned(b.lastRefill) && Aligned(now)
    ensures b.Refilled(now).tokens == Dripped(b.capacity, b.rate, b.tokens, (now - b.lastRefill) / 1000)
    ensures b.Refilled(now).lastRefill == now
  {
    RefilledAligned(b, now);
    hide Aligned;
    TokensDrip(b, now, (now - b.lastRefill) / 1000);
  }

  lemma TokensDrip(b: Bucket, now: Instant, micros: u64)
    requires b.Valid() && b.lastRefill <= now && micros == (now - b.lastRefill) / 1000
    ensures b.Refilled(now).tokens == Dripped(b.capacity, b.rate, b.tokens, micros)
  {
    DrippedAtOnce(b.capacity, b.rate, b.tokens, micros);
    SaturationIsHarmless(b.tokens, micros, b.rate, b.capacity);
    hide SaturatingMul, SaturatingAdd;
  }

  /** Lazy refilling with saturating arithmetic is exact: on a clock of whole microseconds the bucket
      holds, after any run of calls, what the ideal bucket holds, and so grants the same calls. */
  lemma {:induction false} LazyIsIdeal(b: Bucket, times: seq<Instant>)
    requires b.Valid() && Ordered(b.lastRefill, times)
    requires Aligned(b.lastRefill) && forall i :: 0 <= i < |times| ==> Aligned(times[i])
    ensures After(b, times).tokens == IdealLevel(b, times)
    ensures forall now: Instant :: Aligned(now) && End(b.lastRefill, times) <= now ==>
      (After(b, times).Grants(now) <==>
       Dripped(b.capacity, b.rate, IdealLevel(b, times), (now - End(b.lastRefill, times)) / 1000) >= MICROTOKENS_PER_TOKEN)
    decreases |times|
  {
    hide Bucket.Refilled, Bucket.Valid, Dripped, SaturatingMul, SaturatingAdd;
    AfterAligned(b, times);
    AfterValid(b, times);
    if times != [] {
      var init, now := times[..|times| - 1], times[|times| - 1];
      LazyIsIdeal(b, init);
      AfterAligned(b, init);
      AfterValid(b, init);
      assert After(b, init).lastRefill == End(b.lastRefill, init);
      RefillIsDrip(After(b, init), now);
    }
    assert After(b, times).lastRefill == End(b.lastRefill, times);
    forall now: Instant | Aligned(now) && End(b.lastRefill, times) <= now
      ensures After(b, times).Refilled(now).tokens
           == Dripped(b.capacity, b.rate, IdealLevel(b, times), (now - End(b.lastRefill, times)) / 1000)
    {
      RefillIsDrip(After(b, times), now);
    }
  }

  // ---- Any clock, exactly ----

  /** Since when the bucket has not been full, and how many tokens were taken since. */
  datatype Fill = Fill(fullAt: Instant, taken: nat)

  /** What a bucket holds at `now`: it was full at `fullAt`, the whole microseconds since have dripped in,
      and the taken tokens are gone. */
  function LevelAt(capacity: nat, rate: nat, f: Fill, now: Instant): int
    requires f.fullAt <= now
  {
    Min(capacity, capacity + rate * ((now - f.fullAt) / 1000) - MICROTOKENS_PER_TOKEN * f.taken)
  }

  /** The stretch the calls have led to: a call that finds the bucket full again, at least a microsecond
      later, starts a new one. */
  function FillAfter(capacity: nat, rate: nat, start: Instant, times: seq<Instant>): (f: Fill)
    requires Ordered(start, times)
    ensures start <= f.fullAt <= End(start, times)
    decreases |times|
  {
    if times == [] then Fill(start, 0)
    else
      var init, now := times[..|times| - 1], times[|times| - 1];
      var f := FillAfter(capacity, rate, start, init);
      var level := LevelAt(capacity, rate, f, now);
      var g := if level == capacity && (now - f.fullAt) / 1000 > 0 then Fill(now, 0) else f;
      if level >= MICROTOKENS_PER_TOKEN then g.(taken := g.taken + 1) else g
  }

  /** The bucket's tokens and refill instant are those of the stretch. */
  ghost predicate Holds(b: Bucket, f: Fill) {
    && f.fullAt <= b.lastRefill && (b.lastRefill - f.fullAt) % 1000 == 0
    && b.tokens == b.capacity + b.rate * ((b.lastRefill - f.fullAt) / 1000) - MICROTOKENS_PER_TOKEN * f.taken
    && (b.tokens == b.capacity ==> f.taken == 0 && b.lastRefill == f.fullAt)
  }

  /** Whole microseconds add up, if the earlier part is whole. */
  lemma MicrosAddUp(from: int, mid: int, now: int, rate: int)
    requires from <= mid <= now && (mid - from) % 1000 == 0
    ensures (now - from) / 1000 == (mid - from) / 1000 + (now - mid) / 1000
    ensures rate * ((now - from) / 1000) == rate * ((mid - from) / 1000) + rate * ((now - mid) / 1000)
  {}

  /** However the fraction of a microsecond falls, a refill brings the bucket to the level of its stretch. */
  lemma RefillHolds(b: Bucket, f: Fill, now: Instant)
    requires b.Valid() && Holds(b, f) && b.lastRefill <= now
    ensures b.Refilled(now).tokens == LevelAt(b.capacity, b.rate, f, now)
    ensures Holds(b.Refilled(now),
                  if LevelAt(b.capacity, b.rate, f, now) == b.capacity && (now - f.fullAt) / 1000 > 0 then Fill(now, 0) else f)
  {
    var micros: u64 := (now - b.lastRefill) / 1000;
    MicrosAddUp(f.fullAt, b.lastRefill, now, b.rate);
    SaturationIsHarmless(b.tokens, micros, b.rate, b.capacity);
    MulMonotone(0, micros, b.rate);
    MulMonotone(1, b.rate, micros);
    hide SaturatingMul, SaturatingAdd, Bucket.Valid;
    assert b.tokens + micros * b.rate == b.capacity + b.rate * ((now - f.fullAt) / 1000) - MICROTOKENS_PER_TOKEN * f.taken;
  }

  lemma AskedHolds(b: Bucket, f: Fill, now: Instant)
    requires b.Valid() && Holds(b, f) && b.lastRefill <= now
    ensures var level := LevelAt(b.capacity, b.rate, f, now);
      var g := if level == b.capacity && (now - f.fullAt) / 1000 > 0 then Fill(now, 0) else f;
      && (b.Grants(now) <==> level >= MICROTOKENS_PER_TOKEN)
      && Holds(b.Asked(now), if level >= MICROTOKENS_PER_TOKEN then g.(taken := g.taken + 1) else g)
  {
    RefillHolds(b, f, now);
    MulMonotone(1, b.rate, MICROTOKENS_PER_TOKEN);
    hide Bucket.Refilled, LevelAt;
  }

  lemma {:induction false} RunHolds(b: Bucket, times: seq<Instant>)
    requires b.Valid() && b.tokens == b.capacity && Ordered(b.lastRefill, times)
    ensures Holds(After(b, times), FillAfter(b.capacity, b.rate, b.lastRefill, times))
    decreases |times|
  {
    if times != [] {
      var init := times[..|times| - 1];
      RunHolds(b, init);
      AfterValid(b, init);
      hide Holds, Bucket.Valid, LevelAt, Bucket.Asked;
      AskedHolds(After(b, init), FillAfter(b.capacity, b.rate, b.lastRefill, init), times[|times| - 1]);
    }
  }

  /** Exactly what the bucket holds, on any clock: since it was last full every whole microsecond has
      dripped in, whatever calls fell in between and however their instants cut the microseconds; it
      grants a call if and only if that makes a token. */
  lemma HoldsExactly(requestsPerSec: u64, start: Instant, times: seq<Instant>, now: Instant)
    requires Ordered(start, times) && End(start, times) <= now
    ensures var b := NewBucket(requestsPerSec, start);
      var f := FillAfter(b.capacity, b.rate, start, times);
      && After(b, times).Refilled(now).tokens == LevelAt(b.capacity, b.rate, f, now)
      && (After(b, times).Grants(now) <==> LevelAt(b.capacity, b.rate, f, now) >= MICROTOKENS_PER_TOKEN)
  {
    var b := NewBucket(requestsPerSec, start);
    RunHolds(b, times);
    AfterValid(b, times);
    hide Bucket.Valid, LevelAt, Holds, NewBucket;
    RefillHolds(After(b, times), FillAfter(b.capacity, b.rate, start, times), now);
  }

  /** The stretch starts with the bucket full, at the start or at call `j`, and counts the grants since. */
  lemma {:induction false} StretchCounts(b: Bucket, times: seq<Instant>) returns (j: nat)
    requires b.Valid() && b.tokens == b.capacity && Ordered(b.lastRefill, times)
    ensures j <= |times|
    ensures var f := FillAfter(b.capacity, b.rate, b.lastRefill, times);
      && ((j == 0 && f.fullAt == b.lastRefill) || (j < |times| && f.fullAt == times[j]))
      && Granted(b, times) - Granted(b, times[..j]) == f.taken
    decreases |times|
  {
    if times == [] {
      return 0;
    }
    var last := |times| - 1;
    var init, now := times[..last], times[last];
    var f := FillAfter(b.capacity, b.rate, b.lastRefill, init);
    RunHolds(b, init);
    AfterValid(b, init);
    AskedHolds(After(b, init), f, now);
    hide LevelAt, Holds, Bucket.Valid, Bucket.Asked, Bucket.Refilled;
    if LevelAt(b.capacity, b.rate, f, now) == b.capacity && (now - f.fullAt) / 1000 > 0 {
      j := last;
    } else {
      j := StretchCounts(b, init);
      assert times[..j] == init[..j];
    }
  }

  /** The lower bound: when a call is refused, the bucket has, since an instant at which it was full, granted
      its capacity and all that has dripped in since, up to less than one token. */
  lemma RefusedHasGranted(requestsPerSec: u64, start: Instant, times: seq<Instant>, now: Instant)
    returns (j: nat, fullAt: Instant)
    requires Ordered(start, times) && End(start, times) <= now
    requires !After(NewBucket(requestsPerSec, start), times).Grants(now)
    ensures j <= |times| && ((j == 0 && fullAt == start) || (j < |times| && fullAt == times[j]))
    ensures var b := NewBucket(requestsPerSec, start);
      MICROTOKENS_PER_TOKEN * (Granted(b, times) - Granted(b, times[..j]) + 1)
      > b.capacity + Max(1, requestsPerSec) * ((now as int - fullAt) / 1000)
  {
    var b := NewBucket(requestsPerSec, start);
    HoldsExactly(requestsPerSec, start, times, now);
    j := StretchCounts(b, times);
    var f := FillAfter(b.capacity, b.rate, start, times);
    fullAt := f.fullAt;
    MulMonotone(1, b.rate, MICROTOKENS_PER_TOKEN);
    LessThanAToken(b.capacity, b.rate, f, now);
    hide *;
  }

  lemma LessThanAToken(capacity: nat, rate: nat, f: Fill, now: Instant)
    requires f.fullAt <= now && MICROTOKENS_PER_TOKEN <= capacity && LevelAt(capacity, rate, f, now) < MICROTOKENS_PER_TOKEN
    ensures MICROTOKENS_PER_TOKEN * (f.taken + 1) > capacity + rate * ((now as int - f.fullAt) / 1000)
  {}

  // ---- A new bucket ----

  function Repeated(now: Instant, n: nat): seq<Instant> {
    seq(n, _ => now)
  }

  /** A new bucket is full: of any number of calls at its first instant it grants as many as requests per
      second, or as its capacity holds. */
  lemma {:induction false} NewBucketGrants(requestsPerSec: u64, now: Instant, n: nat)
    ensures var whole := Min(Max(1, requestsPerSec), (TWO_64 - 1) / MICROTOKENS_PER_TOKEN);
      var b := NewBucket(requestsPerSec, now);
      && Granted(b, Repeated(now, n)) == Min(n, whole)
      && After(b, Repeated(now, n)) == b.(tokens := b.capacity - MICROTOKENS_PER_TOKEN * Min(n, whole))
  {
    if n > 0 {
      NewBucketGrants(requestsPerSec, now, n - 1);
      assert Repeated(now, n)[..n - 1] == Repeated(now, n - 1);
    }
  }

  // ---- Waiting ----

  /** The microseconds in which `missing` millionths drip in. */
  function Wait(missing: nat, rate: nat): nat
    requires rate != 0
  {
    (missing + rate - 1) / rate
  }

  lemma WaitIsEnough(missing: nat, rate: nat, micros: nat)
    requires rate != 0
    ensures micros * rate >= missing <==> micros >= Wait(missing, rate)
  {
    var x := missing + rate - 1;
    QuotientBounds(x, rate);
    assert (x / rate + 1) * rate == x / rate * rate + rate;
    if micros * rate >= missing {
      assert (micros + 1) * rate == micros * rate + rate;
      MulCancels(x / rate, micros + 1, rate);
    }
    if micros >= x / rate { MulMonotone(x / rate, micros, rate); }
  }

  /** A refused caller knows when to come back: if nobody else calls, the next call is granted exactly
      when the missing part of a token has had the time to drip in since the last refill. */
  lemma RefusedThenGranted(b: Bucket, now: Instant, later: Instant)
    requires b.Valid() && b.lastRefill <= now <= later && !b.Grants(now)
    ensures var refused := b.Asked(now);
      refused.tokens < MICROTOKENS_PER_TOKEN
      && (refused.Grants(later) <==>
          later - refused.lastRefill >= 1000 * Wait(MICROTOKENS_PER_TOKEN - refused.tokens, refused.rate))
  {
    b.RefilledValid(now);
    var refused := b.Asked(now);
    var micros := (later - refused.lastRefill) / 1000;
    WaitIsEnough(MICROTOKENS_PER_TOKEN - refused.tokens, refused.rate, micros);
    MulMonotone(1, refused.rate, MICROTOKENS_PER_TOKEN);
    MulMonotone(0, micros, refused.rate);
  }
}
