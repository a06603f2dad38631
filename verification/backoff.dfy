/** Exponential backoff over the reals and the retry loop built on it (backoff/backoff.go,
    backoff/retry.go). Durations are whole nanoseconds. */
module Backoffs {

  const MILLISECOND := 1_000_000
  const SECOND := 1_000_000_000

  /** float64(math.MaxInt64 - 512), which is 2^63 - 1024 */
  const MAX_INT64 := 9223372036854774784

  const MAX_DURATION := 0x7FFF_FFFF_FFFF_FFFF

  /** time.Duration is a 64-bit integer. */
  type Duration = d: int | -MAX_DURATION - 1 <= d <= MAX_DURATION

  function Pow(factor: real, n: nat): real {
    if n == 0 then 1.0 else factor * Pow(factor, n - 1)
  }

  function Min(a: int, b: int): int {
    if a <= b then a else b
  }

  function Jittered(minf: real, curve: real, random: real): real {
    random * (curve - minf) + minf
  }

  /** A conversion to an integer type truncates toward zero. */
  function Truncated(x: real): int {
    if x >= 0.0 then x.Floor else -((-x).Floor)
  }

  function Clamped(lo: Duration, hi: Duration, durf: real): (d: Duration)
    requires lo <= hi
    ensures lo <= d <= hi
  {
    if durf > MAX_INT64 as real then hi
    else
      var dur := Truncated(durf);
      if dur < lo then lo else if dur > hi then hi else dur
  }

  datatype Settings = Settings(factor: real, jitter: bool, min: Duration, max: Duration) {
    /** Zero and negative values stand for the defaults. */
    function EffectiveMin(): Duration {
      if min <= 0 then 100 * MILLISECOND else min
    }

    function EffectiveMax(): Duration {
      if max <= 0 then 10 * SECOND else max
    }

    function EffectiveFactor(): real {
      if factor <= 0.0 then 2.0 else factor
    }

    /** The exponential curve before clamping. */
    function Curve(attempt: nat): real {
      EffectiveMin() as real * Pow(EffectiveFactor(), attempt)
    }

    /** `random` is what rand.Float64 draws. */
    function ForAttempt(attempt: nat, random: real): (d: Duration)
      requires 0.0 <= random < 1.0
      ensures EffectiveMin() >= EffectiveMax() ==> d == EffectiveMax()
      ensures EffectiveMin() <= EffectiveMax() ==> EffectiveMin() <= d <= EffectiveMax()
    {
      var lo, hi := EffectiveMin(), EffectiveMax();
      if lo >= hi then hi
      else
        Clamped(lo, hi, if jitter then Jittered(lo as real, Curve(attempt), random) else Curve(attempt))
    }
  }

  lemma Product(a: real, b: real, c: real, d: real)
    requires a >= c >= 0.0 && b >= d >= 0.0
    ensures a * b >= c * d
  {
    assert a * b - c * d == a * (b - d) + (a - c) * d;
  }

  lemma JitteredBelow(minf: real, curve: real, random: real)
    requires 0.0 <= random < 1.0 && minf <= curve
    ensures minf <= Jittered(minf, curve, random) <= curve
  {
    Product(1.0, curve - minf, random, curve - minf);
    Product(random, curve - minf, 0.0, 0.0);
  }

  lemma ClampedMonotone(lo: Duration, hi: Duration, a: real, b: real)
    requires lo <= hi && a <= b
    ensures Clamped(lo, hi, a) <= Clamped(lo, hi, b)
  {
  }

  lemma {:induction false} PowAtLeastOne(factor: real, n: nat)
    requires factor >= 1.0
    ensures Pow(factor, n) >= 1.0
  {
    if n > 0 {
      PowAtLeastOne(factor, n - 1);
      Product(factor, Pow(factor, n - 1), 1.0, 1.0);
    }
  }

  lemma PowGrows(factor: real, n: nat)
    requires factor >= 1.0
    ensures Pow(factor, n) <= Pow(factor, n + 1)
  {
    PowAtLeastOne(factor, n);
    Product(factor, Pow(factor, n), 1.0, Pow(factor, n));
  }

  lemma CurveAboveMin(s: Settings, n: nat)
    requires s.EffectiveFactor() >= 1.0
    ensures s.Curve(n) >= s.EffectiveMin() as real
    ensures s.Curve(n) <= s.Curve(n + 1)
  {
    PowAtLeastOne(s.EffectiveFactor(), n);
    PowGrows(s.EffectiveFactor(), n);
    Product(s.EffectiveMin() as real, Pow(s.EffectiveFactor(), n), s.EffectiveMin() as real, 1.0);
    Product(s.EffectiveMin() as real, Pow(s.EffectiveFactor(), n + 1), s.EffectiveMin() as real,
            Pow(s.EffectiveFactor(), n));
  }

  lemma Swapped(a: real, b: real, c: real)
    ensures a * (b * c) == b * (a * c)
  {
  }

  lemma CurveGrowsByFactor(s: Settings, n: nat)
    ensures s.Curve(n + 1) == s.EffectiveFactor() * s.Curve(n)
  {
    var lo, factor, power := s.EffectiveMin() as real, s.EffectiveFactor(), Pow(s.EffectiveFactor(), n);
    assert Pow(factor, n + 1) == factor * power;
    Swapped(lo, factor, power);
  }

  /** The documented defaults, and the curve they make: zero or negative settings stand for 100 milliseconds,
      10 seconds and doubling. */
  lemma DefaultsSpelledOut(s: Settings, n: nat, random: real)
    requires 0.0 <= random < 1.0
    ensures var lo, hi := if s.min <= 0 then 100_000_000 else s.min, if s.max <= 0 then 10_000_000_000 else s.max;
            && (lo >= hi ==> s.ForAttempt(n, random) == hi)
            && (lo <= hi ==> lo <= s.ForAttempt(n, random) <= hi)
            && s.Curve(0) == lo as real
    ensures s.Curve(n + 1) == (if s.factor <= 0.0 then 2.0 else s.factor) * s.Curve(n)
  {
    CurveGrowsByFactor(s, n);
  }

  // --- What the draw does ------------------------------------------------------------------------------

  /** With jitter, a draw of zero gives the minimum, and larger draws never give shorter durations. */
  lemma JitterGrowsWithDraw(s: Settings, n: nat, r1: real, r2: real)
    requires 0.0 <= r1 <= r2 < 1.0 && s.jitter && s.EffectiveFactor() >= 1.0
    ensures s.ForAttempt(n, r1) <= s.ForAttempt(n, r2)
    ensures s.EffectiveMin() <= Min(s.EffectiveMax(), MAX_INT64) ==> s.ForAttempt(n, 0.0) == s.EffectiveMin()
  {
    var lo, hi, curve := s.EffectiveMin(), s.EffectiveMax(), s.Curve(n);
    CurveAboveMin(s, n);
    Product(r2, curve - lo as real, r1, curve - lo as real);
    if lo < hi {
      ClampedMonotone(lo, hi, Jittered(lo as real, curve, r1), Jittered(lo as real, curve, r2));
      assert Jittered(lo as real, curve, 0.0) == lo as real;
    }
  }

  lemma Divided(a: real, b: real)
    requires 0.0 <= a < b
    ensures 0.0 <= a / b < 1.0 && a / b * b == a
  {
  }

  /** Every duration between the bounds and below the curve comes up for some draw. */
  lemma JitterReaches(s: Settings, n: nat, target: Duration) returns (random: real)
    requires s.jitter && s.EffectiveMin() <= target <= Min(s.EffectiveMax(), MAX_INT64) && target as real < s.Curve(n)
    ensures 0.0 <= random < 1.0 && s.ForAttempt(n, random) == target
  {
    var lo, curve := s.EffectiveMin() as real, s.Curve(n);
    Divided(target as real - lo, curve - lo);
    random := (target as real - lo) / (curve - lo);
    assert Jittered(lo, curve, random) == target as real;
  }

  // --- What a float64 can hold at the guard ---------------------------------------------------------

  const SIGNIFICANDS := 0x20_0000_0000_0000

  /** x is a significand of 53 bits times a power of two. */
  predicate IsScaled(x: real, significand: int, exponent: int) {
    && -SIGNIFICANDS < significand < SIGNIFICANDS
    && if exponent >= 0 then x == significand as real * Pow(2.0, exponent)
        else x * Pow(2.0, -exponent) == significand as real
  }

  /** The finite values of section 3.3 of IEEE 754, without the lower bound on the exponent. */
  ghost predicate IsFloat64(x: real) {
    exists significand, exponent :: IsScaled(x, significand, exponent)
  }

  lemma {:induction false} TwoPowers(a: nat, b: nat)
    requires a <= b
    ensures Pow(2.0, a) <= Pow(2.0, b) && Pow(2.0, 10) == 1024.0 && Pow(2.0, 11) == 2048.0
    decreases b - a
  {
    if a < b {
      TwoPowers(a, b - 1);
      PowGrows(2.0, b - 1);
    }
    assert Pow(2.0, 5) == 32.0;
    assert Pow(2.0, 10) == 32.0 * Pow(2.0, 5);
  }

  /** With the exponents up to ten a float64 gets as far as the guard. */
  lemma GuardIsReached(x: real, m: int, e: int)
    requires IsScaled(x, m, e) && e <= 10
    ensures x <= MAX_INT64 as real
  {
    if e >= 0 {
      TwoPowers(e, 10);
      Product(Pow(2.0, 10), (SIGNIFICANDS - 1) as real, Pow(2.0, e), if m >= 0 then m as real else 0.0);
    } else if x >= 0.0 {
      PowAtLeastOne(2.0, -e);
      Product(x, Pow(2.0, -e), x, 1.0);
      assert x <= m as real;
    }
  }

  lemma Regrouped(m: int, k: int)
    ensures m as real * (k as real * 2048.0) == (m * k * 2048) as real
  {
  }

  lemma IntegerPower(n: nat) returns (k: int)
    ensures Pow(2.0, n) == k as real
  {
    k := 1;
    if n > 0 {
      var half := IntegerPower(n - 1);
      k := 2 * half;
    }
  }

  lemma {:induction false} PowSplits(a: nat, b: nat)
    ensures Pow(2.0, a + b) == Pow(2.0, a) * Pow(2.0, b)
  {
    if b > 0 {
      PowSplits(a, b - 1);
    }
  }

  /** A multiple of 2048 that is past the guard reaches 2^63. */
  lemma EvenMultiple(m: int, e: nat)
    requires e >= 11 && m as real * Pow(2.0, e) > MAX_INT64 as real
    ensures m as real * Pow(2.0, e) > MAX_DURATION as real
  {
    var k := IntegerPower(e - 11);
    PowSplits(e - 11, 11);
    TwoPowers(11, e);
    assert Pow(2.0, e) == k as real * 2048.0;
    Regrouped(m, k);
    var q := m * k;
    assert m as real * Pow(2.0, e) == (q * 2048) as real;
    assert q * 2048 > MAX_INT64 ==> q * 2048 > MAX_DURATION;
  }

  /** The guard is the last float64 below 2^63: past it, every one is past every duration. */
  lemma GuardIsTight(x: real)
    requires IsFloat64(x) && x > MAX_INT64 as real
    ensures x > MAX_DURATION as real
  {
    var m, e :| IsScaled(x, m, e);
    if e <= 10 {
      GuardIsReached(x, m, e);
    } else {
      TwoPowers(11, e);
      EvenMultiple(m, e);
    }
  }

  /** Without jitter the result is the whole part of the curve capped at the maximum, for every maximum,
      whenever the curve is a value that a float64 can hold. */
  lemma FloatShape(s: Settings, n: nat, random: real)
    requires 0.0 <= random < 1.0 && !s.jitter && s.EffectiveFactor() >= 1.0 && IsFloat64(s.Curve(n))
    ensures s.ForAttempt(n, random) == Min(s.EffectiveMax(), s.Curve(n).Floor)
  {
    CurveAboveMin(s, n);
    if s.Curve(n) > MAX_INT64 as real {
      GuardIsTight(s.Curve(n));
    }
  }

  /** Likewise over all reals, for every maximum that the guard does not cut short. */
  lemma Shape(s: Settings, n: nat, random: real)
    requires 0.0 <= random < 1.0 && !s.jitter && s.EffectiveFactor() >= 1.0
    requires s.EffectiveMax() <= MAX_INT64 || s.Curve(n) <= MAX_INT64 as real
    ensures s.ForAttempt(n, random) == Min(s.EffectiveMax(), s.Curve(n).Floor)
  {
    CurveAboveMin(s, n);
  }

  /** Without jitter the durations never shrink, and stay at the maximum once there. */
  lemma {:induction false} NeverShrinks(s: Settings, n: nat, m: nat, r1: real, r2: real)
    requires 0.0 <= r1 < 1.0 && 0.0 <= r2 < 1.0 && !s.jitter && s.EffectiveFactor() >= 1.0 && n <= m
    ensures s.ForAttempt(n, r1) <= s.ForAttempt(m, r2)
    ensures s.ForAttempt(n, r1) == s.EffectiveMax() ==> s.ForAttempt(m, r2) == s.EffectiveMax()
    decreases m - n
  {
    if n < m {
      NeverShrinks(s, n, m - 1, r1, r2);
      CurveAboveMin(s, m - 1);
    } else {
      CurveAboveMin(s, n);
    }
  }

  /** With jitter on a growing curve the result lies below the one without. */
  lemma JitterStaysBelowCurve(s: Settings, n: nat, random: real)
    requires 0.0 <= random < 1.0 && s.EffectiveFactor() >= 1.0
    ensures s.ForAttempt(n, random) <= s.(jitter := false).ForAttempt(n, random)
  {
    var lo, hi, curve := s.EffectiveMin(), s.EffectiveMax(), s.Curve(n);
    assert s.(jitter := false).Curve(n) == curve;
    CurveAboveMin(s, n);
    JitteredBelow(lo as real, curve, random);
    if lo < hi {
      ClampedMonotone(lo, hi, Jittered(lo as real, curve, random), curve);
    }
  }

  // --- The counter and the retry loop -----------------------------------------------------------------

  const COUNTER_SIZE := 0x1_0000_0000_0000_0000

  class Backoff {
    const settings: Settings
    var attempt: nat

    constructor (settings: Settings)
      ensures this.settings == settings && attempt == 0
    {
      this.settings, attempt := settings, 0;
    }

    /** The counter is a uint64 and wraps around. */
    method Duration(random: real) returns (d: Duration)
      requires 0.0 <= random < 1.0 && attempt < COUNTER_SIZE
      modifies this
      ensures attempt == if old(attempt) == 0xFFFF_FFFF_FFFF_FFFF then 0 else old(attempt) + 1
      ensures d == settings.ForAttempt(old(attempt), random)
    {
      var current := attempt;
      attempt := (attempt + 1) % COUNTER_SIZE;
      d := settings.ForAttempt(current, random);
    }

    method Reset()
      modifies this
      ensures attempt == 0
    {
      attempt := 0;
    }
  }

  /** The durations of the first n attempts. */
  ghost function Schedule(s: Settings, n: nat, random: nat -> real): seq<int>
    requires forall i :: 0.0 <= random(i) < 1.0
  {
    if n == 0 then [] else Schedule(s, n - 1, random) + [s.ForAttempt(n - 1, random(n - 1))]
  }

  function Sum(sleeps: seq<int>): int {
    if sleeps == [] then 0 else Sum(sleeps[..|sleeps| - 1]) + sleeps[|sleeps| - 1]
  }

  /** `op(i)` tells whether the i-th call of the operation succeeds, `first` is the first one that does,
      and `sleeps` records time.Sleep. The counter wraps only after 2^64 failures in a row. */
  method RetryWithBackoff(op: nat -> bool, ghost first: nat, b: Backoff, random: nat -> real)
      returns (calls: nat, sleeps: seq<int>)
    requires op(first) && (forall i :: 0 <= i < first ==> !op(i)) && first < COUNTER_SIZE
    requires forall i :: 0.0 <= random(i) < 1.0
    modifies b
    ensures calls == first + 1
    ensures sleeps == Schedule(b.settings, first, random)
    ensures b.attempt == first
  {
    b.Reset();
    calls, sleeps := 0, [];
    while true
      invariant calls == b.attempt <= first
      invariant sleeps == Schedule(b.settings, calls, random)
      decreases first - calls
    {
      var succeeded := op(calls);
      calls := calls + 1;
      if succeeded {
        return;
      }
      var d := b.Duration(random(calls - 1));
      sleeps := sleeps + [d];
    }
  }

  lemma OneMore(n: int, x: int)
    ensures (n + 1) * x == n * x + x
  {
  }

  lemma ScheduleGrows(s: Settings, n: nat, random: nat -> real)
    requires forall i :: 0.0 <= random(i) < 1.0
    ensures |Schedule(s, n + 1, random)| == |Schedule(s, n, random)| + 1
    ensures Sum(Schedule(s, n + 1, random)) == Sum(Schedule(s, n, random)) + s.ForAttempt(n, random(n))
  {
  }

  /** Total sleep over n failures lies between n minimums and n maximums. */
  lemma {:induction false} TotalSleepBounds(s: Settings, n: nat, random: nat -> real)
    requires forall i :: 0.0 <= random(i) < 1.0
    requires s.EffectiveMin() <= s.EffectiveMax()
    ensures |Schedule(s, n, random)| == n
    ensures n * s.EffectiveMin() <= Sum(Schedule(s, n, random)) <= n * s.EffectiveMax()
  {
    if n > 0 {
      TotalSleepBounds(s, n - 1, random);
      ScheduleGrows(s, n - 1, random);
      OneMore(n - 1, s.EffectiveMin());
      OneMore(n - 1, s.EffectiveMax());
    }
  }

  function PowerOfTwo(n: nat): nat {
    if n == 0 then 1 else 2 * PowerOfTwo(n - 1)
  }

  lemma {:induction false} DoublingCurve(s: Settings, n: nat)
    requires s.EffectiveFactor() == 2.0
    ensures Pow(2.0, n) == PowerOfTwo(n) as real
    ensures s.Curve(n) == (s.EffectiveMin() * PowerOfTwo(n)) as real
  {
    if n > 0 {
      DoublingCurve(s, n - 1);
    }
  }

  /** What the n-th duration doubles to, before it is capped. */
  function Doubled(s: Settings, n: nat): int {
    s.EffectiveMin() * PowerOfTwo(n)
  }

  lemma UnsaturatedDoubling(s: Settings, n: nat, random: real)
    requires 0.0 <= random < 1.0 && !s.jitter && s.EffectiveFactor() == 2.0
    requires Doubled(s, n) <= Min(s.EffectiveMax(), MAX_INT64)
    ensures s.ForAttempt(n, random) == Doubled(s, n)
  {
    DoublingCurve(s, n);
    CurveAboveMin(s, n);
    Shape(s, n, random);
  }

  lemma TwiceAsMuch(x: int, p: nat)
    ensures x * (2 * p) == 2 * (x * p)
    ensures x > 0 && p > 0 ==> x * p > 0
  {
  }

  lemma {:induction false} PowerIsPositive(n: nat)
    ensures PowerOfTwo(n) > 0
  {
    if n > 0 {
      PowerIsPositive(n - 1);
    }
  }

  lemma PowersDouble(s: Settings, n: nat)
    ensures Doubled(s, n + 1) == 2 * Doubled(s, n)
    ensures Doubled(s, n) > 0
  {
    var x := s.EffectiveMin();
    assert PowerOfTwo(n + 1) == 2 * PowerOfTwo(n);
    TwiceAsMuch(x, PowerOfTwo(n));
    PowerIsPositive(n);
  }

  lemma {:induction false} DoublingTotal(s: Settings, n: nat, random: nat -> real)
    requires forall i :: 0.0 <= random(i) < 1.0
    requires !s.jitter && s.EffectiveFactor() == 2.0
    requires n > 0 ==> Doubled(s, n - 1) <= Min(s.EffectiveMax(), MAX_INT64)
    ensures Sum(Schedule(s, n, random)) == Doubled(s, n) - s.EffectiveMin()
    decreases n
  {
    if n == 0 {
      assert PowerOfTwo(0) == 1;
    } else {
      if n > 1 {
        PowersDouble(s, n - 2);
      }
      DoublingTotal(s, n - 1, random);
      UnsaturatedDoubling(s, n - 1, random(n - 1));
      ScheduleGrows(s, n - 1, random);
      PowersDouble(s, n - 1);
    }
  }

  lemma OneLess(x: int, p: int)
    ensures x * (p - 1) == x * p - x
  {
  }

  /** With factor two and no jitter the sleeps double, and their sum is one minimum short of the next
      power, as long as the maximum is not reached. */
  lemma DoublingSum(s: Settings, n: nat, random: nat -> real)
    requires forall i :: 0.0 <= random(i) < 1.0
    requires !s.jitter && s.EffectiveFactor() == 2.0
    requires n > 0 ==> s.EffectiveMin() * PowerOfTwo(n - 1) <= Min(s.EffectiveMax(), MAX_INT64)
    ensures Sum(Schedule(s, n, random)) == s.EffectiveMin() * (PowerOfTwo(n) - 1)
  {
    DoublingTotal(s, n, random);
    OneLess(s.EffectiveMin(), PowerOfTwo(n));
  }
}
