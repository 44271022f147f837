/** Pure arithmetic of the wheel timer: powers of two, trailing zeros, the
    choice of a level and of a tick count for a delay.

    Products and remainders that the timer's proofs meet are recursive functions
    here (`Times`, `Mask`, `LowBits`), so that those proofs stay linear. */
module TimerArithmetic {
  import opened Basics

  // ----- Products and remainders -----

  /** The product `n * unit`. */
  function Times(n: nat, unit: nat): nat {
    if n == 0 then 0 else Times(n - 1, unit) + unit
  }

  lemma {:induction false} TimesIsProduct(n: nat, unit: nat)
    ensures Times(n, unit) == n * unit
  {
    if n > 0 {
      TimesIsProduct(n - 1, unit);
      assert n * unit == (n - 1) * unit + unit;
    }
  }

  lemma {:induction false} TimesGrows(a: nat, b: nat, unit: nat)
    requires a <= b
    ensures Times(a, unit) + Times(b - a, unit) == Times(b, unit)
  {
    if a < b {
      TimesGrows(a, b - 1, unit);
    }
  }

  /** `x & (size - 1)` for a power of two `size`, that is `x % size`. */
  function Mask(x: nat, size: nat): (r: nat)
    requires size > 0
    ensures r < size
  {
    if x < size then x else Mask(x - size, size)
  }

  lemma {:induction false} MaskIsRemainder(x: nat, size: nat)
    requires size > 0
    ensures Mask(x, size) == x % size
  {
    var q, r := x / size, x % size;
    assert x == q * size + r;
    TimesIsProduct(q, size);
    MaskOfSum(q, r, size);
  }

  lemma {:induction false} MaskOfSum(q: nat, r: nat, size: nat)
    requires r < size
    ensures Mask(Times(q, size) + r, size) == r
  {
    if q > 0 {
      MaskOfSum(q - 1, r, size);
    }
  }

  // ----- Powers of two and the tick counter -----

  lemma {:induction false} Pow2Sum(a: nat, b: nat)
    ensures Pow2(a + b) == Pow2(a) * Pow2(b)
  {
    if b > 0 {
      Pow2Sum(a, b - 1);
      assert Pow2(a) * Pow2(b) == 2 * (Pow2(a) * Pow2(b - 1));
    }
  }

  lemma {:induction false} Pow2Increasing(a: nat, b: nat)
    requires a <= b
    ensures Pow2(a) <= Pow2(b)
    ensures a < b ==> Pow2(a) < Pow2(b)
  {
    if a < b {
      Pow2Increasing(a, b - 1);
    }
  }

  ghost predicate IsPow2(n: nat) {
    exists k: nat :: n == Pow2(k)
  }

  /** Width of `usize` in bits. */
  const WORD_BITS: nat := 64

  lemma WordIsPow2(bits: nat)
    requires bits == WORD_BITS
    ensures WORD == Pow2(bits)
  {
    Pow2Double(1, 2);
    Pow2Double(2, 4);
    Pow2Double(4, 16);
    Pow2Double(8, 256);
    Pow2Double(16, 0x1_0000);
    Pow2Double(32, 0x1_0000_0000);
  }

  lemma Pow2Double(n: nat, v: nat)
    requires Pow2(n) == v
    ensures Pow2(n + n) == v * v
  {
    Pow2Sum(n, n);
  }

  function LowZeros(t: nat): nat
    requires t > 0
  {
    if t % 2 == 1 then 0 else 1 + LowZeros(t / 2)
  }

  /** `usize::trailing_zeros`: the full width for zero. */
  function TrailingZeros(t: nat): nat {
    if t == 0 then WORD_BITS else LowZeros(t)
  }

  /** The lowest `i` bits of `t`, that is `t` modulo `2^i`. */
  function LowBits(t: nat, i: nat): (r: nat)
    ensures r < Pow2(i)
  {
    if i == 0 then 0 else 2 * LowBits(t / 2, i - 1) + t % 2
  }

  lemma {:induction false} LowBitsOfSmall(t: nat, i: nat)
    requires t < Pow2(i)
    ensures LowBits(t, i) == t
  {
    if i > 0 {
      LowBitsOfSmall(t / 2, i - 1);
    }
  }

  lemma {:induction false} LowBitsOfPow2(k: nat, i: nat)
    requires i <= k
    ensures LowBits(Pow2(k), i) == 0
  {
    if i > 0 {
      LowBitsOfPow2(k - 1, i - 1);
    }
  }

  lemma {:induction false} LowBitsAfterInc(t: nat, i: nat)
    ensures LowBits(t + 1, i) == if LowBits(t, i) + 1 == Pow2(i) then 0 else LowBits(t, i) + 1
  {
    if i > 0 {
      if t % 2 == 0 {
        assert (t + 1) / 2 == t / 2;
      } else {
        assert (t + 1) / 2 == t / 2 + 1;
        LowBitsAfterInc(t / 2, i - 1);
      }
    }
  }

  lemma {:induction false} LowZerosClearBits(t: nat, i: nat)
    requires t > 0
    ensures i <= LowZeros(t) <==> LowBits(t, i) == 0
  {
    if i > 0 && t % 2 == 0 {
      LowZerosClearBits(t / 2, i - 1);
    }
  }

  /** A level takes part in a tick exactly when its period divides the new tick
      counter; a level above the word width never does. */
  lemma TakesPart(t: nat, i: nat)
    requires t < WORD
    ensures i <= TrailingZeros(t) <==> i <= WORD_BITS && LowBits(t, i) == 0
  {
    if t == 0 {
      LowBitsOfSmall(0, i);
    } else {
      LowZerosClearBits(t, i);
      if i > WORD_BITS {
        WordIsPow2(WORD_BITS);
        Pow2Increasing(WORD_BITS, i);
        LowBitsOfSmall(t, i);
      }
    }
  }

  /** How many ticks remain until level `i` next takes part in one. */
  function Gap(t: nat, i: nat): (r: nat)
    ensures 1 <= r <= Pow2(i)
  {
    Pow2(i) - LowBits(t, i)
  }

  lemma GapAfterReset(i: nat)
    ensures Gap(0, i) == Pow2(i)
  {
    LowBitsOfSmall(0, i);
  }

  /** One tick closes the gap by one, wrapping to a full period when it was open
      by one; the wrap of the counter at the word width changes nothing. */
  lemma GapAfterTick(t: nat, i: nat)
    requires t < WORD && i <= WORD_BITS
    ensures LowBits(WrappingInc(t), i) == 0 <==> Gap(t, i) == 1
    ensures Gap(WrappingInc(t), i) == if Gap(t, i) == 1 then Pow2(i) else Gap(t, i) - 1
  {
    LowBitsAfterInc(t, i);
    if t + 1 == WORD {
      WordIsPow2(WORD_BITS);
      LowBitsOfPow2(WORD_BITS, i);
      LowBitsOfSmall(0, i);
    }
  }

  /** The clock of the tick `gap - 1 + distance * 2^level` ticks from now. */
  function ClockAfter(clock: nat, gap: nat, distance: nat, level: nat, hz: nat): nat
    requires gap > 0
  {
    clock + Times(gap - 1 + Times(distance, Pow2(level)), hz)
  }

  /** The period of a level: `hz * 2^level`. */
  function Period(hz: nat, level: nat): nat {
    Times(Pow2(level), hz)
  }

  lemma ClockAfterBounds(clock: nat, gap: nat, distance: nat, level: nat, hz: nat)
    requires 0 < gap <= Pow2(level)
    ensures var span := Times(distance, Period(hz, level));
            clock + span <= ClockAfter(clock, gap, distance, level, hz)
                         <= clock + span + Period(hz, level) - hz
  {
    var p := Pow2(level);
    var n := Times(distance, p);
    TimesNested(distance, p, hz);
    TimesGrows(n, gap - 1 + n, hz);
    TimesGrows(gap - 1, p - 1, hz);
  }

  lemma ClockAfterNone(clock: nat, gap: nat, level: nat, hz: nat, size: nat)
    requires gap > 0 && size > 0
    ensures Mask(size, size) == 0
    ensures ClockAfter(clock, gap, 0, level, hz) == clock + Times(gap - 1, hz)
  {
    assert Times(0, Pow2(level)) == 0;
  }

  lemma NextTick(clock: nat, hz: nat)
    ensures ClockAfter(clock, 1, 1, 0, hz) == clock + hz
  {
    assert Pow2(0) == 1;
    TimesIsProduct(1, 1);
    TimesIsProduct(1, hz);
  }

  /** A wider gap delays the clock, by less than a period. */
  lemma ClockAfterGap(clock: nat, gap: nat, wider: nat, distance: nat, level: nat, hz: nat)
    requires 0 < gap <= wider <= Pow2(level)
    ensures ClockAfter(clock, gap, distance, level, hz) <= ClockAfter(clock, wider, distance, level, hz)
         <= ClockAfter(clock, gap, distance, level, hz) + Times(Pow2(level) - 1, hz)
  {
    var n := Times(distance, Pow2(level));
    TimesGrows(gap - 1 + n, wider - 1 + n, hz);
    TimesGrows(wider - gap, Pow2(level) - 1, hz);
  }

  lemma {:induction false} TimesNested(a: nat, b: nat, c: nat)
    ensures Times(Times(a, b), c) == Times(a, Times(b, c))
  {
    if a > 0 {
      TimesNested(a - 1, b, c);
      TimesGrows(b, Times(a, b), c);
    }
  }

  // ----- Level choice -----

  /** `u128::div_ceil`. */
  function CeilDiv(a: nat, b: nat): nat
    requires b > 0
  {
    if a % b == 0 then a / b else a / b + 1
  }

  lemma QuotientBounds(a: nat, b: nat)
    requires b > 0
    ensures Times(a / b, b) <= a < Times(a / b + 1, b)
    ensures a % b == 0 <==> Times(a / b, b) == a
  {
    TimesIsProduct(a / b, b);
  }

  lemma CeilDivBounds(a: nat, b: nat)
    requires b > 0
    ensures a <= Times(CeilDiv(a, b), b) < a + b
  {
    QuotientBounds(a, b);
  }

  lemma CeilDivAtMost(a: nat, b: nat, k: nat)
    requires b > 0
    ensures CeilDiv(a, b) <= k <==> a <= Times(k, b)
  {
    var c := CeilDiv(a, b);
    CeilDivBounds(a, b);
    if c <= k {
      TimesGrows(c, k, b);
    } else {
      TimesGrows(k, c - 1, b);
    }
  }

  /** `u128::ilog2`. */
  function ILog2(n: nat): (r: nat)
    requires n > 0
    ensures Pow2(r) <= n < Pow2(r + 1)
  {
    if n == 1 then 0 else 1 + ILog2(n / 2)
  }

  /** `u128::next_power_of_two`. */
  function NextPow2(n: nat): nat {
    if n <= 1 then 1 else 2 * NextPow2((n + 1) / 2)
  }

  /** The least power of two not below `n`. */
  lemma {:induction false} NextPow2Least(n: nat)
    ensures IsPow2(NextPow2(n)) && n <= NextPow2(n)
    ensures NextPow2(n) == n <==> IsPow2(n)
  {
    if n <= 1 {
      assert Pow2(0) == 1;
    } else {
      NextPow2Least((n + 1) / 2);
      var k: nat :| NextPow2((n + 1) / 2) == Pow2(k);
      assert NextPow2(n) == Pow2(k + 1);
      if IsPow2(n) {
        var j: nat :| n == Pow2(j);
        assert (n + 1) / 2 == Pow2(j - 1);
      }
    }
  }

  function RequiredBuckets(hz: nat, coverage: nat): nat
    requires hz > 0
  {
    if coverage % hz == 0 then coverage / hz else CeilDiv(coverage, hz) + 1
  }

  function BucketCount(hz: nat, coverage: nat): (r: nat)
    requires hz > 0
    ensures r >= 2
  {
    var r := NextPow2(RequiredBuckets(hz, coverage));
    if r < 2 then 2 else r
  }

  /** `find_index_by_duration`. */
  function LevelIndex(coverage: nat, duration: nat): nat
    requires coverage > 0
  {
    if duration < coverage then 0
    else
      QuotientPositive(duration, coverage);
      ILog2(duration / coverage) + 1
  }

  /** `duration_to_level_ticks`. */
  function LevelTicks(hz: nat, duration: nat, level: nat): nat
    requires hz > 0
  {
    PeriodPositive(hz, level);
    CeilDiv(duration, Period(hz, level))
  }

  lemma PeriodPositive(hz: nat, level: nat)
    requires hz > 0
    ensures Period(hz, level) >= hz
  {
    TimesGrows(1, Pow2(level), hz);
  }

  lemma LevelTicksBounds(hz: nat, duration: nat, level: nat)
    requires hz > 0
    ensures var span := Times(LevelTicks(hz, duration, level), Period(hz, level));
            duration <= span < duration + Period(hz, level)
  {
    PeriodPositive(hz, level);
    CeilDivBounds(duration, Period(hz, level));
  }

  lemma OneTick(hz: nat)
    requires hz > 0
    ensures LevelTicks(hz, hz, 0) == 1
  {
    assert Pow2(0) == 1;
    TimesIsProduct(1, hz);
    DivisionUnique(hz, hz, 1, 0);
  }

  lemma QuotientPositive(a: nat, b: nat)
    requires 0 < b <= a
    ensures a / b > 0
  {
    QuotientBounds(a, b);
    assert Times(1, b) == Times(0, b) + b;
  }

  /** Both bounds on a delay that select its level. */
  ghost predicate Selects(coverage: nat, duration: nat, level: nat) {
    && duration < Times(Pow2(level), coverage)
    && (level > 0 ==> Times(Pow2(level - 1), coverage) <= duration)
  }

  lemma LevelIndexSelects(coverage: nat, duration: nat)
    requires coverage > 0
    ensures Selects(coverage, duration, LevelIndex(coverage, duration))
  {
    if duration < coverage {
      assert Pow2(0) == 1;
      assert Times(1, coverage) == Times(0, coverage) + coverage;
    } else {
      QuotientPositive(duration, coverage);
      var q := duration / coverage;
      var k := ILog2(q);
      QuotientBounds(duration, coverage);
      TimesGrows(Pow2(k), q, coverage);
      TimesGrows(q + 1, Pow2(k + 1), coverage);
    }
  }

  /** The chosen level is the least one whose coverage exceeds the delay. */
  lemma LevelIndexLeast(coverage: nat, duration: nat, level: nat)
    requires coverage > 0
    ensures level == LevelIndex(coverage, duration) <==> Selects(coverage, duration, level)
    ensures level < LevelIndex(coverage, duration) ==> Times(Pow2(level), coverage) <= duration
  {
    var chosen := LevelIndex(coverage, duration);
    LevelIndexSelects(coverage, duration);
    if level < chosen {
      Pow2Increasing(level, chosen - 1);
      TimesGrows(Pow2(level), Pow2(chosen - 1), coverage);
    } else if level > chosen {
      Pow2Increasing(chosen, level - 1);
      TimesGrows(Pow2(chosen), Pow2(level - 1), coverage);
    }
  }

  /** `coverage / hz` is exactly a power of two of at least two. */
  ghost predicate ExactRing(hz: nat, coverage: nat)
    requires hz > 0
  {
    coverage % hz == 0 && coverage / hz >= 2 && IsPow2(coverage / hz)
  }

  /** The delays whose tick count does not fit the ring: the last tick of an
      exact ring's coverage. */
  ghost predicate LastTick(hz: nat, coverage: nat, duration: nat)
    requires 0 < hz <= coverage
  {
    ExactRing(hz, coverage) && Times(Pow2(LevelIndex(coverage, duration)), coverage - hz) < duration
  }

  lemma TimesSwap(a: nat, b: nat, c: nat)
    ensures Times(a, Times(b, c)) == Times(b, Times(a, c))
  {
    TimesNested(a, b, c);
    TimesNested(b, a, c);
    TimesIsProduct(a, b);
    TimesIsProduct(b, a);
  }

  lemma {:induction false} TimesMonotone(n: nat, a: nat, b: nat)
    requires a <= b
    ensures Times(n, a) <= Times(n, b)
  {
    if n > 0 {
      TimesMonotone(n - 1, a, b);
    }
  }

  /** Tick counts never exceed the coverage in ticks, rounded up. */
  lemma TicksAtMost(hz: nat, coverage: nat, duration: nat)
    requires 0 < hz <= coverage
    ensures LevelTicks(hz, duration, LevelIndex(coverage, duration)) <= CeilDiv(coverage, hz)
  {
    var level := LevelIndex(coverage, duration);
    var p, c := Pow2(level), CeilDiv(coverage, hz);
    LevelIndexSelects(coverage, duration);
    CeilDivBounds(coverage, hz);
    TimesMonotone(p, coverage, Times(c, hz));
    TimesSwap(p, c, hz);
    PeriodPositive(hz, level);
    CeilDivAtMost(duration, Period(hz, level), c);
  }

  lemma CoverageInTicks(hz: nat, coverage: nat)
    requires 0 < hz <= coverage && coverage % hz == 0
    ensures coverage / hz > 0
    ensures CeilDiv(coverage, hz) == coverage / hz
    ensures BucketCount(hz, coverage) == coverage / hz <==> ExactRing(hz, coverage)
    ensures Times(coverage / hz - 1, hz) == coverage - hz
  {
    QuotientPositive(coverage, hz);
    QuotientBounds(coverage, hz);
    NextPow2Least(coverage / hz);
  }

  /** The tick count of a delay on its own level is below the bucket count
      exactly when the delay is not in the last tick of an exact ring. */
  lemma TicksFit(hz: nat, coverage: nat, duration: nat)
    requires 0 < hz <= coverage
    ensures var ticks := LevelTicks(hz, duration, LevelIndex(coverage, duration));
            && ticks <= BucketCount(hz, coverage)
            && (ticks < BucketCount(hz, coverage) <==> !LastTick(hz, coverage, duration))
  {
    var level := LevelIndex(coverage, duration);
    TicksAtMost(hz, coverage, duration);
    NextPow2Least(RequiredBuckets(hz, coverage));
    if coverage % hz == 0 {
      CoverageInTicks(hz, coverage);
      var k := coverage / hz - 1;
      PeriodPositive(hz, level);
      CeilDivAtMost(duration, Period(hz, level), k);
      TimesSwap(k, Pow2(level), hz);
    }
  }

  lemma LastTickTicks(hz: nat, coverage: nat, duration: nat)
    requires 0 < hz <= coverage && LastTick(hz, coverage, duration)
    ensures LevelTicks(hz, duration, LevelIndex(coverage, duration)) == BucketCount(hz, coverage)
  {
    TicksFit(hz, coverage, duration);
  }

  /** Every delay fits exactly when the ring is not exact. */
  lemma AllTicksFit(hz: nat, coverage: nat)
    requires 0 < hz <= coverage
    ensures (forall duration: nat ::
               LevelTicks(hz, duration, LevelIndex(coverage, duration)) < BucketCount(hz, coverage))
            <==> !ExactRing(hz, coverage)
  {
    forall duration: nat
      ensures LevelTicks(hz, duration, LevelIndex(coverage, duration)) < BucketCount(hz, coverage)
              <==> !LastTick(hz, coverage, duration)
    {
      TicksFit(hz, coverage, duration);
    }
    if ExactRing(hz, coverage) {
      LastTickExists(hz, coverage);
    }
  }

  /** The last nanosecond that level 1 of an exact ring covers does not fit. */
  lemma LastTickExists(hz: nat, coverage: nat)
    requires 0 < hz <= coverage && ExactRing(hz, coverage)
    ensures LastTick(hz, coverage, 2 * coverage - 1)
  {
    assert Pow2(1) == 2;
    TimesIsProduct(2, coverage);
    LastInstant(hz, coverage, 1);
  }

  /** Nor does the last one that any higher level covers, and it is two periods away. */
  lemma LastInstant(hz: nat, coverage: nat, level: nat)
    requires 0 < hz <= coverage && ExactRing(hz, coverage) && level > 0
    ensures var span := Times(Pow2(level), coverage);
            && span > 0 && LevelIndex(coverage, span - 1) == level && LastTick(hz, coverage, span - 1)
            && Times(Pow2(level), hz) + Times(Pow2(level), hz) <= span
  {
    var p, span := Pow2(level), Times(Pow2(level), coverage);
    ExactIsDouble(hz, coverage);
    TimesMonotone(p, hz, coverage - hz);
    TimesSplit(p, coverage - hz, hz);
    TimesAtLeast(p, hz);
    LastOfLevel(coverage, level);
    LevelIndexLeast(coverage, span - 1, level);
  }

  lemma ExactIsDouble(hz: nat, coverage: nat)
    requires 0 < hz <= coverage && ExactRing(hz, coverage)
    ensures 2 * hz <= coverage
  {
    CoverageInTicks(hz, coverage);
    TimesGrows(1, coverage / hz - 1, hz);
    TimesIsProduct(1, hz);
  }

  lemma TimesAtLeast(n: nat, unit: nat)
    requires unit > 0
    ensures n <= Times(n, unit)
  {
    TimesMonotone(n, 1, unit);
    TimesIsProduct(n, 1);
  }

  lemma LastOfLevel(coverage: nat, level: nat)
    requires coverage > 0 && level > 0
    ensures Times(Pow2(level), coverage) > 0 && Selects(coverage, Times(Pow2(level), coverage) - 1, level)
  {
    var half := Pow2(level - 1);
    TimesGrows(half, Pow2(level), coverage);
    TimesAtLeast(half, coverage);
  }

  /** Two periods are longer than a lead below the period and a wait for the next tick. */
  lemma LeadIsShort(hz: nat, p: nat, gap: nat, span: nat, lead: int)
    requires hz > 0 && 1 <= gap <= p && Times(p, hz) + Times(p, hz) <= span && lead < p
    ensures lead + Times(gap - 1, hz) < span - 1
  {
    TimesGrows(gap, p, hz);
    TimesAtLeast(p, hz);
  }

  lemma {:induction false} TimesSplit(n: nat, a: nat, b: nat)
    ensures Times(n, a + b) == Times(n, a) + Times(n, b)
  {
    if n > 0 {
      TimesSplit(n - 1, a, b);
    }
  }

  lemma {:induction false} Pow2Above(n: nat)
    ensures Pow2(n) > n
  {
    if n > 0 {
      Pow2Above(n - 1);
    }
  }
}
