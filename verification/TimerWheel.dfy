/** The wheel timer as a value: levels of doubling period driven by one tick
    counter. Each waiting event has a predicted firing clock; ticks preserve it
    exactly and level growth only moves it later. */
module TimerWheel {
  import opened Basics
  import opened TimerArithmetic
  import opened TimerLevel

  datatype TimerKey = TimerKey(levelKey: LevelKey, levelIndex: nat)

  /** A detached bucket, labelled with the level, the absolute position and the
      timer clock it was taken at. The timer itself hands out `events` only. */
  datatype Firing<T> = Firing(level: nat, position: nat, clock: nat, events: seq<T>)

  datatype Wheel<T> = Wheel(levels: seq<Ring<T>>, tick: nat, clock: nat, hz: nat, coverage: nat, size: nat)
  {
    predicate Valid() {
      && 0 < hz <= coverage && 0 < size
      && tick < WORD
      && 0 < |levels|
      && forall i :: 0 <= i < |levels| ==> levels[i].Valid() && |levels[i].buckets| == size
    }

    /** The ring size is the one the timer computes from its configuration. */
    predicate Configured() {
      Valid() && size == BucketCount(hz, coverage)
    }

    function Cursor(level: nat): nat
      requires level < |levels|
    {
      levels[level].Position()
    }

    /** Events waiting on a level at an absolute position. */
    function At(level: nat, p: nat): seq<T>
      requires Valid()
    {
      if level < |levels| then levels[level].At(p) else []
    }

    /** The predicted firing clock of a position. */
    function FireClock(level: nat, p: nat): nat
      requires level < |levels| && Cursor(level) <= p
    {
      ClockAfter(clock, Gap(tick, level), p - Cursor(level), level, hz)
    }

    /** A position that a `Progress(now)` fires. */
    predicate Due(level: nat, p: nat, now: nat) {
      && level < |levels| && level <= WORD_BITS
      && Cursor(level) <= p && FireClock(level, p) <= now
    }

    /** The next tick takes the bucket at the level's cursor. */
    predicate FiresNow(level: nat)
      requires level < |levels|
    {
      level <= WORD_BITS && FireClock(level, Cursor(level)) == clock
    }

    // ----- Operations -----

    /** `extend_levels`: appends empty levels and restarts the tick counter. */
    function Extend(count: nat): Wheel<T>
      requires 0 < size
    {
      var more := if count > |levels| then count - |levels| else 0;
      this.(levels := levels + seq(more, _ => EmptyRing(size)), tick := 0)
    }

    /** The wheel with at least the level a delay needs. */
    function Grown(level: nat): Wheel<T>
      requires 0 < size
    {
      if level >= |levels| then Extend(level + 1) else this
    }

    function Schedule(event: T, at: nat, now: nat): (Wheel<T>, TimerKey)
      requires Valid()
    {
      var duration := Saturating(at, now);
      var i := LevelIndex(coverage, duration);
      var w := Grown(i);
      var (ring, key) := w.levels[i].Schedule(event, LevelTicks(hz, duration, i));
      (w.(levels := w.levels[i := ring]), TimerKey(key, i))
    }

    /** How many levels, from level 0 up, take part in the tick numbered `t`. */
    function Participants(t: nat): (n: nat)
      ensures n <= |levels|
    {
      if TrailingZeros(t) < |levels| then TrailingZeros(t) + 1 else |levels|
    }

    /** One tick, including the advance of the clock. */
    function Tick(): (Wheel<T>, seq<Firing<T>>)
      requires Valid()
    {
      var t := WrappingInc(tick);
      var n := Participants(t);
      (Wheel(seq(|levels|, i requires 0 <= i < |levels| => if i < n then levels[i].Tick().0 else levels[i]),
             t, clock + hz, hz, coverage, size),
       seq(n, i requires 0 <= i < n => Firing(i, Cursor(i), clock, levels[i].Tick().1)))
    }

    function Progress(now: nat): (Wheel<T>, seq<Firing<T>>)
      requires Valid()
      decreases if clock <= now then now - clock + 1 else 0
    {
      if clock > now then (this, [])
      else
        TickValid(this);
        var (w, fired) := Tick();
        var (w', rest) := w.Progress(now);
        (w', fired + rest)
    }

    function Cancel(key: TimerKey, default: T): Wheel<T>
      requires Valid() && key.levelKey.bucketIndex < size
    {
      if key.levelIndex < |levels| then
        this.(levels := levels[key.levelIndex := levels[key.levelIndex].Cancel(key.levelKey, default)])
      else this
    }

    /** The firing clock a `Schedule(_, at, now)` assigns. */
    function ScheduledClock(at: nat, now: nat): nat
      requires Valid()
    {
      var duration := Saturating(at, now);
      var i := LevelIndex(coverage, duration);
      ClockAfter(clock, Gap(Grown(i).tick, i), Mask(LevelTicks(hz, duration, i), size), i, hz)
    }
  }

  /** `Instant::saturating_duration_since`. */
  function Saturating(at: nat, now: nat): nat {
    if at > now then at - now else 0
  }

  function NewWheel<T>(hz: nat, coverage: nat, now: nat): (w: Wheel<T>)
    requires 0 < hz <= coverage
    ensures w.Configured() && w.clock == now && |w.levels| == 1 && w.tick == 0
    ensures w.Cursor(0) == 0 && forall p: nat :: w.At(0, p) == []
  {
    Wheel([], 0, now, hz, coverage, BucketCount(hz, coverage)).Extend(1)
  }

  // ----- Ticks -----

  lemma TickValid<T>(w: Wheel<T>)
    requires w.Valid()
    ensures w.Tick().0.Valid() && |w.Tick().0.levels| == |w.levels|
  {
    forall i | 0 <= i < |w.levels| ensures w.levels[i].Tick().0.Valid() {
      TickAdvances(w.levels[i]);
    }
  }

  lemma CursorOfTick<T>(w: Wheel<T>, level: nat)
    requires w.Valid() && level < |w.levels|
    ensures w.Tick().0.Valid() && |w.Tick().0.levels| == |w.levels|
    ensures var (w', fired) := w.Tick();
            if level <= WORD_BITS && Gap(w.tick, level) == 1
            then && w'.Cursor(level) == w.Cursor(level) + 1
                 && level < |fired|
                 && fired[level] == Firing(level, w.Cursor(level), w.clock, w.At(level, w.Cursor(level)))
                 && forall q: nat :: q > w.Cursor(level) ==> w'.At(level, q) == w.At(level, q)
            else && w'.levels[level] == w.levels[level]
                 && level >= |fired|
  {
    TickValid(w);
    TakesPart(WrappingInc(w.tick), level);
    if level <= WORD_BITS {
      GapAfterTick(w.tick, level);
    }
    TickAdvances(w.levels[level]);
  }

  /** A tick fires a waiting position exactly when no tick remains before it, and
      otherwise keeps its events and its predicted firing clock. */
  lemma TickExact<T>(w: Wheel<T>, level: nat, p: nat)
    requires w.Valid() && level < |w.levels| && w.Cursor(level) <= p
    ensures w.Tick().0.Valid() && |w.Tick().0.levels| == |w.levels|
    ensures var (w', fired) := w.Tick();
            if level <= WORD_BITS && w.FireClock(level, p) == w.clock
            then && w'.Cursor(level) == p + 1
                 && level < |fired| && fired[level] == Firing(level, p, w.clock, w.At(level, p))
            else && w'.Cursor(level) <= p
                 && w'.At(level, p) == w.At(level, p)
                 && (level <= WORD_BITS ==> w'.FireClock(level, p) == w.FireClock(level, p))
  {
    var (w', fired) := w.Tick();
    CursorOfTick(w, level);
    if level <= WORD_BITS {
      GapAfterTick(w.tick, level);
    }
    var n := Gap(w.tick, level) - 1 + Times(p - w.Cursor(level), Pow2(level));
    if n > 0 {
      TimesGrows(1, n, w.hz);
    }
  }

  /** Everything one tick hands out was waiting at its level's cursor, with the
      clock it was predicted for. */
  lemma TickEmits<T>(w: Wheel<T>, i: nat)
    requires w.Valid() && i < |w.Tick().1|
    ensures i < |w.levels| && i <= WORD_BITS
    ensures w.FireClock(i, w.Cursor(i)) == w.clock
    ensures w.Tick().1[i] == Firing(i, w.Cursor(i), w.clock, w.At(i, w.Cursor(i)))
    ensures w.Tick().0.levels[i].Position() == w.Cursor(i) + 1
  {
    CursorOfTick(w, i);
  }

  /** A tick takes the buckets of the levels that fire now, which are the lowest ones. */
  lemma TickTakes<T>(w: Wheel<T>)
    requires w.Valid()
    ensures var fired := w.Tick().1;
            && (forall i :: 0 <= i < |fired| ==> i < |w.levels| && fired[i].events == w.At(i, w.Cursor(i)))
            && (forall i :: 0 <= i < |w.levels| ==> (i < |fired| <==> w.FiresNow(i)))
  {
    var fired := w.Tick().1;
    forall i | 0 <= i < |fired| ensures i < |w.levels| && fired[i].events == w.At(i, w.Cursor(i)) {
      TickEmits(w, i);
    }
    forall i | 0 <= i < |w.levels| ensures i < |fired| <==> w.FiresNow(i) {
      TickExact(w, i, w.Cursor(i));
      CursorOfTick(w, i);
    }
  }

  // ----- Progress -----

  lemma {:induction false} ProgressClock<T>(w: Wheel<T>, now: nat)
    requires w.Valid()
    ensures var (w', _) := w.Progress(now);
            && w'.Valid() && |w'.levels| == |w.levels|
            && w'.hz == w.hz && w'.coverage == w.coverage && w'.size == w.size
            && w'.clock > now && w'.clock >= w.clock
            && (w.clock <= now + w.hz ==> w'.clock <= now + w.hz)
    decreases if w.clock <= now then now - w.clock + 1 else 0
  {
    if w.clock <= now {
      TickValid(w);
      ProgressClock(w.Tick().0, now);
    }
  }

  /** A waiting position is fired exactly when it is due; otherwise its events and
      its predicted firing clock stay as they were. */
  lemma {:induction false} ProgressPending<T>(w: Wheel<T>, now: nat, level: nat, p: nat)
    requires w.Valid() && level < |w.levels| && w.Cursor(level) <= p
    ensures w.Progress(now).0.Valid() && |w.Progress(now).0.levels| == |w.levels|
    ensures var (w', out) := w.Progress(now);
            if w.Due(level, p, now)
            then p < w'.Cursor(level) && Firing(level, p, w.FireClock(level, p), w.At(level, p)) in out
            else && w'.Cursor(level) <= p
                 && w'.At(level, p) == w.At(level, p)
                 && (level <= WORD_BITS ==> w'.FireClock(level, p) == w.FireClock(level, p))
    decreases if w.clock <= now then now - w.clock + 1 else 0
  {
    ProgressClock(w, now);
    if w.clock <= now {
      var (w1, fired) := w.Tick();
      TickExact(w, level, p);
      if w1.Cursor(level) <= p {
        ProgressPending(w1, now, level, p);
      } else {
        CursorsGrow(w1, now, level);
        assert fired[level] in fired;
      }
    }
  }

  lemma {:induction false} CursorsGrow<T>(w: Wheel<T>, now: nat, level: nat)
    requires w.Valid() && level < |w.levels|
    ensures w.Progress(now).0.Valid() && |w.Progress(now).0.levels| == |w.levels|
    ensures w.Cursor(level) <= w.Progress(now).0.Cursor(level)
    decreases if w.clock <= now then now - w.clock + 1 else 0
  {
    ProgressClock(w, now);
    if w.clock <= now {
      CursorOfTick(w, level);
      CursorsGrow(w.Tick().0, now, level);
    }
  }

  /** Whatever is handed out was due, carries the clock predicted for it, and is
      exactly the list that was waiting. */
  lemma {:induction false} ProgressEmits<T>(w: Wheel<T>, now: nat, i: nat)
    requires w.Valid() && i < |w.Progress(now).1|
    ensures var f := w.Progress(now).1[i];
            && w.Due(f.level, f.position, now)
            && f.clock == w.FireClock(f.level, f.position) && f.events == w.At(f.level, f.position)
    decreases if w.clock <= now then now - w.clock + 1 else 0
  {
    var (w1, fired) := w.Tick();
    TickValid(w);
    if i < |fired| {
      TickEmits(w, i);
    } else {
      ProgressEmits(w1, now, i - |fired|);
      var f := w.Progress(now).1[i];
      CursorOfTick(w, f.level);
      TickExact(w, f.level, f.position);
    }
  }

  /** Positions are handed out in the order of their clocks and, within one tick, of
      their levels; so none is handed out twice. */
  lemma {:induction false} ProgressOnce<T>(w: Wheel<T>, now: nat, i: nat, j: nat)
    requires w.Valid() && i < j < |w.Progress(now).1|
    ensures var out := w.Progress(now).1;
            && (out[i].level, out[i].position) != (out[j].level, out[j].position)
            && (out[i].clock < out[j].clock || (out[i].clock == out[j].clock && out[i].level < out[j].level))
    decreases if w.clock <= now then now - w.clock + 1 else 0
  {
    var (w1, fired) := w.Tick();
    TickValid(w);
    if i < |fired| {
      TickEmits(w, i);
      if j >= |fired| {
        ProgressEmits(w1, now, j - |fired|);
      }
    } else {
      ProgressOnce(w1, now, i - |fired|, j - |fired|);
    }
  }

  /** `Progress(now)` hands out exactly the due positions, each once with the very
      list that was waiting, and leaves every other position untouched. */
  lemma ProgressExact<T>(w: Wheel<T>, now: nat)
    requires w.Valid()
    ensures w.Progress(now).0.Valid() && |w.Progress(now).0.levels| == |w.levels|
    ensures var (w', out) := w.Progress(now);
      && w'.clock > now
      && (forall i :: 0 <= i < |out| ==>
            && w.Due(out[i].level, out[i].position, now)
            && out[i].clock == w.FireClock(out[i].level, out[i].position)
            && out[i].events == w.At(out[i].level, out[i].position))
      && (forall i, j :: 0 <= i < j < |out| ==>
            (out[i].level, out[i].position) != (out[j].level, out[j].position))
      && (forall level: nat, p: nat :: w.Due(level, p, now) ==>
            Firing(level, p, w.FireClock(level, p), w.At(level, p)) in out)
      && (forall level: nat, p: nat :: level < |w.levels| && w.Cursor(level) <= p && !w.Due(level, p, now) ==>
            w'.Cursor(level) <= p && w'.At(level, p) == w.At(level, p))
  {
    var (w', out) := w.Progress(now);
    ProgressClock(w, now);
    forall i | 0 <= i < |out|
      ensures w.Due(out[i].level, out[i].position, now)
      ensures out[i].clock == w.FireClock(out[i].level, out[i].position)
      ensures out[i].events == w.At(out[i].level, out[i].position)
    {
      ProgressEmits(w, now, i);
    }
    forall i, j | 0 <= i < j < |out|
      ensures (out[i].level, out[i].position) != (out[j].level, out[j].position)
    {
      ProgressOnce(w, now, i, j);
    }
    forall level: nat, p: nat | level < |w.levels| && w.Cursor(level) <= p
      ensures if w.Due(level, p, now)
              then Firing(level, p, w.FireClock(level, p), w.At(level, p)) in out
              else w'.Cursor(level) <= p && w'.At(level, p) == w.At(level, p)
    {
      ProgressPending(w, now, level, p);
    }
  }

  /** Which of the buckets handed out is that of a position due. */
  lemma DueAt<T>(w: Wheel<T>, now: nat, level: nat, p: nat) returns (i: nat)
    requires w.Valid() && w.Due(level, p, now)
    ensures var out := w.Progress(now).1;
            i < |out| && out[i].level == level && out[i].position == p && out[i].events == w.At(level, p)
  {
    ProgressPending(w, now, level, p);
    var out := w.Progress(now).1;
    i :| 0 <= i < |out| && out[i] == Firing(level, p, w.FireClock(level, p), w.At(level, p));
  }

  /** A position that fires in an earlier tick than another, or from a lower level in
      the same one. */
  predicate Sooner<T>(w: Wheel<T>, a: (nat, nat), b: (nat, nat))
    requires a.0 < |w.levels| && w.Cursor(a.0) <= a.1 && b.0 < |w.levels| && w.Cursor(b.0) <= b.1
  {
    || w.FireClock(a.0, a.1) < w.FireClock(b.0, b.1)
    || (w.FireClock(a.0, a.1) == w.FireClock(b.0, b.1) && a.0 < b.0)
  }

  /** The buckets are those of the positions due, each once, in the order they fire;
      `at` names them. */
  ghost predicate HandsOut<T>(w: Wheel<T>, now: nat, at: seq<(nat, nat)>, buckets: seq<seq<T>>)
    requires w.Valid()
  {
    && |buckets| == |at|
    && (forall i :: 0 <= i < |at| ==> w.Due(at[i].0, at[i].1, now) && buckets[i] == w.At(at[i].0, at[i].1))
    && (forall level: nat, p: nat :: w.Due(level, p, now) ==> (level, p) in at)
    && (forall i, j :: 0 <= i < j < |at| ==> Sooner(w, at[i], at[j]))
  }

  /** What the timer's caller sees of a `Progress(now)`. */
  lemma ProgressHandsOut<T>(w: Wheel<T>, now: nat, buckets: seq<seq<T>>) returns (at: seq<(nat, nat)>)
    requires w.Valid() && |buckets| == |w.Progress(now).1|
    requires forall i :: 0 <= i < |buckets| ==> buckets[i] == w.Progress(now).1[i].events
    ensures HandsOut(w, now, at, buckets)
  {
    var out := w.Progress(now).1;
    ProgressExact(w, now);
    at := seq(|out|, i requires 0 <= i < |out| => (out[i].level, out[i].position));
    forall level: nat, p: nat | w.Due(level, p, now) ensures (level, p) in at {
      var i :| 0 <= i < |out| && out[i] == Firing(level, p, w.FireClock(level, p), w.At(level, p));
      assert at[i] == (level, p);
    }
    forall i, j | 0 <= i < j < |at| ensures Sooner(w, at[i], at[j]) {
      ProgressOnce(w, now, i, j);
    }
  }

  // ----- Growth, scheduling and cancelling -----

  lemma GrownValid<T>(w: Wheel<T>, level: nat)
    requires w.Valid()
    ensures var g := w.Grown(level);
            g.Valid() && level < |g.levels| && |w.levels| <= |g.levels|
  {
  }

  /** Growth keeps every waiting event where it is and never moves a firing clock
      forward; it can delay one by less than its level's period. */
  lemma GrowthDelays<T>(w: Wheel<T>, grow: nat, level: nat, p: nat)
    requires w.Valid() && level < |w.levels| && w.Cursor(level) <= p
    ensures var g := w.Grown(grow);
            && g.Valid() && level < |g.levels| && g.levels[level] == w.levels[level]
            && w.FireClock(level, p) <= g.FireClock(level, p)
                 <= w.FireClock(level, p) + Times(Pow2(level) - 1, w.hz)
  {
    GrownValid(w, grow);
    var g := w.Grown(grow);
    GapAfterReset(level);
    assert g.levels[level] == w.levels[level] && g.clock == w.clock;
    ClockAfterGap(w.clock, Gap(w.tick, level), Gap(g.tick, level), p - w.Cursor(level), level, w.hz);
  }

  lemma FullGap(clock: nat, distance: nat, level: nat, hz: nat)
    ensures ClockAfter(clock, Gap(0, level), distance, level, hz)
         == clock + (Pow2(level) - 1 + distance * Pow2(level)) * hz
  {
    GapAfterReset(level);
    TimesIsProduct(distance, Pow2(level));
    WholeGap(clock, Gap(0, level), distance, level, hz, distance * Pow2(level));
  }

  lemma WholeGap(clock: nat, gap: nat, distance: nat, level: nat, hz: nat, n: nat)
    requires gap > 0 && n == Times(distance, Pow2(level))
    ensures ClockAfter(clock, gap, distance, level, hz) == clock + (gap - 1 + n) * hz
  {
    TimesIsProduct(gap - 1 + n, hz);
  }

  /** Growth restarts the period of every level: whatever waits then waits for the rest
      of a whole period and its distance. */
  lemma GrowthRestarts<T>(w: Wheel<T>, grow: nat, level: nat, p: nat)
    requires w.Valid() && |w.levels| <= grow && level < |w.levels| && w.Cursor(level) <= p
    ensures var g := w.Grown(grow);
            && level < |g.levels| && g.Cursor(level) == w.Cursor(level)
            && g.FireClock(level, p) == w.clock + (Pow2(level) - 1 + (p - w.Cursor(level)) * Pow2(level)) * w.hz
  {
    FullGap(w.clock, p - w.Cursor(level), level, w.hz);
  }

  /** So does an event for whose delay the wheel grows. */
  lemma GrowingSchedule<T>(w: Wheel<T>, at: nat, now: nat)
    requires w.Valid() && |w.levels| <= LevelIndex(w.coverage, Saturating(at, now))
    ensures var duration := Saturating(at, now);
            var i := LevelIndex(w.coverage, duration);
            w.ScheduledClock(at, now)
            == w.clock + (Pow2(i) - 1 + (LevelTicks(w.hz, duration, i) % w.size) * Pow2(i)) * w.hz
  {
    var duration := Saturating(at, now);
    var i := LevelIndex(w.coverage, duration);
    MaskIsRemainder(LevelTicks(w.hz, duration, i), w.size);
    FullGap(w.clock, Mask(LevelTicks(w.hz, duration, i), w.size), i, w.hz);
  }

  /** A schedule appends the event at the position named by its key, whose firing
      clock is `ScheduledClock`; apart from growth nothing else changes. */
  lemma SchedulePlaces<T>(w: Wheel<T>, event: T, at: nat, now: nat)
    requires w.Valid()
    ensures var (w', key) := w.Schedule(event, at, now);
            var g := w.Grown(key.levelIndex);
            var p := key.levelKey.Position(w.size);
            && w'.Valid() && g.Valid() && |w'.levels| == |g.levels| && key.levelIndex < |g.levels|
            && w'.tick == g.tick && w'.clock == w.clock
            && w'.hz == w.hz && w'.coverage == w.coverage && w'.size == w.size
            && key.levelIndex == LevelIndex(w.coverage, Saturating(at, now))
            && key.levelKey.bucketIndex < w.size
            && (forall i :: 0 <= i < |g.levels| ==> w'.Cursor(i) == g.Cursor(i))
            && g.Cursor(key.levelIndex) <= p < g.Cursor(key.levelIndex) + w.size
            && key.levelKey.elementIndex == |g.At(key.levelIndex, p)|
            && w'.At(key.levelIndex, p) == g.At(key.levelIndex, p) + [event]
            && (forall i: nat, q: nat :: (i, q) != (key.levelIndex, p) ==> w'.At(i, q) == g.At(i, q))
            && w'.FireClock(key.levelIndex, p) == w.ScheduledClock(at, now)
  {
    var duration := Saturating(at, now);
    var i := LevelIndex(w.coverage, duration);
    GrownValid(w, i);
    var g := w.Grown(i);
    ScheduleAppends(g.levels[i], event, LevelTicks(w.hz, duration, i));
  }

  lemma GrownAt<T>(w: Wheel<T>, grow: nat, i: nat, q: nat)
    requires w.Valid()
    ensures w.Grown(grow).Valid()
    ensures w.Grown(grow).At(i, q) == w.At(i, q)
    ensures i < |w.levels| ==> w.Grown(grow).Cursor(i) == w.Cursor(i)
    ensures |w.levels| <= i < |w.Grown(grow).levels| ==> w.Grown(grow).Cursor(i) == 0
  {
    GrownValid(w, grow);
  }

  /** An event whose tick count fits its ring is not predicted before `at`, on a
      timer whose clock has caught up. */
  lemma ScheduleNotEarly<T>(w: Wheel<T>, at: nat, now: nat)
    requires w.Valid() && now <= w.clock
    requires var duration := Saturating(at, now);
             LevelTicks(w.hz, duration, LevelIndex(w.coverage, duration)) < w.size
    ensures at <= w.ScheduledClock(at, now)
  {
    var duration := Saturating(at, now);
    var i := LevelIndex(w.coverage, duration);
    var ticks := LevelTicks(w.hz, duration, i);
    ClockAfterBounds(w.clock, Gap(w.Grown(i).tick, i), ticks, i, w.hz);
    LevelTicksBounds(w.hz, duration, i);
  }

  /** A tick count that is the size of the ring is masked to none. */
  lemma FullRingFiresNext<T>(w: Wheel<T>, at: nat, now: nat, i: nat)
    requires w.Valid() && i == LevelIndex(w.coverage, Saturating(at, now))
    requires LevelTicks(w.hz, Saturating(at, now), i) == w.size
    ensures w.ScheduledClock(at, now) == w.clock + Times(Gap(w.Grown(i).tick, i) - 1, w.hz)
  {
    ClockAfterNone(w.clock, Gap(w.Grown(i).tick, i), i, w.hz, w.size);
  }

  /** A delay that does not fit is filed under its level's very next tick. */
  lemma LastTickFiresNext<T>(w: Wheel<T>, at: nat, now: nat)
    requires w.Configured() && LastTick(w.hz, w.coverage, Saturating(at, now))
    ensures var i := LevelIndex(w.coverage, Saturating(at, now));
            w.ScheduledClock(at, now) == w.clock + Times(Gap(w.Grown(i).tick, i) - 1, w.hz)
  {
    LastTickTicks(w.hz, w.coverage, Saturating(at, now));
    FullRingFiresNext(w, at, now, LevelIndex(w.coverage, Saturating(at, now)));
  }

  lemma ScheduleEarly<T>(w: Wheel<T>, at: nat, now: nat)
    requires w.Configured() && w.clock <= now + w.hz
    requires LastTick(w.hz, w.coverage, Saturating(at, now))
    ensures w.ScheduledClock(at, now) < at
  {
    var duration := Saturating(at, now);
    var i := LevelIndex(w.coverage, duration);
    LastTickFiresNext(w, at, now);
    LastTickIsLong(w.hz, w.coverage, duration, Gap(w.Grown(i).tick, i));
  }

  /** A delay in the last tick is longer than any wait for the next tick of its level. */
  lemma LastTickIsLong(hz: nat, coverage: nat, duration: nat, gap: nat)
    requires 0 < hz <= coverage && LastTick(hz, coverage, duration)
    requires 0 < gap <= Pow2(LevelIndex(coverage, duration))
    ensures Times(gap - 1, hz) + hz < duration
  {
    var p := Pow2(LevelIndex(coverage, duration));
    TimesGrows(gap, p, hz);
    CoverageInTicks(hz, coverage);
    TimesGrows(1, coverage / hz - 1, hz);
    TimesMonotone(p, hz, coverage - hz);
  }

  /** On a timer at most one tick ahead of `now`, an event is not predicted before
      `at` exactly when its delay is not in the last tick of an exact ring. */
  lemma ScheduleNotEarlyIff<T>(w: Wheel<T>, at: nat, now: nat)
    requires w.Configured() && now <= w.clock <= now + w.hz
    ensures at <= w.ScheduledClock(at, now) <==> !LastTick(w.hz, w.coverage, Saturating(at, now))
  {
    TicksFit(w.hz, w.coverage, Saturating(at, now));
    if LastTick(w.hz, w.coverage, Saturating(at, now)) {
      ScheduleEarly(w, at, now);
    } else {
      ScheduleNotEarly(w, at, now);
    }
  }

  /** However far the clock is ahead, on an exact ring some event is early: the last
      instant of a level whose period exceeds the lead. */
  lemma SomeEarly<T>(w: Wheel<T>, now: nat, level: nat, at: nat)
    requires w.Configured() && ExactRing(w.hz, w.coverage) && level > 0 && w.clock < now + Pow2(level)
    requires at + 1 == now + Times(Pow2(level), w.coverage)
    ensures w.ScheduledClock(at, now) < at
  {
    var hz, coverage := w.hz, w.coverage;
    LastInstant(hz, coverage, level);
    EarlyBy(w, at, now, level, Times(Pow2(level), coverage));
  }

  lemma EarlyBy<T>(w: Wheel<T>, at: nat, now: nat, level: nat, span: nat)
    requires w.Configured() && 0 < span && at == now + span - 1 && w.clock < now + Pow2(level)
    requires LevelIndex(w.coverage, span - 1) == level && LastTick(w.hz, w.coverage, span - 1)
    requires Times(Pow2(level), w.hz) + Times(Pow2(level), w.hz) <= span
    ensures w.ScheduledClock(at, now) < at
  {
    LastTickFiresNext(w, at, now);
    LeadIsShort(w.hz, Pow2(level), Gap(w.Grown(level).tick, level), span, w.clock - now);
  }

  /** `schedule` keeps its promise for every `at`, as a promise about the predicted clock,
      exactly when the clock has caught up with `now` and the ring is not exact. A caller
      whose time does not go back cannot tell for an event that is due already; if a level
      covers more than one tick, the same condition decides for the later ones. */
  lemma SchedulePromise<T>(w: Wheel<T>, now: nat)
    requires w.Configured()
    ensures (forall at: nat :: at <= w.ScheduledClock(at, now)) <==>
            now <= w.clock && !ExactRing(w.hz, w.coverage)
    ensures w.hz < w.coverage ==>
              ((forall at: nat :: at > now ==> at <= w.ScheduledClock(at, now)) <==>
               now <= w.clock && !ExactRing(w.hz, w.coverage))
  {
    if w.clock < now {
      LaggingDue(w, now);
      if w.hz < w.coverage {
        LaggingSchedule(w, now);
      }
    } else if ExactRing(w.hz, w.coverage) {
      var level := w.clock - now + 1;
      var at := now + Times(Pow2(level), w.coverage) - 1;
      Pow2Above(level);
      TimesAtLeast(Pow2(level), w.coverage);
      SomeEarly(w, now, level, at);
      assert at > now;
    } else {
      forall at: nat ensures at <= w.ScheduledClock(at, now) {
        TicksFit(w.hz, w.coverage, Saturating(at, now));
        ScheduleNotEarly(w, at, now);
      }
    }
  }

  /** On a lagging clock an event one tick away is early by the lag. */
  lemma LaggingSchedule<T>(w: Wheel<T>, now: nat)
    requires w.Configured() && w.clock < now && w.hz < w.coverage
    ensures w.ScheduledClock(now + w.hz, now) == w.clock + w.hz < now + w.hz
  {
    var hz := w.hz;
    assert Saturating(now + hz, now) == hz && LevelIndex(w.coverage, hz) == 0;
    OneTick(hz);
    assert Mask(1, w.size) == 1 && w.Grown(0) == w;
    assert Gap(w.tick, 0) == 1;
    NextTick(w.clock, hz);
  }

  /** And one that is due is predicted in the past. */
  lemma LaggingDue<T>(w: Wheel<T>, now: nat)
    requires w.Valid() && w.clock < now
    ensures w.ScheduledClock(now, now) == w.clock
  {
    LevelTicksBounds(w.hz, 0, 0);
    var ticks := LevelTicks(w.hz, 0, 0);
    if ticks > 0 {
      TimesGrows(1, ticks, Period(w.hz, 0));
    }
  }

  /** The promise fails for the timer `Time::new` builds (1 ms ticks, 64 ms
      coverage): a 63.5 ms delay fires with the next tick. */
  lemma SixtyFourTickWheelFiresEarly<T>(w: Wheel<T>, now: nat)
    requires w.Configured() && w.hz == 1_000_000 && w.coverage == 64_000_000 && w.clock == now
    ensures w.ScheduledClock(now + 63_500_000, now) == now
  {
    assert 64 == Pow2(6);
    assert Pow2(0) == 1;
    TimesIsProduct(1, 63_000_000);
    LastTickFiresNext(w, now + 63_500_000, now);
  }

  /** How late an event can be: less than two periods of its level. */
  lemma ScheduleLateness<T>(w: Wheel<T>, at: nat, now: nat)
    requires w.Valid() && w.clock <= now + w.hz
    requires var duration := Saturating(at, now);
             LevelTicks(w.hz, duration, LevelIndex(w.coverage, duration)) < w.size
    ensures var duration := Saturating(at, now);
            w.ScheduledClock(at, now) < now + duration + 2 * Period(w.hz, LevelIndex(w.coverage, duration))
  {
    var duration := Saturating(at, now);
    var i := LevelIndex(w.coverage, duration);
    var ticks := LevelTicks(w.hz, duration, i);
    ClockAfterBounds(w.clock, Gap(w.Grown(i).tick, i), ticks, i, w.hz);
    LevelTicksBounds(w.hz, duration, i);
  }

  /** Above level 0 that lateness is less than `4 * hz / coverage` of the delay. */
  lemma ScheduleLatenessRatio<T>(w: Wheel<T>, at: nat, now: nat)
    requires w.Valid() && w.clock <= now + w.hz
    requires var duration := Saturating(at, now);
             && LevelTicks(w.hz, duration, LevelIndex(w.coverage, duration)) < w.size
             && LevelIndex(w.coverage, duration) > 0
    ensures var duration := Saturating(at, now);
            (w.ScheduledClock(at, now) - (now + duration)) * w.coverage < 4 * w.hz * duration
  {
    var duration := Saturating(at, now);
    var i := LevelIndex(w.coverage, duration);
    ScheduleLateness(w, at, now);
    LevelIndexSelects(w.coverage, duration);
    var h := Pow2(i - 1);
    TimesIsProduct(Pow2(i), w.hz);
    TimesIsProduct(h, w.coverage);
    LatenessRatio(w.ScheduledClock(at, now) - (now + duration), h, w.hz, w.coverage, duration);
  }

  lemma LatenessRatio(late: int, h: nat, hz: nat, coverage: nat, duration: nat)
    requires late < 2 * (2 * h * hz) && coverage > 0 && h * coverage <= duration
    ensures late * coverage < 4 * hz * duration
  {
    var bound := 4 * (h * hz);
    Scaled(late, bound, coverage);
    assert bound * coverage == (h * coverage) * (4 * hz);
    ScaledWeakly(h * coverage, duration, 4 * hz);
  }

  lemma Scaled(a: int, b: int, c: nat)
    requires a < b && c > 0
    ensures a * c < b * c
  {
    Multiple(b - a, c);
    assert (b - a) * c == b * c - a * c;
  }

  lemma ScaledWeakly(a: int, b: int, c: nat)
    requires a <= b
    ensures a * c <= b * c
  {
    Multiple(b - a, c);
    assert (b - a) * c == b * c - a * c;
  }

  lemma ScheduleKeepsEvents<T>(w: Wheel<T>, event: T, at: nat, now: nat, i: nat, p: nat)
    requires w.Valid() && i < |w.levels|
    ensures var (w', key) := w.Schedule(event, at, now);
            var g := w.Grown(key.levelIndex);
            && w'.Valid() && |w.levels| <= |w'.levels| == |g.levels|
            && w'.Cursor(i) == w.Cursor(i) && w.At(i, p) <= w'.At(i, p)
            && w'.tick == g.tick && w'.clock == w.clock && w'.hz == w.hz
  {
    var (w', key) := w.Schedule(event, at, now);
    SchedulePlaces(w, event, at, now);
    GrownAt(w, key.levelIndex, i, p);
  }

  /** A schedule leaves every waiting element in place and its firing clock as it
      was, or delayed by less than its level's period when the wheel grows. */
  lemma ScheduleKeepsWaiting<T>(w: Wheel<T>, event: T, at: nat, now: nat, i: nat, p: nat)
    requires w.Valid() && i < |w.levels| && w.Cursor(i) <= p
    ensures var w' := w.Schedule(event, at, now).0;
            && w'.Valid() && |w.levels| <= |w'.levels| && w'.Cursor(i) == w.Cursor(i)
            && w.At(i, p) <= w'.At(i, p)
            && w.FireClock(i, p) <= w'.FireClock(i, p) <=
               w.FireClock(i, p) + (if |w'.levels| == |w.levels| then 0 else Times(Pow2(i) - 1, w.hz))
  {
    var (w', key) := w.Schedule(event, at, now);
    ScheduleKeepsEvents(w, event, at, now, i, p);
    if |w'.levels| == |w.levels| {
      assert w'.tick == w.tick;
    } else {
      GrowthDelays(w, key.levelIndex, i, p);
    }
  }

  /** Cancelling a key that was issued replaces exactly the named event, and only
      while its position is still ahead. */
  lemma CancelReplaces<T>(w: Wheel<T>, key: TimerKey, default: T)
    requires w.Valid() && key.levelKey.bucketIndex < w.size && key.levelIndex < |w.levels|
    requires key.levelKey.Position(w.size) < w.Cursor(key.levelIndex) + w.size
    ensures var w' := w.Cancel(key, default);
            var i, p := key.levelIndex, key.levelKey.Position(w.size);
            && w'.Valid() && w' == w.(levels := w'.levels) && |w'.levels| == |w.levels|
            && (forall j :: 0 <= j < |w.levels| ==> w'.Cursor(j) == w.Cursor(j))
            && (p < w.Cursor(i) ==> w' == w)
            && (p >= w.Cursor(i) && key.levelKey.elementIndex < |w.At(i, p)| ==>
                  w'.At(i, p) == w.At(i, p)[key.levelKey.elementIndex := default])
            && (forall j: nat, q: nat :: (j, q) != (i, p) ==> w'.At(j, q) == w.At(j, q))
  {
    CancelExact(w.levels[key.levelIndex], key.levelKey, default);
  }
}
