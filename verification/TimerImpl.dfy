/** The wheel timer as the object the program updates step by step: each method
    does to the view what the corresponding operation on `Wheel` does. The timer
    owns its levels, so they are values here. */
module TimerImpl {
  import opened Basics
  import opened TimerArithmetic
  import opened TimerLevel
  import opened TimerWheel

  /** What the caller sees of the buckets handed out. */
  function Events<T>(fired: seq<Firing<T>>): (out: seq<seq<T>>)
    ensures |out| == |fired|
  {
    seq(|fired|, i requires 0 <= i < |fired| => fired[i].events)
  }

  lemma Regroup<T>(a: seq<Firing<T>>, b: seq<Firing<T>>, c: seq<Firing<T>>)
    ensures a + b + c == a + (b + c) && Events(a + b) == Events(a) + Events(b)
  {
  }

  class WheelTimer<T> {
    var levels: seq<Ring<T>>
    var currentTick: nat
    var currentClock: nat
    const startHz: nat
    const startCoverage: nat

    ghost function View(): Wheel<T>
      reads this
    {
      Wheel(levels, currentTick, currentClock, startHz, startCoverage,
            if startHz > 0 then BucketCount(startHz, startCoverage) else 0)
    }

    ghost predicate Valid()
      reads this
    {
      View().Valid()
    }

    constructor (hz: nat, coverage: nat, now: nat)
      requires 0 < hz <= coverage
      ensures Valid() && View() == NewWheel(hz, coverage, now)
    {
      levels := [];
      currentTick, currentClock := 0, now;
      startHz, startCoverage := hz, coverage;
      new;
      ExtendLevels(1);
    }

    /** Appends empty levels and restarts the tick counter. */
    method ExtendLevels(desiredLength: nat)
      requires 0 < startHz
      modifies this
      ensures View() == old(View()).Extend(desiredLength)
    {
      var bucketsCount := BucketCount(startHz, startCoverage);
      ghost var before := levels;
      while |levels| < desiredLength
        invariant View() == old(View()).(levels := levels)
        invariant |before| <= |levels| && (|levels| <= desiredLength || levels == before)
        invariant levels == before + seq(|levels| - |before|, _ => EmptyRing(bucketsCount))
      {
        levels := levels + [EmptyRing(bucketsCount)];
      }
      currentTick := 0;
    }

    method Schedule(event: T, at: nat, now: nat) returns (key: TimerKey)
      requires Valid()
      modifies this
      ensures Valid() && (View(), key) == old(View()).Schedule(event, at, now)
    {
      ghost var w := View();
      assert w.Schedule(event, at, now).0.Valid() by { SchedulePlaces(w, event, at, now); }
      var duration := Saturating(at, now);
      var levelIndex := LevelIndex(startCoverage, duration);
      assert w.Grown(levelIndex).Valid() && levelIndex < |w.Grown(levelIndex).levels| by { GrownValid(w, levelIndex); }
      if levelIndex >= |levels| {
        ExtendLevels(levelIndex + 1);
      }
      var ticks := LevelTicks(startHz, duration, levelIndex);
      var (ring, levelKey) := levels[levelIndex].Schedule(event, ticks);
      levels := levels[levelIndex := ring];
      key := TimerKey(levelKey, levelIndex);
    }

    /** Ticks until the clock has passed `now`, handing out one bucket for every
        level tick; returns when to call again. */
    method Progress(now: nat) returns (out: seq<seq<T>>, next: nat)
      requires Valid()
      modifies this
      ensures Valid() && View() == old(View()).Progress(now).0
      ensures out == Events(old(View()).Progress(now).1)
      ensures exists at :: HandsOut(old(View()), now, at, out)
      ensures next == currentClock > now
    {
      out := [];
      ghost var fired: seq<Firing<T>> := [];
      ProgressClock(View(), now);
      assert [] + View().Progress(now).1 == View().Progress(now).1;
      while currentClock <= now
        invariant Valid() && out == Events(fired)
        invariant old(View()).Progress(now) == (View().Progress(now).0, fired + View().Progress(now).1)
        decreases now + startHz - currentClock
      {
        ghost var before := View();
        TickValid(before);
        var bucket := Tick();
        out := out + bucket;
        currentClock := currentClock + startHz;
        ghost var f := before.Tick().1;
        Regroup(fired, f, View().Progress(now).1);
        fired := fired + f;
      }
      next := currentClock;
      ghost var at := ProgressHandsOut(old(View()), now, out);
    }

    /** One tick: every level whose period divides the new counter takes part. */
    method Tick() returns (out: seq<seq<T>>)
      requires Valid()
      modifies this`levels, this`currentTick
      ensures View() == old(View()).Tick().0.(clock := currentClock)
      ensures out == Events(old(View()).Tick().1)
      ensures forall i :: 0 <= i < |out| ==> i < |levels| && out[i] == old(View()).At(i, old(View()).Cursor(i))
      ensures forall i :: 0 <= i < |levels| ==> (i < |out| <==> old(View()).FiresNow(i))
    {
      currentTick := WrappingInc(currentTick);
      var zeros := TrailingZeros(currentTick);
      out := [];
      ghost var w := old(View());
      ghost var n := w.Participants(currentTick);
      var i := 0;
      while i <= (if zeros < |levels| - 1 then zeros else |levels| - 1)
        invariant 0 <= i <= n && |out| == i && |levels| == |w.levels| && currentTick == WrappingInc(w.tick)
        invariant forall j :: 0 <= j < i ==> levels[j] == w.levels[j].Tick().0 && out[j] == w.levels[j].Tick().1
        invariant forall j :: i <= j < |levels| ==> levels[j] == w.levels[j]
      {
        var (ring, fired) := levels[i].Tick();
        levels := levels[i := ring];
        out := out + [fired];
        i := i + 1;
      }
      assert i == n;
      TickTakes(w);
      assert levels == w.Tick().0.levels;
    }

    method Cancel(key: TimerKey, default: T)
      requires Valid() && key.levelKey.bucketIndex < View().size
      modifies this
      ensures View() == old(View()).Cancel(key, default)
    {
      if key.levelIndex < |levels| {
        levels := levels[key.levelIndex := levels[key.levelIndex].Cancel(key.levelKey, default)];
      }
    }
  }
}
