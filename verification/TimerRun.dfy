/** Whole runs of the wheel timer. A ledger records every scheduled event and a
    log every bucket handed out; the invariant ties both to the wheel. */
module TimerRun {
  import opened Basics
  import opened TimerArithmetic
  import opened TimerLevel
  import opened TimerWheel

  datatype Op<T> =
    | Schedule(event: T, at: nat, now: nat)
    | Cancel(key: TimerKey)
    | Progress(now: nat)

  /** What is known of a scheduled event: the firing clock predicted when it was
      scheduled, how often the wheel has grown while it was waiting, whether the
      call met the conditions of the never-early promise (`sound`) and of the
      lateness bound (`prompt`), and whether it was cancelled while waiting. */
  datatype Ticket<T> = Ticket(event: T, at: nat, now: nat, due: nat, growths: nat,
                              sound: bool, prompt: bool, cancelled: bool)
  {
    function Value(default: T): T {
      if cancelled then default else event
    }

    /** A sound ticket is not predicted before `at`; a prompt one less than two
        periods of its level late. */
    ghost predicate Bounded(level: nat, hz: nat) {
      && (sound ==> at <= due)
      && (prompt ==> due < now + Saturating(at, now) + 2 * Period(hz, level))
    }

    /** The latest clock the event can fire at. */
    function Latest(level: nat, hz: nat): nat {
      due + Times(growths, Times(Pow2(level) - 1, hz))
    }
  }

  /** A bucket handed out by `Progress(seen)`. */
  datatype Record<T> = Record(firing: Firing<T>, seen: nat)

  datatype Run<T> = Run(wheel: Wheel<T>, ledger: map<TimerKey, Ticket<T>>, log: seq<Record<T>>)

  predicate Waiting<T>(w: Wheel<T>, key: TimerKey) {
    key.levelIndex < |w.levels| && w.Cursor(key.levelIndex) <= key.levelKey.Position(w.size)
  }

  /** A key names an element of a position on a level. */
  predicate Names(key: TimerKey, size: nat, level: nat, p: nat, element: nat) {
    && key.levelIndex == level && key.levelKey.elementIndex == element
    && key.levelKey.bucketIndex < size && key.levelKey.Position(size) == p
  }

  lemma NamesOnce(k: TimerKey, l: TimerKey, size: nat, level: nat, p: nat, element: nat)
    requires Names(k, size, level, p, element) && Names(l, size, level, p, element)
    ensures k == l
  {
    PositionInjective(k.levelKey, l.levelKey, size);
  }

  ghost function Step<T>(r: Run<T>, op: Op<T>, default: T): Run<T>
    requires r.wheel.Valid()
  {
    var w := r.wheel;
    match op
    case Schedule(event, at, now) =>
      var (w', key) := w.Schedule(event, at, now);
      var fits := LevelTicks(w.hz, Saturating(at, now), key.levelIndex) < w.size;
      var grown := if |w'.levels| == |w.levels| then r.ledger
                   else map k | k in r.ledger ::
                          if Waiting(w, k) then r.ledger[k].(growths := r.ledger[k].growths + 1) else r.ledger[k];
      Run(w', grown[key :=
            Ticket(event, at, now, w.ScheduledClock(at, now), 0,
                   fits && now <= w.clock, fits && w.clock <= now + w.hz, false)], r.log)
    case Cancel(key) =>
      // Only keys that `schedule` has returned exist.
      if key in r.ledger && key.levelKey.bucketIndex < w.size then
        var ledger := if Waiting(w, key) then r.ledger[key := r.ledger[key].(cancelled := true)] else r.ledger;
        Run(w.Cancel(key, default), ledger, r.log)
      else r
    case Progress(now) =>
      var (w', out) := w.Progress(now);
      Run(w', r.ledger, r.log + seq(|out|, i requires 0 <= i < |out| => Record(out[i], now)))
  }

  // ----- The invariant -----

  /** A log entry that shows the event of a key. */
  ghost predicate Shows<T>(r: Run<T>, key: TimerKey, i: nat, default: T)
    requires key in r.ledger
  {
    && i < |r.log|
    && var f, t := r.log[i].firing, r.ledger[key];
    && f.level == key.levelIndex && f.position == key.levelKey.Position(r.wheel.size)
    && key.levelKey.elementIndex < |f.events| && f.events[key.levelKey.elementIndex] == t.Value(default)
    && t.due <= f.clock <= t.Latest(f.level, r.wheel.hz)
  }

  /** A waiting event sits under its key, with its firing clock inside the ticket's bounds. */
  ghost predicate Pending<T>(w: Wheel<T>, key: TimerKey, t: Ticket<T>, default: T)
    requires w.Valid() && key.levelIndex < |w.levels|
  {
    var i, p, e := key.levelIndex, key.levelKey.Position(w.size), key.levelKey.elementIndex;
    && w.Cursor(i) <= p < w.Cursor(i) + w.size
    && e < |w.At(i, p)| && w.At(i, p)[e] == t.Value(default)
    && (i <= WORD_BITS ==> t.due <= w.FireClock(i, p) <= t.Latest(i, w.hz))
  }

  /** An issued key names its event, still waiting or in the log. */
  ghost predicate Kept<T>(r: Run<T>, key: TimerKey, default: T)
    requires r.wheel.Valid() && key in r.ledger
  {
    && key.levelIndex < |r.wheel.levels| && key.levelKey.bucketIndex < r.wheel.size
    && r.ledger[key].Bounded(key.levelIndex, r.wheel.hz)
    && if Waiting(r.wheel, key) then Pending(r.wheel, key, r.ledger[key], default)
       else exists k: nat :: Shows(r, key, k, default)
  }

  /** Every waiting element has an issued key. */
  ghost predicate Accounted<T>(r: Run<T>)
    requires r.wheel.Valid()
  {
    forall key: TimerKey, p: nat ::
      (&& Names(key, r.wheel.size, key.levelIndex, p, key.levelKey.elementIndex)
       && key.levelKey.elementIndex < |r.wheel.At(key.levelIndex, p)|) ==> key in r.ledger
  }

  /** Log entries are passed positions with issued keys, seen no sooner than they fired. */
  ghost predicate Logged<T>(r: Run<T>, i: nat)
    requires r.wheel.Valid() && i < |r.log|
  {
    var f := r.log[i].firing;
    && f.level < |r.wheel.levels| && f.position < r.wheel.Cursor(f.level)
    && f.clock <= r.log[i].seen
    && forall key: TimerKey ::
         (&& Names(key, r.wheel.size, f.level, f.position, key.levelKey.elementIndex)
          && key.levelKey.elementIndex < |f.events|) ==> key in r.ledger
  }

  ghost predicate Distinct<T>(log: seq<Record<T>>) {
    forall i, j :: 0 <= i < j < |log| ==>
      (log[i].firing.level, log[i].firing.position) != (log[j].firing.level, log[j].firing.position)
  }

  ghost predicate AllKept<T>(r: Run<T>, default: T)
    requires r.wheel.Valid()
  {
    forall key :: key in r.ledger ==> Kept(r, key, default)
  }

  ghost predicate AllLogged<T>(r: Run<T>)
    requires r.wheel.Valid()
  {
    forall i :: 0 <= i < |r.log| ==> Logged(r, i)
  }

  ghost predicate Inv<T>(r: Run<T>, default: T) {
    && r.wheel.Configured()
    && AllKept(r, default) && Accounted(r) && AllLogged(r) && Distinct(r.log)
  }

  // ----- Each operation keeps it -----

  lemma CancelKeeps<T>(r: Run<T>, key: TimerKey, default: T)
    requires Inv(r, default)
    ensures Inv(Step(r, Cancel(key), default), default)
  {
    if key in r.ledger {
      assert Kept(r, key, default);
      var r' := Step(r, Cancel(key), default);
      CancelReplaces(r.wheel, key, default);
      forall k | k in r'.ledger ensures Kept(r', k, default) {
        CancelKeepsKey(r, key, k, default);
      }
      CancelAccounted(r, key, default);
      CancelLogged(r, key, default);
    }
  }

  lemma CancelAccounted<T>(r: Run<T>, key: TimerKey, default: T)
    requires r.wheel.Valid() && Accounted(r) && key in r.ledger && Kept(r, key, default)
    ensures var r' := Step(r, Cancel(key), default); r'.wheel.Valid() && Accounted(r')
  {
    var r' := Step(r, Cancel(key), default);
    CancelReplaces(r.wheel, key, default);
    forall k: TimerKey, p: nat | Names(k, r.wheel.size, k.levelIndex, p, k.levelKey.elementIndex) &&
                                  k.levelKey.elementIndex < |r'.wheel.At(k.levelIndex, p)|
      ensures k in r'.ledger
    {
      assert k.levelKey.elementIndex < |r.wheel.At(k.levelIndex, p)|;
    }
  }

  lemma CancelLogged<T>(r: Run<T>, key: TimerKey, default: T)
    requires r.wheel.Valid() && AllLogged(r) && key in r.ledger && Kept(r, key, default)
    ensures var r' := Step(r, Cancel(key), default); r'.wheel.Valid() && AllLogged(r')
  {
    var r' := Step(r, Cancel(key), default);
    CancelReplaces(r.wheel, key, default);
    forall i | 0 <= i < |r'.log| ensures Logged(r', i) {
      assert Logged(r, i);
    }
  }

  lemma CancelKeepsKey<T>(r: Run<T>, key: TimerKey, k: TimerKey, default: T)
    requires r.wheel.Valid() && key in r.ledger && k in r.ledger
    requires Kept(r, key, default) && Kept(r, k, default)
    ensures var r' := Step(r, Cancel(key), default);
            r'.wheel.Valid() && k in r'.ledger && Kept(r', k, default)
  {
    CancelReplaces(r.wheel, key, default);
    if Waiting(r.wheel, k) {
      CancelKeepsPending(r, key, k, default);
    } else {
      CancelKeepsShown(r, key, k, default);
    }
  }

  lemma CancelKeepsShown<T>(r: Run<T>, key: TimerKey, k: TimerKey, default: T)
    requires r.wheel.Valid() && key in r.ledger && k in r.ledger && Kept(r, key, default) && Kept(r, k, default)
    requires !Waiting(r.wheel, k)
    ensures var r' := Step(r, Cancel(key), default); r'.wheel.Valid() && k in r'.ledger && Kept(r', k, default)
  {
    var r' := Step(r, Cancel(key), default);
    CancelReplaces(r.wheel, key, default);
    var n: nat :| Shows(r, k, n, default);
    assert Shows(r', k, n, default);
  }

  lemma CancelKeepsPending<T>(r: Run<T>, key: TimerKey, k: TimerKey, default: T)
    requires r.wheel.Valid() && key in r.ledger && k in r.ledger && Kept(r, key, default) && Kept(r, k, default)
    requires Waiting(r.wheel, k)
    ensures var r' := Step(r, Cancel(key), default); r'.wheel.Valid() && k in r'.ledger && Kept(r', k, default)
  {
    CancelReplaces(r.wheel, key, default);
    if k == key {
      CancelPendingSame(r.wheel, key, r.ledger[k], default);
    } else {
      CancelPendingOther(r.wheel, key, k, r.ledger[k], default);
    }
  }

  lemma CancelPendingSame<T>(w: Wheel<T>, key: TimerKey, t: Ticket<T>, default: T)
    requires w.Valid() && key.levelIndex < |w.levels| && key.levelKey.bucketIndex < w.size
    requires Pending(w, key, t, default)
    ensures var w' := w.Cancel(key, default);
            && w'.Valid() && w' == w.(levels := w'.levels) && |w'.levels| == |w.levels|
            && Pending(w', key, t.(cancelled := true), default)
  {
    CancelReplaces(w, key, default);
  }

  lemma CancelPendingOther<T>(w: Wheel<T>, key: TimerKey, k: TimerKey, t: Ticket<T>, default: T)
    requires w.Valid() && key.levelIndex < |w.levels| && key.levelKey.bucketIndex < w.size
    requires key.levelKey.Position(w.size) < w.Cursor(key.levelIndex) + w.size
    requires k.levelIndex < |w.levels| && k.levelKey.bucketIndex < w.size && k != key && Pending(w, k, t, default)
    ensures var w' := w.Cancel(key, default);
            && w'.Valid() && w' == w.(levels := w'.levels) && |w'.levels| == |w.levels|
            && Pending(w', k, t, default)
  {
    CancelReplaces(w, key, default);
    if k.levelIndex == key.levelIndex && k.levelKey.Position(w.size) == key.levelKey.Position(w.size) {
      PositionInjective(k.levelKey, key.levelKey, w.size);
    }
  }

  lemma ProgressKeeps<T>(r: Run<T>, now: nat, default: T)
    requires Inv(r, default)
    ensures Inv(Step(r, Progress(now), default), default)
  {
    ProgressClock(r.wheel, now);
    ProgressKept(r, now, default);
    ProgressAccounted(r, now, default);
    ProgressLogged(r, now, default);
    ProgressDistinct(r, now, default);
  }

  lemma ProgressKept<T>(r: Run<T>, now: nat, default: T)
    requires r.wheel.Valid() && AllKept(r, default)
    ensures var r' := Step(r, Progress(now), default); r'.wheel.Valid() && AllKept(r', default)
  {
    var r' := Step(r, Progress(now), default);
    ProgressClock(r.wheel, now);
    forall k | k in r'.ledger ensures Kept(r', k, default) {
      ProgressKeepsKey(r, now, k, default);
    }
  }

  lemma ProgressAccounted<T>(r: Run<T>, now: nat, default: T)
    requires r.wheel.Valid() && Accounted(r)
    ensures var r' := Step(r, Progress(now), default); r'.wheel.Valid() && Accounted(r')
  {
    var w, r' := r.wheel, Step(r, Progress(now), default);
    ProgressClock(w, now);
    forall k: TimerKey, p: nat | Names(k, w.size, k.levelIndex, p, k.levelKey.elementIndex) &&
                                  k.levelKey.elementIndex < |r'.wheel.At(k.levelIndex, p)|
      ensures k in r'.ledger
    {
      CursorsGrow(w, now, k.levelIndex);
      ProgressPending(w, now, k.levelIndex, p);
    }
  }

  lemma ProgressLogged<T>(r: Run<T>, now: nat, default: T)
    requires r.wheel.Valid() && Accounted(r) && AllLogged(r)
    ensures var r' := Step(r, Progress(now), default); r'.wheel.Valid() && AllLogged(r')
  {
    var w, r' := r.wheel, Step(r, Progress(now), default);
    ProgressClock(w, now);
    forall i | 0 <= i < |r'.log| ensures Logged(r', i) {
      if i < |r.log| {
        ProgressLoggedOld(r, now, default, i);
      } else {
        ProgressLoggedNew(r, now, default, i - |r.log|);
      }
    }
  }

  lemma ProgressLoggedOld<T>(r: Run<T>, now: nat, default: T, i: nat)
    requires r.wheel.Valid() && i < |r.log| && Logged(r, i)
    ensures var r' := Step(r, Progress(now), default); r'.wheel.Valid() && Logged(r', i)
  {
    ProgressClock(r.wheel, now);
    CursorsGrow(r.wheel, now, r.log[i].firing.level);
  }

  lemma ProgressLoggedNew<T>(r: Run<T>, now: nat, default: T, i: nat)
    requires r.wheel.Valid() && Accounted(r) && i < |r.wheel.Progress(now).1|
    ensures var r' := Step(r, Progress(now), default);
            r'.wheel.Valid() && |r'.log| == |r.log| + |r.wheel.Progress(now).1| && Logged(r', |r.log| + i)
  {
    var w := r.wheel;
    var f := w.Progress(now).1[i];
    ProgressClock(w, now);
    ProgressEmits(w, now, i);
    ProgressPending(w, now, f.level, f.position);
  }

  lemma ProgressDistinct<T>(r: Run<T>, now: nat, default: T)
    requires r.wheel.Valid() && AllLogged(r) && Distinct(r.log)
    ensures Distinct(Step(r, Progress(now), default).log)
  {
    ProgressLogs(r, now, default);
    MoreDistinct(r, now, r.wheel.Progress(now).1, Step(r, Progress(now), default).log);
  }

  lemma MoreDistinct<T>(r: Run<T>, now: nat, out: seq<Firing<T>>, log: seq<Record<T>>)
    requires r.wheel.Valid() && AllLogged(r) && Distinct(r.log) && out == r.wheel.Progress(now).1
    requires |log| == |r.log| + |out| && r.log <= log
    requires forall i :: 0 <= i < |out| ==> log[|r.log| + i] == Record(out[i], now)
    ensures Distinct(log)
  {
    forall i, j | 0 <= i < j < |log|
      ensures (log[i].firing.level, log[i].firing.position) != (log[j].firing.level, log[j].firing.position)
    {
      if |r.log| <= j {
        assert log[|r.log| + (j - |r.log|)] == Record(out[j - |r.log|], now);
        if i < |r.log| {
          OldAndNew(r, now, i, j - |r.log|);
        } else {
          assert log[|r.log| + (i - |r.log|)] == Record(out[i - |r.log|], now);
          ProgressOnce(r.wheel, now, i - |r.log|, j - |r.log|);
        }
      }
    }
  }

  lemma OldAndNew<T>(r: Run<T>, now: nat, i: nat, j: nat)
    requires r.wheel.Valid() && i < |r.log| && Logged(r, i) && j < |r.wheel.Progress(now).1|
    ensures var f, g := r.log[i].firing, r.wheel.Progress(now).1[j];
            (f.level, f.position) != (g.level, g.position)
  {
    ProgressEmits(r.wheel, now, j);
  }

  lemma ProgressKeepsKey<T>(r: Run<T>, now: nat, key: TimerKey, default: T)
    requires r.wheel.Valid() && key in r.ledger && Kept(r, key, default)
    ensures var r' := Step(r, Progress(now), default);
            r'.wheel.Valid() && Kept(r', key, default)
  {
    var w, r' := r.wheel, Step(r, Progress(now), default);
    var (w', out) := w.Progress(now);
    var i, p := key.levelIndex, key.levelKey.Position(w.size);
    ProgressClock(w, now);
    if Waiting(w, key) {
      ProgressPending(w, now, i, p);
      if w.Due(i, p, now) {
        var k :| 0 <= k < |out| && out[k] == Firing(i, p, w.FireClock(i, p), w.At(i, p));
        assert Shows(r', key, |r.log| + k, default);
      } else {
        CursorsGrow(w, now, i);
      }
    } else {
      var n: nat :| Shows(r, key, n, default);
      assert Shows(r', key, n, default);
      CursorsGrow(w, now, i);
    }
  }

  lemma ScheduleKeeps<T>(r: Run<T>, event: T, at: nat, now: nat, default: T)
    requires Inv(r, default)
    ensures Inv(Step(r, Schedule(event, at, now), default), default)
  {
    SchedulePlaces(r.wheel, event, at, now);
    ScheduleKept(r, event, at, now, default);
    ScheduleAccounted(r, event, at, now, default);
    ScheduleLogged(r, event, at, now, default);
  }

  lemma ScheduleKept<T>(r: Run<T>, event: T, at: nat, now: nat, default: T)
    requires r.wheel.Valid() && AllKept(r, default)
    ensures var r' := Step(r, Schedule(event, at, now), default); r'.wheel.Valid() && AllKept(r', default)
  {
    var r' := Step(r, Schedule(event, at, now), default);
    var key := r.wheel.Schedule(event, at, now).1;
    SchedulePlaces(r.wheel, event, at, now);
    ScheduleIssues(r, event, at, now, default);
    forall k | k in r'.ledger ensures Kept(r', k, default) {
      if k != key {
        ScheduleKeepsKey(r, event, at, now, k, default);
      }
    }
  }

  lemma ScheduleAccounted<T>(r: Run<T>, event: T, at: nat, now: nat, default: T)
    requires r.wheel.Valid() && Accounted(r)
    ensures var r' := Step(r, Schedule(event, at, now), default); r'.wheel.Valid() && Accounted(r')
  {
    var w, r' := r.wheel, Step(r, Schedule(event, at, now), default);
    var (w', key) := w.Schedule(event, at, now);
    SchedulePlaces(w, event, at, now);
    forall k: TimerKey, p: nat | Names(k, w.size, k.levelIndex, p, k.levelKey.elementIndex) &&
                                  k.levelKey.elementIndex < |w'.At(k.levelIndex, p)|
      ensures k in r'.ledger
    {
      GrownAt(w, key.levelIndex, k.levelIndex, p);
      if k.levelKey.elementIndex >= |w.At(k.levelIndex, p)| {
        NamesOnce(k, key, w.size, k.levelIndex, p, k.levelKey.elementIndex);
      }
    }
  }

  lemma ScheduleLogged<T>(r: Run<T>, event: T, at: nat, now: nat, default: T)
    requires r.wheel.Valid() && AllLogged(r)
    ensures var r' := Step(r, Schedule(event, at, now), default); r'.wheel.Valid() && AllLogged(r')
  {
    var w, r' := r.wheel, Step(r, Schedule(event, at, now), default);
    var key := w.Schedule(event, at, now).1;
    SchedulePlaces(w, event, at, now);
    forall i | 0 <= i < |r'.log| ensures Logged(r', i) {
      assert Logged(r, i);
      var f := r.log[i].firing;
      GrownAt(w, key.levelIndex, f.level, f.position);
    }
  }

  lemma ScheduleIssues<T>(r: Run<T>, event: T, at: nat, now: nat, default: T)
    requires r.wheel.Valid()
    ensures var r' := Step(r, Schedule(event, at, now), default);
            var key := r.wheel.Schedule(event, at, now).1;
            r'.wheel.Valid() && key in r'.ledger && Kept(r', key, default)
  {
    var w := r.wheel;
    SchedulePlaces(w, event, at, now);
    var duration := Saturating(at, now);
    if LevelTicks(w.hz, duration, LevelIndex(w.coverage, duration)) < w.size {
      if now <= w.clock { ScheduleNotEarly(w, at, now); }
      if w.clock <= now + w.hz { ScheduleLateness(w, at, now); }
    }
  }

  lemma ScheduleKeepsKey<T>(r: Run<T>, event: T, at: nat, now: nat, k: TimerKey, default: T)
    requires r.wheel.Valid() && k in r.ledger && Kept(r, k, default)
    ensures var r' := Step(r, Schedule(event, at, now), default);
            && r'.wheel.Valid() && k in r'.ledger && Kept(r', k, default)
            && k != r.wheel.Schedule(event, at, now).1
  {
    var w := r.wheel;
    var (w', key) := w.Schedule(event, at, now);
    SchedulePlaces(w, event, at, now);
    GrownAt(w, key.levelIndex, k.levelIndex, k.levelKey.Position(w.size));
    assert k != key;
    if Waiting(w, k) {
      ScheduleKeepsTicket(r, event, at, now, k, default);
    } else {
      var r' := Step(r, Schedule(event, at, now), default);
      assert r'.ledger[k] == r.ledger[k];
      var n: nat :| Shows(r, k, n, default);
      assert Shows(r', k, n, default);
    }
  }

  lemma ScheduleKeepsTicket<T>(r: Run<T>, event: T, at: nat, now: nat, k: TimerKey, default: T)
    requires r.wheel.Valid() && k in r.ledger && Kept(r, k, default) && Waiting(r.wheel, k)
    requires k != r.wheel.Schedule(event, at, now).1
    ensures var r' := Step(r, Schedule(event, at, now), default);
            r'.wheel.Valid() && k in r'.ledger && Kept(r', k, default)
  {
    SchedulePlaces(r.wheel, event, at, now);
    ScheduleKeepsPending(r.wheel, event, at, now, k, r.ledger[k], default);
  }

  lemma ScheduleKeepsPending<T>(w: Wheel<T>, event: T, at: nat, now: nat, key: TimerKey, t: Ticket<T>, default: T)
    requires w.Valid() && key.levelIndex < |w.levels| && Pending(w, key, t, default)
    ensures var w' := w.Schedule(event, at, now).0;
            && w'.Valid() && |w.levels| <= |w'.levels|
            && w'.Cursor(key.levelIndex) == w.Cursor(key.levelIndex)
            && (|w'.levels| == |w.levels| ==> Pending(w', key, t, default))
            && (|w'.levels| != |w.levels| ==> Pending(w', key, t.(growths := t.growths + 1), default))
  {
    var w' := w.Schedule(event, at, now).0;
    var i, p := key.levelIndex, key.levelKey.Position(w.size);
    ScheduleKeepsWaiting(w, event, at, now, i, p);
    SchedulePlaces(w, event, at, now);
    var t' := t.(growths := t.growths + 1);
    assert t'.Latest(i, w.hz) == t.Latest(i, w.hz) + Times(Pow2(i) - 1, w.hz);
  }

  // ----- Runs -----

  ghost function Execute<T>(hz: nat, coverage: nat, start: nat, ops: seq<Op<T>>, default: T): (r: Run<T>)
    requires 0 < hz <= coverage
    ensures Inv(r, default)
  {
    if ops == [] then Run(NewWheel(hz, coverage, start), map[], [])
    else
      var r := Execute(hz, coverage, start, ops[..|ops| - 1], default);
      StepKeeps(r, ops[|ops| - 1], default);
      Step(r, ops[|ops| - 1], default)
  }

  /** The invariant is kept by every operation. */
  lemma StepKeeps<T>(r: Run<T>, op: Op<T>, default: T)
    requires Inv(r, default)
    ensures Inv(Step(r, op, default), default)
  {
    match op
    case Schedule(event, at, now) => ScheduleKeeps(r, event, at, now, default);
    case Cancel(key) => CancelKeeps(r, key, default);
    case Progress(now) => ProgressKeeps(r, now, default);
  }

  /** What a schedule enters in the ledger: the promises hold of it exactly if the delay is
      outside an exact ring's last tick, on a clock that has caught up and one that is at
      most a tick ahead, respectively. */
  lemma ScheduleTicket<T>(r: Run<T>, event: T, at: nat, now: nat, default: T)
    requires Inv(r, default)
    ensures var r', key := Step(r, Schedule(event, at, now), default), r.wheel.Schedule(event, at, now).1;
            var w, last := r.wheel, LastTick(r.wheel.hz, r.wheel.coverage, Saturating(at, now));
            && key in r'.ledger && r'.log == r.log
            && var t := r'.ledger[key];
            && t.event == event && t.at == at && t.now == now && t.growths == 0 && !t.cancelled
            && t.due == w.ScheduledClock(at, now)
            && (t.sound <==> !last && now <= w.clock)
            && (t.prompt <==> !last && w.clock <= now + w.hz)
  {
    TicksFit(r.wheel.hz, r.wheel.coverage, Saturating(at, now));
    LevelOfKey(r.wheel, event, at, now);
  }

  lemma LevelOfKey<T>(w: Wheel<T>, event: T, at: nat, now: nat)
    requires w.Valid()
    ensures w.Schedule(event, at, now).1.levelIndex == LevelIndex(w.coverage, Saturating(at, now))
  {
  }

  /** Nothing else ever changes a ticket but its cancelling while it waits, and the growth
      of the wheel while it waits. */
  lemma TicketStays<T>(r: Run<T>, op: Op<T>, key: TimerKey, default: T)
    requires Inv(r, default) && key in r.ledger
    ensures var r', t := Step(r, op, default), r.ledger[key];
            && key in r'.ledger
            && r'.ledger[key] == t.(growths := r'.ledger[key].growths, cancelled := r'.ledger[key].cancelled)
            && (r'.ledger[key].cancelled <==> t.cancelled || (op == Cancel(key) && Waiting(r.wheel, key)))
            && r'.ledger[key].growths
               == if Waiting(r.wheel, key) && |r'.wheel.levels| != |r.wheel.levels| then t.growths + 1 else t.growths
  {
    match op
    case Schedule(event, at, now) => ScheduleStays(r, event, at, now, key, default);
    case Cancel(k) => CancelStays(r, k, key, default);
    case Progress(now) => ProgressClock(r.wheel, now);
  }

  lemma CancelStays<T>(r: Run<T>, k: TimerKey, key: TimerKey, default: T)
    requires Inv(r, default) && key in r.ledger
    ensures var r', t := Step(r, Cancel(k), default), r.ledger[key];
            && key in r'.ledger && |r'.wheel.levels| == |r.wheel.levels|
            && r'.ledger[key] == if k == key && Waiting(r.wheel, key) then t.(cancelled := true) else t
  {
    assert Kept(r, key, default);
  }

  lemma ScheduleStays<T>(r: Run<T>, event: T, at: nat, now: nat, key: TimerKey, default: T)
    requires Inv(r, default) && key in r.ledger
    ensures var r', t := Step(r, Schedule(event, at, now), default), r.ledger[key];
            && key in r'.ledger
            && r'.ledger[key]
               == if Waiting(r.wheel, key) && |r'.wheel.levels| != |r.wheel.levels|
                  then t.(growths := t.growths + 1) else t
  {
    assert Kept(r, key, default);
    ScheduleKeepsKey(r, event, at, now, key, default);
  }

  /** A progress adds the buckets it hands out to the log, each with the time it was
      called with. */
  lemma ProgressLogs<T>(r: Run<T>, now: nat, default: T)
    requires r.wheel.Valid()
    ensures var r', out := Step(r, Progress(now), default), r.wheel.Progress(now).1;
            && r'.wheel == r.wheel.Progress(now).0 && |r'.log| == |r.log| + |out| && r.log <= r'.log
            && forall i :: 0 <= i < |out| ==> r'.log[|r.log| + i] == Record(out[i], now)
  {
  }

  /** In every run, every event handed out was scheduled exactly once, is handed out in no other
      bucket, is its value or, if cancelled while waiting, the default; it never
      arrives before `at` when scheduled on a clock that had caught up and outside
      an exact ring's last tick, and never later than its prediction, itself
      bounded, plus the growth delays. */
  lemma RunHandsOut<T>(hz: nat, coverage: nat, start: nat, ops: seq<Op<T>>, default: T, i: nat, key: TimerKey)
    requires 0 < hz <= coverage
    requires var r := Execute(hz, coverage, start, ops, default);
             && i < |r.log| && key.levelKey.elementIndex < |r.log[i].firing.events|
             && Names(key, r.wheel.size, r.log[i].firing.level, r.log[i].firing.position, key.levelKey.elementIndex)
    ensures var r := Execute(hz, coverage, start, ops, default);
            var f := r.log[i].firing;
            && key in r.ledger
            && f.events[key.levelKey.elementIndex] == r.ledger[key].Value(default)
            && (r.ledger[key].sound ==> r.ledger[key].at <= r.log[i].seen)
            && r.ledger[key].Bounded(f.level, r.wheel.hz)
            && r.ledger[key].due <= f.clock <= r.ledger[key].Latest(f.level, r.wheel.hz)
            && !Waiting(r.wheel, key)
            && forall j :: 0 <= j < |r.log| && j != i ==>
                 (r.log[j].firing.level, r.log[j].firing.position) != (f.level, f.position)
  {
    var r := Execute(hz, coverage, start, ops, default);
    assert Logged(r, i);
    assert Kept(r, key, default);
    var n: nat :| Shows(r, key, n, default);
    assert n == i;
  }

  /** In every run, every scheduled event is still waiting under its key or has
      been handed out: none is lost. */
  lemma RunLosesNothing<T>(hz: nat, coverage: nat, start: nat, ops: seq<Op<T>>, default: T, key: TimerKey)
    requires 0 < hz <= coverage
    requires key in Execute(hz, coverage, start, ops, default).ledger
    ensures var r := Execute(hz, coverage, start, ops, default);
            var p := key.levelKey.Position(r.wheel.size);
            var e := key.levelKey.elementIndex;
            if Waiting(r.wheel, key)
            then e < |r.wheel.At(key.levelIndex, p)| &&
                 r.wheel.At(key.levelIndex, p)[e] == r.ledger[key].Value(default)
            else exists i ::
                   && 0 <= i < |r.log| && r.log[i].firing.level == key.levelIndex
                   && r.log[i].firing.position == p && e < |r.log[i].firing.events|
                   && r.log[i].firing.events[e] == r.ledger[key].Value(default)
  {
    var r := Execute(hz, coverage, start, ops, default);
    assert Kept(r, key, default);
    if !Waiting(r.wheel, key) {
      var n: nat :| Shows(r, key, n, default);
    }
  }
}
