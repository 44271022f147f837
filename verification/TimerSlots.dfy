/** The timers of connections: one wheel for all of them, and for each connection a
    slot per kind of timer with the key of its latest event. */
module TimerSlots {
  import opened Basics
  import opened TimerArithmetic
  import opened TimerLevel
  import opened TimerWheel
  import TimerImpl
  import TR = TimerRun

  datatype Kind = Pacer | QuicheTimeout | EstablishTimeout

  datatype Event = Event(connection: nat, kind: Kind)

  type Run = TR.Run<Option<Event>>

  /** The wheel with its history, the live connections and their slots. */
  datatype Desk = Desk(run: Run, live: set<nat>, slots: map<Event, TimerKey>)

  datatype Op =
    | Register(connection: nat)
    | Reschedule(event: Event, at: nat, now: nat)
    | CancelKind(event: Event)
    | Forget(connection: nat)
    | Tick(now: nat)

  // ----- The operations -----

  /** Takes the key out of a slot and cancels what it names. */
  ghost function CancelSlot(d: Desk, e: Event): Desk
    requires d.run.wheel.Valid()
  {
    if e in d.slots then Desk(TR.Step(d.run, TR.Cancel(d.slots[e]), None), d.live, d.slots - {e}) else d
  }

  ghost function Put(d: Desk, e: Event, at: nat, now: nat): Desk
    requires d.run.wheel.Valid()
  {
    Desk(TR.Step(d.run, TR.Schedule(Some(e), at, now), None), d.live,
         d.slots[e := d.run.wheel.Schedule(Some(e), at, now).1])
  }

  ghost function Do(d: Desk, op: Op): Desk
    requires SlotInv(d)
  {
    match op
    case Register(c) => d.(live := d.live + {c})
    case Reschedule(e, at, now) =>
      if e.connection !in d.live then d
      else
        CancelSlotKeeps(d, e);
        Put(CancelSlot(d, e), e, at, now)
    case CancelKind(e) => if e.connection in d.live then CancelSlot(d, e) else d
    case Forget(c) =>
      if c !in d.live then d
      else
        CancelSlotKeeps(d, Event(c, Pacer));
        var d1 := CancelSlot(d, Event(c, Pacer));
        CancelSlotKeeps(d1, Event(c, QuicheTimeout));
        var d2 := CancelSlot(d1, Event(c, QuicheTimeout));
        CancelSlotKeeps(d2, Event(c, EstablishTimeout));
        var d3 := CancelSlot(d2, Event(c, EstablishTimeout));
        d3.(live := d3.live - {c})
    case Tick(now) => d.(run := TR.Step(d.run, TR.Progress(now), None))
  }

  // ----- The invariant -----

  /** The event of a key is still to come. */
  ghost predicate Alive(r: Run, k: TimerKey) {
    k in r.ledger && TR.Waiting(r.wheel, k) && !r.ledger[k].cancelled
  }

  /** What is to come under a key is the event of the slot that holds it. */
  ghost predicate InSlot(r: Run, slots: map<Event, TimerKey>, k: TimerKey)
    requires k in r.ledger
  {
    var e := r.ledger[k].event;
    e.Some? && e.value in slots && slots[e.value] == k
  }

  ghost predicate Slotted(r: Run, slots: map<Event, TimerKey>) {
    forall k :: Alive(r, k) ==> InSlot(r, slots, k)
  }

  /** The key in a slot was issued for an event of that slot. */
  ghost predicate Issued(r: Run, live: set<nat>, slots: map<Event, TimerKey>) {
    forall e :: e in slots ==> slots[e] in r.ledger && r.ledger[slots[e]].event == Some(e) && e.connection in live
  }

  ghost predicate SlotInv(d: Desk) {
    TR.Inv(d.run, None) && Issued(d.run, d.live, d.slots) && Slotted(d.run, d.slots)
  }

  // ----- What operations do to events to come -----

  lemma CancelAlive(r: Run, key: TimerKey, k: TimerKey)
    requires TR.Inv(r, None) && key in r.ledger
    ensures var r' := TR.Step(r, TR.Cancel(key), None);
            && r'.ledger.Keys == r.ledger.Keys
            && (Alive(r', k) ==> Alive(r, k) && k != key && r'.ledger[k] == r.ledger[k])
  {
    assert TR.Kept(r, key, None);
    CancelReplaces(r.wheel, key, None);
  }

  lemma ScheduleFresh(r: Run, e: Event, at: nat, now: nat)
    requires TR.Inv(r, None)
    ensures r.wheel.Schedule(Some(e), at, now).1 !in r.ledger
  {
    var key := r.wheel.Schedule(Some(e), at, now).1;
    if key in r.ledger {
      TR.ScheduleKeepsKey(r, Some(e), at, now, key, None);
    }
  }

  lemma ScheduleAlive(r: Run, e: Event, at: nat, now: nat, k: TimerKey)
    requires TR.Inv(r, None)
    ensures var r' := TR.Step(r, TR.Schedule(Some(e), at, now), None);
            var key := r.wheel.Schedule(Some(e), at, now).1;
            && r'.ledger.Keys == r.ledger.Keys + {key}
            && r'.ledger[key].event == Some(e)
            && (k != key && Alive(r', k) ==> Alive(r, k) && r'.ledger[k].event == r.ledger[k].event)
  {
    var key := r.wheel.Schedule(Some(e), at, now).1;
    if k in r.ledger {
      assert TR.Kept(r, k, None);
      SchedulePlaces(r.wheel, Some(e), at, now);
      GrownAt(r.wheel, key.levelIndex, k.levelIndex, 0);
    }
  }

  lemma ProgressAlive(r: Run, now: nat, k: TimerKey)
    requires TR.Inv(r, None)
    ensures var r' := TR.Step(r, TR.Progress(now), None);
            r'.ledger == r.ledger && (Alive(r', k) ==> Alive(r, k))
  {
    if k in r.ledger {
      assert TR.Kept(r, k, None);
      ProgressClock(r.wheel, now);
      CursorsGrow(r.wheel, now, k.levelIndex);
    }
  }

  // ----- Each operation keeps the invariant -----

  /** Cancelling the slot of an event leaves none of that event to come. */
  lemma CancelSlotKeeps(d: Desk, e: Event)
    requires SlotInv(d)
    ensures SlotInv(CancelSlot(d, e)) && CancelSlot(d, e).live == d.live
    ensures CancelSlot(d, e).slots == d.slots - {e}
  {
    if e in d.slots {
      TR.StepKeeps(d.run, TR.Cancel(d.slots[e]), None);
      CancelSlotted(d.run, d.live, d.slots, e);
    }
  }

  lemma CancelSlotted(r: Run, live: set<nat>, slots: map<Event, TimerKey>, e: Event)
    requires TR.Inv(r, None) && Issued(r, live, slots) && Slotted(r, slots) && e in slots
    ensures var r' := TR.Step(r, TR.Cancel(slots[e]), None);
            Issued(r', live, slots - {e}) && Slotted(r', slots - {e})
  {
    var key, r' := slots[e], TR.Step(r, TR.Cancel(slots[e]), None);
    forall k | Alive(r', k) ensures InSlot(r', slots - {e}, k) {
      CancelAlive(r, key, k);
      assert InSlot(r, slots, k);
    }
    IssuedStays(r, live, slots, TR.Cancel(key));
  }

  /** Whatever happens, issued keys stay issued, for the same event. */
  lemma IssuedStays(r: Run, live: set<nat>, slots: map<Event, TimerKey>, op: TR.Op<Option<Event>>)
    requires TR.Inv(r, None) && Issued(r, live, slots)
    ensures Issued(TR.Step(r, op, None), live, slots)
  {
    forall e | e in slots
      ensures var r' := TR.Step(r, op, None); slots[e] in r'.ledger && r'.ledger[slots[e]].event == Some(e)
    {
      TR.TicketStays(r, op, slots[e], None);
    }
  }

  lemma PutKeeps(d: Desk, e: Event, at: nat, now: nat)
    requires SlotInv(d) && e !in d.slots && e.connection in d.live
    ensures SlotInv(Put(d, e, at, now))
  {
    TR.StepKeeps(d.run, TR.Schedule(Some(e), at, now), None);
    PutSlotted(d.run, d.live, d.slots, e, at, now);
  }

  lemma PutSlotted(r: Run, live: set<nat>, slots: map<Event, TimerKey>, e: Event, at: nat, now: nat)
    requires TR.Inv(r, None) && Issued(r, live, slots) && Slotted(r, slots) && e !in slots && e.connection in live
    ensures var r' := TR.Step(r, TR.Schedule(Some(e), at, now), None);
            var slots' := slots[e := r.wheel.Schedule(Some(e), at, now).1];
            Issued(r', live, slots') && Slotted(r', slots')
  {
    var key, r' := r.wheel.Schedule(Some(e), at, now).1, TR.Step(r, TR.Schedule(Some(e), at, now), None);
    var slots' := slots[e := key];
    ScheduleFresh(r, e, at, now);
    ScheduleAlive(r, e, at, now, key);
    IssuedStays(r, live, slots, TR.Schedule(Some(e), at, now));
    forall k | Alive(r', k) ensures InSlot(r', slots', k) {
      ScheduleAlive(r, e, at, now, k);
      if k != key {
        assert InSlot(r, slots, k);
      }
    }
  }

  lemma TickKeeps(d: Desk, now: nat)
    requires SlotInv(d)
    ensures SlotInv(Do(d, Tick(now)))
  {
    var d' := Do(d, Tick(now));
    TR.StepKeeps(d.run, TR.Progress(now), None);
    forall k | Alive(d'.run, k) ensures InSlot(d'.run, d'.slots, k) {
      ProgressAlive(d.run, now, k);
      assert InSlot(d.run, d.slots, k);
    }
  }

  lemma ForgetKeeps(d: Desk, c: nat)
    requires SlotInv(d)
    ensures SlotInv(Do(d, Forget(c)))
  {
    if c in d.live {
      CancelSlotKeeps(d, Event(c, Pacer));
      var d1 := CancelSlot(d, Event(c, Pacer));
      CancelSlotKeeps(d1, Event(c, QuicheTimeout));
      var d2 := CancelSlot(d1, Event(c, QuicheTimeout));
      CancelSlotKeeps(d2, Event(c, EstablishTimeout));
      var d3 := CancelSlot(d2, Event(c, EstablishTimeout));
      forall e | e in d3.slots ensures e.connection != c {
        match e.kind {
          case Pacer =>
          case QuicheTimeout =>
          case EstablishTimeout =>
        }
      }
    }
  }

  lemma DoKeeps(d: Desk, op: Op)
    requires SlotInv(d)
    ensures SlotInv(Do(d, op))
  {
    match op
    case Register(_) =>
    case Reschedule(e, at, now) =>
      if e.connection in d.live {
        CancelSlotKeeps(d, e);
        PutKeeps(CancelSlot(d, e), e, at, now);
      }
    case CancelKind(e) => CancelSlotKeeps(d, e);
    case Forget(c) => ForgetKeeps(d, c);
    case Tick(now) => TickKeeps(d, now);
  }

  ghost function Execute(hz: nat, coverage: nat, start: nat, ops: seq<Op>): (d: Desk)
    requires 0 < hz <= coverage
    ensures SlotInv(d)
  {
    if ops == [] then Desk(TR.Execute(hz, coverage, start, [], None), {}, map[])
    else
      var d := Execute(hz, coverage, start, ops[..|ops| - 1]);
      DoKeeps(d, ops[|ops| - 1]);
      Do(d, ops[|ops| - 1])
  }

  /** The wheel holds an event as element `i` of a position. */
  ghost predicate Holds(w: Wheel<Option<Event>>, level: nat, p: nat, i: nat, e: Event) {
    w.Valid() && i < |w.At(level, p)| && w.At(level, p)[i] == Some(e)
  }

  /** Every element that waits in the wheel can be named. */
  lemma KeyOf(w: Wheel<Option<Event>>, level: nat, p: nat, i: nat) returns (k: TimerKey)
    requires w.Valid() && i < |w.At(level, p)|
    ensures TR.Names(k, w.size, level, p, i) && TR.Waiting(w, k)
  {
    var ring := w.levels[level];
    var b := ring.index + (p - ring.Position());
    k := TimerKey(if b < w.size then LevelKey(b, i, ring.epoch) else LevelKey(b - w.size, i, ring.epoch + 1), level);
  }

  /** In every run, an event in the wheel is of a live connection, and is the one its
      slot holds the key of. */
  lemma SlotHoldsIt(hz: nat, coverage: nat, start: nat, ops: seq<Op>, level: nat, p: nat, i: nat, e: Event)
    requires 0 < hz <= coverage && Holds(Execute(hz, coverage, start, ops).run.wheel, level, p, i, e)
    ensures var d := Execute(hz, coverage, start, ops);
            e.connection in d.live && e in d.slots && TR.Names(d.slots[e], d.run.wheel.size, level, p, i)
  {
    var d := Execute(hz, coverage, start, ops);
    var r := d.run;
    var k := KeyOf(r.wheel, level, p, i);
    assert TR.Names(k, r.wheel.size, k.levelIndex, p, k.levelKey.elementIndex);
    assert TR.Kept(r, k, None);
    assert Alive(r, k) && InSlot(r, d.slots, k);
  }

  /** So there is at most one event of a connection and kind, and none is left of a
      connection that was forgotten. */
  lemma AtMostOne(hz: nat, coverage: nat, start: nat, ops: seq<Op>, level: nat, p: nat, i: nat,
                  level': nat, p': nat, i': nat, e: Event)
    requires 0 < hz <= coverage && Holds(Execute(hz, coverage, start, ops).run.wheel, level, p, i, e)
    requires Holds(Execute(hz, coverage, start, ops).run.wheel, level', p', i', e)
    ensures level == level' && p == p' && i == i'
  {
    SlotHoldsIt(hz, coverage, start, ops, level, p, i, e);
    SlotHoldsIt(hz, coverage, start, ops, level', p', i', e);
  }

  lemma NoneAfterForget(hz: nat, coverage: nat, start: nat, ops: seq<Op>, c: nat, level: nat, p: nat, i: nat,
                        kind: Kind)
    requires 0 < hz <= coverage
    ensures !Holds(Execute(hz, coverage, start, ops + [Forget(c)]).run.wheel, level, p, i, Event(c, kind))
  {
    var all := ops + [Forget(c)];
    LastOp(hz, coverage, start, ops, Forget(c));
    ForgetLive(Execute(hz, coverage, start, ops), c);
    if Holds(Execute(hz, coverage, start, all).run.wheel, level, p, i, Event(c, kind)) {
      SlotHoldsIt(hz, coverage, start, all, level, p, i, Event(c, kind));
    }
  }

  /** A cancelled timer is gone. */
  lemma NoneAfterCancel(hz: nat, coverage: nat, start: nat, ops: seq<Op>, e: Event, level: nat, p: nat, i: nat)
    requires 0 < hz <= coverage
    ensures !Holds(Execute(hz, coverage, start, ops + [CancelKind(e)]).run.wheel, level, p, i, e)
  {
    var all := ops + [CancelKind(e)];
    LastOp(hz, coverage, start, ops, CancelKind(e));
    CancelSlotKeeps(Execute(hz, coverage, start, ops), e);
    if Holds(Execute(hz, coverage, start, all).run.wheel, level, p, i, e) {
      SlotHoldsIt(hz, coverage, start, all, level, p, i, e);
    }
  }

  /** The last `Register` of a connection comes after its last `Forget`. */
  ghost predicate Registered(ops: seq<Op>, c: nat) {
    exists i :: 0 <= i < |ops| && ops[i] == Register(c) && Forget(c) !in ops[i..]
  }

  /** The live connections are those registered and not forgotten since. */
  lemma {:induction false} LiveIffRegistered(hz: nat, coverage: nat, start: nat, ops: seq<Op>, c: nat)
    requires 0 < hz <= coverage
    ensures c in Execute(hz, coverage, start, ops).live <==> Registered(ops, c)
  {
    if ops != [] {
      var front, op := ops[..|ops| - 1], ops[|ops| - 1];
      LiveIffRegistered(hz, coverage, start, front, c);
      var d := Execute(hz, coverage, start, front);
      LiveStep(d, op, c);
      RegisteredStep(front, op, c);
      assert ops == front + [op];
    }
  }

  lemma LiveStep(d: Desk, op: Op, c: nat)
    requires SlotInv(d)
    ensures c in Do(d, op).live <==> op == Register(c) || (c in d.live && op != Forget(c))
  {
    match op
    case Register(_) =>
    case Reschedule(e, at, now) => CancelSlotKeeps(d, e);
    case CancelKind(e) => CancelSlotKeeps(d, e);
    case Forget(_) =>
    case Tick(_) =>
  }

  lemma RegisteredStep(ops: seq<Op>, op: Op, c: nat)
    ensures Registered(ops + [op], c) <==> op == Register(c) || (Registered(ops, c) && op != Forget(c))
  {
    var all := ops + [op];
    if op == Register(c) {
      assert all[|ops|] == Register(c) && all[|ops|..] == [op];
    } else if Registered(ops, c) && op != Forget(c) {
      var i :| 0 <= i < |ops| && ops[i] == Register(c) && Forget(c) !in ops[i..];
      assert all[i] == Register(c) && all[i..] == ops[i..] + [op];
    } else {
      forall i | 0 <= i < |all| && all[i] == Register(c) ensures Forget(c) in all[i..] {
        assert all[i..] == ops[i..] + [op];
      }
    }
  }

  lemma LastOp(hz: nat, coverage: nat, start: nat, ops: seq<Op>, op: Op)
    requires 0 < hz <= coverage
    ensures Execute(hz, coverage, start, ops + [op]) == Do(Execute(hz, coverage, start, ops), op)
  {
    assert (ops + [op])[..|ops|] == ops;
  }

  lemma ForgetLive(d: Desk, c: nat)
    requires SlotInv(d)
    ensures c !in Do(d, Forget(c)).live
  {
  }

  // ----- The operations as they run -----

  /** A wheel after a key, if any, is cancelled. */
  function CancelIn(w: Wheel<Option<Event>>, key: Option<TimerKey>): Wheel<Option<Event>> {
    if key.Some? && w.Valid() && key.value.levelKey.bucketIndex < w.size then w.Cancel(key.value, None) else w
  }

  /** The timer slots of a connection. */
  class TimerKeys {
    var pacer: Option<TimerKey>
    var quicheTimeout: Option<TimerKey>
    var establishTimeout: Option<TimerKey>

    constructor ()
      ensures forall kind :: Get(kind) == None
    {
      pacer, quicheTimeout, establishTimeout := None, None, None;
    }

    function Get(kind: Kind): Option<TimerKey>
      reads this
    {
      match kind
      case Pacer => pacer
      case QuicheTimeout => quicheTimeout
      case EstablishTimeout => establishTimeout
    }

    method PopTimerKey(kind: Kind) returns (key: Option<TimerKey>)
      modifies this
      ensures key == old(Get(kind)) && Get(kind) == None
      ensures forall other :: other != kind ==> Get(other) == old(Get(other))
    {
      key := Get(kind);
      SetTimerKey(kind, None);
    }

    method SetTimerKey(kind: Kind, key: Option<TimerKey>)
      modifies this
      ensures Get(kind) == key
      ensures forall other :: other != kind ==> Get(other) == old(Get(other))
    {
      match kind {
        case Pacer => pacer := key;
        case QuicheTimeout => quicheTimeout := key;
        case EstablishTimeout => establishTimeout := key;
      }
    }
  }

  class Time {
    const timer: TimerImpl.WheelTimer<Option<Event>>
    var firedEvents: seq<seq<Option<Event>>>
    var clockMono: nat

    /** A millisecond timer whose first level covers 64 of them, in nanoseconds. */
    constructor (now: nat)
      ensures timer.Valid() && fresh(timer) && timer.View() == NewWheel(1_000_000, 64_000_000, now)
      ensures firedEvents == [] && clockMono == now
    {
      timer := new TimerImpl.WheelTimer(1_000_000, 64_000_000, now);
      firedEvents, clockMono := [], now;
    }

    method Cancel(key: TimerKey)
      requires timer.Valid() && key.levelKey.bucketIndex < timer.View().size
      modifies timer
      ensures timer.View() == old(timer.View()).Cancel(key, None)
    {
      timer.Cancel(key, None);
    }

    method Reschedule(event: Event, at: nat, previous: Option<TimerKey>) returns (key: TimerKey)
      requires timer.Valid() && (previous.Some? ==> Cancellable(timer.View(), previous.value))
      modifies timer
      ensures timer.Valid()
      ensures var w := CancelIn(old(timer.View()), previous);
              w.Valid() && (timer.View(), key) == w.Schedule(Some(event), at, clockMono)
    {
      if previous.Some? {
        CancelValid(timer.View(), previous.value);
        Cancel(previous.value);
      }
      key := timer.Schedule(Some(event), at, clockMono);
    }

    /** Reschedules the timer of one kind, through its slot. */
    method RescheduleSlot(keys: TimerKeys, event: Event, at: nat)
      requires timer.Valid() && (keys.Get(event.kind).Some? ==> Cancellable(timer.View(), keys.Get(event.kind).value))
      modifies timer, keys
      ensures timer.Valid()
      ensures var w := CancelIn(old(timer.View()), old(keys.Get(event.kind)));
              && w.Valid() && keys.Get(event.kind).Some?
              && (timer.View(), keys.Get(event.kind).value) == w.Schedule(Some(event), at, clockMono)
      ensures forall other :: other != event.kind ==> keys.Get(other) == old(keys.Get(other))
    {
      var previous := keys.PopTimerKey(event.kind);
      var key := Reschedule(event, at, previous);
      keys.SetTimerKey(event.kind, Some(key));
    }

    /** Empties all slots of a connection, cancelling what they hold. */
    method CancelAll(keys: TimerKeys)
      requires timer.Valid()
      requires forall kind :: keys.Get(kind).Some? ==> Cancellable(timer.View(), keys.Get(kind).value)
      modifies timer, keys
      ensures timer.Valid() && forall kind :: keys.Get(kind) == None
      ensures timer.View() == CancelIn(CancelIn(CancelIn(old(timer.View()), old(keys.Get(Pacer))),
                                                old(keys.Get(QuicheTimeout))), old(keys.Get(EstablishTimeout)))
    {
      var pacer := keys.PopTimerKey(Pacer);
      var quicheTimeout := keys.PopTimerKey(QuicheTimeout);
      var establishTimeout := keys.PopTimerKey(EstablishTimeout);
      CancelIfAny(pacer);
      CancelIfAny(quicheTimeout);
      CancelIfAny(establishTimeout);
    }

    method CancelIfAny(key: Option<TimerKey>)
      requires timer.Valid() && (key.Some? ==> Cancellable(timer.View(), key.value))
      modifies timer
      ensures timer.Valid() && timer.View() == CancelIn(old(timer.View()), key)
      ensures forall k :: Cancellable(old(timer.View()), k) ==> Cancellable(timer.View(), k)
    {
      if key.Some? {
        CancelValid(timer.View(), key.value);
        Cancel(key.value);
      }
    }

    /** Collects the buckets due, behind those not handled yet; returns when to call
        again and whether there is anything to handle. */
    method Tick() returns (next: nat, pending: bool)
      requires timer.Valid()
      modifies timer, this`firedEvents
      ensures timer.Valid() && timer.View() == old(timer.View()).Progress(clockMono).0
      ensures firedEvents == old(firedEvents) + TimerImpl.Events(old(timer.View()).Progress(clockMono).1)
      ensures exists at :: HandsOut(old(timer.View()), clockMono, at, firedEvents[|old(firedEvents)|..])
      ensures next == timer.currentClock > clockMono && (pending <==> firedEvents != [])
    {
      var out;
      out, next := timer.Progress(clockMono);
      firedEvents := firedEvents + out;
      assert firedEvents[|old(firedEvents)|..] == out;
      pending := firedEvents != [];
    }
  }

  /** A key a wheel of this shape may have issued. */
  predicate Cancellable(w: Wheel<Option<Event>>, key: TimerKey) {
    w.Valid() && key.levelIndex < |w.levels| && key.levelKey.bucketIndex < w.size
    && key.levelKey.Position(w.size) < w.Cursor(key.levelIndex) + w.size
  }

  lemma CancelValid(w: Wheel<Option<Event>>, key: TimerKey)
    requires Cancellable(w, key)
    ensures w.Cancel(key, None).Valid()
    ensures forall k :: Cancellable(w, k) ==> Cancellable(w.Cancel(key, None), k)
  {
    CancelReplaces(w, key, None);
  }

  // ----- The run is that of `Time` and the slots -----

  function SlotOf(d: Desk, e: Event): Option<TimerKey> {
    if e in d.slots then Some(d.slots[e]) else None
  }

  lemma CancelSlotIsCancelIn(d: Desk, e: Event)
    requires SlotInv(d)
    ensures CancelSlot(d, e).run.wheel == CancelIn(d.run.wheel, SlotOf(d, e))
    ensures forall other :: other != e ==> SlotOf(CancelSlot(d, e), other) == SlotOf(d, other)
    ensures e in d.slots ==> Cancellable(d.run.wheel, d.slots[e])
  {
    if e in d.slots {
      assert TR.Kept(d.run, d.slots[e], None);
    }
  }

  /** A tick of the run is that of the timer. */
  lemma TickIsTime(d: Desk, now: nat)
    requires SlotInv(d)
    ensures Do(d, Tick(now)).run.wheel == d.run.wheel.Progress(now).0 && Do(d, Tick(now)).slots == d.slots
  {
    TR.ProgressLogs(d.run, now, None);
  }

  lemma RescheduleIsTime(d: Desk, e: Event, at: nat, now: nat)
    requires SlotInv(d) && e.connection in d.live
    ensures var w, d' := CancelIn(d.run.wheel, SlotOf(d, e)), Do(d, Reschedule(e, at, now));
            w.Valid() && e in d'.slots && (d'.run.wheel, d'.slots[e]) == w.Schedule(Some(e), at, now)
  {
    CancelSlotKeeps(d, e);
    CancelSlotIsCancelIn(d, e);
  }

  lemma ForgetIsTime(d: Desk, c: nat)
    requires SlotInv(d) && c in d.live
    ensures Do(d, Forget(c)).run.wheel
         == CancelIn(CancelIn(CancelIn(d.run.wheel, SlotOf(d, Event(c, Pacer))),
                              SlotOf(d, Event(c, QuicheTimeout))), SlotOf(d, Event(c, EstablishTimeout)))
  {
    CancelSlotKeeps(d, Event(c, Pacer));
    CancelSlotIsCancelIn(d, Event(c, Pacer));
    var d1 := CancelSlot(d, Event(c, Pacer));
    CancelSlotKeeps(d1, Event(c, QuicheTimeout));
    CancelSlotIsCancelIn(d1, Event(c, QuicheTimeout));
    var d2 := CancelSlot(d1, Event(c, QuicheTimeout));
    CancelSlotIsCancelIn(d2, Event(c, EstablishTimeout));
  }

  // ----- Timers of others -----

  /** The operation is about this timer. */
  predicate Concerns(op: Op, e: Event) {
    match op
    case Register(_) => false
    case Reschedule(e', _, _) => e' == e
    case CancelKind(e') => e' == e
    case Forget(c) => c == e.connection
    case Tick(_) => false
  }

  /** An event in the wheel is the one its slot holds the key of. */
  lemma HeldBySlot(d: Desk, level: nat, p: nat, i: nat, e: Event)
    requires SlotInv(d) && Holds(d.run.wheel, level, p, i, e)
    ensures e in d.slots && TR.Names(d.slots[e], d.run.wheel.size, level, p, i)
  {
    var k := KeyOf(d.run.wheel, level, p, i);
    assert TR.Names(k, d.run.wheel.size, k.levelIndex, p, k.levelKey.elementIndex);
    assert TR.Kept(d.run, k, None);
    assert Alive(d.run, k) && InSlot(d.run, d.slots, k);
  }

  lemma CancelOther(d: Desk, other: Event, level: nat, p: nat, i: nat, e: Event)
    requires SlotInv(d) && Holds(d.run.wheel, level, p, i, e) && other != e
    ensures Holds(CancelSlot(d, other).run.wheel, level, p, i, e)
  {
    HeldBySlot(d, level, p, i, e);
    if other in d.slots {
      var key := d.slots[other];
      CancelSlotIsCancelIn(d, other);
      assert key != d.slots[e];
      if TR.Names(key, d.run.wheel.size, level, p, i) {
        TR.NamesOnce(key, d.slots[e], d.run.wheel.size, level, p, i);
      }
      CancelElsewhere(d.run.wheel, key, level, p, i, e);
    }
  }

  lemma CancelElsewhere(w: Wheel<Option<Event>>, key: TimerKey, level: nat, p: nat, i: nat, e: Event)
    requires Cancellable(w, key) && Holds(w, level, p, i, e) && !TR.Names(key, w.size, level, p, i)
    ensures Holds(w.Cancel(key, None), level, p, i, e)
  {
    CancelReplaces(w, key, None);
  }

  lemma PutOther(d: Desk, other: Event, at: nat, now: nat, level: nat, p: nat, i: nat, e: Event)
    requires SlotInv(d) && Holds(d.run.wheel, level, p, i, e)
    ensures Holds(Put(d, other, at, now).run.wheel, level, p, i, e)
  {
    SchedulePlaces(d.run.wheel, Some(other), at, now);
    GrownAt(d.run.wheel, d.run.wheel.Schedule(Some(other), at, now).1.levelIndex, level, p);
  }

  /** An operation on another timer, or a tick before its time, leaves an event where it is. */
  lemma OthersStay(d: Desk, op: Op, level: nat, p: nat, i: nat, e: Event)
    requires SlotInv(d) && Holds(d.run.wheel, level, p, i, e) && !Concerns(op, e)
    requires op.Tick? ==> !d.run.wheel.Due(level, p, op.now)
    ensures Holds(Do(d, op).run.wheel, level, p, i, e)
  {
    match op
    case Register(_) =>
    case Reschedule(other, at, now) =>
      if other.connection in d.live {
        CancelSlotKeeps(d, other);
        CancelOther(d, other, level, p, i, e);
        PutOther(CancelSlot(d, other), other, at, now, level, p, i, e);
      }
    case CancelKind(other) => CancelOther(d, other, level, p, i, e);
    case Forget(c) =>
      if c in d.live {
        CancelSlotKeeps(d, Event(c, Pacer));
        CancelOther(d, Event(c, Pacer), level, p, i, e);
        var d1 := CancelSlot(d, Event(c, Pacer));
        CancelSlotKeeps(d1, Event(c, QuicheTimeout));
        CancelOther(d1, Event(c, QuicheTimeout), level, p, i, e);
        CancelOther(CancelSlot(d1, Event(c, QuicheTimeout)), Event(c, EstablishTimeout), level, p, i, e);
      }
    case Tick(now) =>
      TickIsTime(d, now);
      ProgressExact(d.run.wheel, now);
  }

  /** A tick at its time hands an event out. */
  lemma TickHandsOut(d: Desk, now: nat, level: nat, p: nat, i: nat, e: Event) returns (k: nat)
    requires SlotInv(d) && Holds(d.run.wheel, level, p, i, e) && d.run.wheel.Due(level, p, now)
    ensures var log := Do(d, Tick(now)).run.log;
            && |d.run.log| <= k < |log| && log[k].seen == now
            && log[k].firing.level == level && log[k].firing.position == p
            && i < |log[k].firing.events| && log[k].firing.events[i] == Some(e)
  {
    TR.ProgressLogs(d.run, now, None);
    k := DueAt(d.run.wheel, now, level, p);
    k := |d.run.log| + k;
  }

  /** A timer set for a live connection is in the wheel, for the clock the wheel assigns
      once the slot's previous event is cancelled. */
  lemma HeldAfterReschedule(d: Desk, e: Event, at: nat, now: nat) returns (level: nat, p: nat, i: nat)
    requires SlotInv(d) && e.connection in d.live
    ensures var w, w' := CancelIn(d.run.wheel, SlotOf(d, e)), Do(d, Reschedule(e, at, now)).run.wheel;
            && Holds(w', level, p, i, e) && level < |w'.levels| && w'.Cursor(level) <= p
            && w.Valid() && w'.FireClock(level, p) == w.ScheduledClock(at, now)
  {
    RescheduleIsTime(d, e, at, now);
    var w := CancelIn(d.run.wheel, SlotOf(d, e));
    SchedulePlaces(w, Some(e), at, now);
    var key := w.Schedule(Some(e), at, now).1;
    level, p, i := key.levelIndex, key.levelKey.Position(w.size), key.levelKey.elementIndex;
  }
}
