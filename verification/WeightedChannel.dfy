/** The weighted bounded channel as a protocol: any number of senders and one
    receiver take atomic steps on a shared occupation counter, an unbounded queue
    and an event with listeners. Steps interleave freely. */
module WeightedChannel {
  import opened Basics

  type Word = w: nat | w < WORD

  /** `has_capacity`: an empty channel takes anything, otherwise the total must
      neither overflow nor exceed the bound. */
  predicate HasCapacity(occupation: Word, weight: Word, bound: nat) {
    occupation == 0 || (occupation + weight < WORD && occupation + weight <= bound)
  }

  /** Where a sender stands. `current` is its last reading of the occupation. */
  datatype Sender =
    | Idle
    | Loaded(weight: Word, current: Word)    // `send`: about to check whether the channel is closed
    | Cleared(weight: Word, current: Word)   // `send`: about to test the capacity and compare-exchange
    | Listening(weight: Word)               // listener created, about to check for closing again
    | Rechecked(weight: Word)               // about to read the occupation again
    | Parked(weight: Word)                  // awaiting its listener
    | TryOpen(weight: Word)                 // `try_send`: found the channel open
    | Trying(weight: Word, current: Word)    // `try_send`: about to test the capacity and compare-exchange
    | Sending(weight: Word)                 // occupation taken, about to push the item
    | Failed                               // push refused, about to reset the occupation
    | FailedReset                          // occupation reset, about to notify

  /** Where the receiver stands. `current` is the occupation right after its subtraction. */
  datatype Receiver =
    | Ready
    | Popped(weight: Word)
    | Subtracted(weight: Word, current: Word)
    | Zeroed      // dropping: occupation reset
    | Notified    // dropping: listeners notified, inner receiver still open
    | Closed

  /** `listeners` are the senders with a listener that has not been notified. */
  datatype Channel = Channel(bound: nat, occupation: Word, queue: seq<Word>, senders: seq<Sender>,
                             listeners: set<nat>, receiver: Receiver)
  {
    predicate Live() { receiver.Ready? || receiver.Popped? || receiver.Subtracted? }
    predicate IsClosed() { receiver.Closed? }
    function Set(t: nat, s: Sender): Channel
      requires t < |senders|
    {
      this.(senders := senders[t := s])
    }
  }

  datatype Action =
    | Begin(t: nat, weight: Word) | Check(t: nat) | Attempt(t: nat, spurious: bool)
    | Recheck(t: nat) | Reload(t: nat) | Wake(t: nat) | Cancel(t: nat) | Nudge(t: nat)
    | TryBegin(t: nat, weight: Word) | TryLoad(t: nat) | TryAttempt(t: nat, spurious: bool)
    | Push(t: nat) | ResetOccupation(t: nat) | NotifyFailure(t: nat)
    | Pop | Subtract | Notify
    | DropZero | DropNotify | DropClose

  predicate Enabled(c: Channel, a: Action) {
    match a
    case Begin(t, _) => t < |c.senders| && c.senders[t].Idle?
    case Check(t) => t < |c.senders| && c.senders[t].Loaded?
    case Attempt(t, _) => t < |c.senders| && c.senders[t].Cleared?
    case Recheck(t) => t < |c.senders| && c.senders[t].Listening?
    case Reload(t) => t < |c.senders| && c.senders[t].Rechecked?
    case Wake(t) => t < |c.senders| && c.senders[t].Parked? && t !in c.listeners
    case Cancel(t) => t < |c.senders| && c.senders[t].Parked?
    case Nudge(t) => t < |c.senders| && t in c.listeners
    case TryBegin(t, _) => t < |c.senders| && c.senders[t].Idle?
    case TryLoad(t) => t < |c.senders| && c.senders[t].TryOpen?
    case TryAttempt(t, _) => t < |c.senders| && c.senders[t].Trying?
    case Push(t) => t < |c.senders| && c.senders[t].Sending?
    case ResetOccupation(t) => t < |c.senders| && c.senders[t].Failed?
    case NotifyFailure(t) => t < |c.senders| && c.senders[t].FailedReset?
    case Pop => c.receiver.Ready? && c.queue != []
    case Subtract => c.receiver.Popped?
    case Notify => c.receiver.Subtracted?
    case DropZero => c.receiver.Ready?
    case DropNotify => c.receiver.Zeroed?
    case DropClose => c.receiver.Notified?
  }

  /** The compare-exchange of both sending loops; `retry` is where it goes on failure. */
  function Exchange(c: Channel, t: nat, weight: Word, current: Word, spurious: bool, retry: Sender): Channel
    requires t < |c.senders| && HasCapacity(current, weight, c.bound)
  {
    if c.occupation == current && !spurious then
      c.Set(t, Sending(weight)).(occupation := c.occupation + weight)
    else c.Set(t, retry)
  }

  function Do(c: Channel, a: Action): Channel
    requires Enabled(c, a)
  {
    match a
    case Begin(t, w) => c.Set(t, Loaded(w, c.occupation))
    case Check(t) =>
      if c.IsClosed() then c.Set(t, Idle) else c.Set(t, Cleared(c.senders[t].weight, c.senders[t].current))
    case Attempt(t, spurious) =>
      var s := c.senders[t];
      if HasCapacity(s.current, s.weight, c.bound) then
        Exchange(c, t, s.weight, s.current, spurious, Loaded(s.weight, c.occupation))
      else c.Set(t, Listening(s.weight)).(listeners := c.listeners + {t})
    case Recheck(t) =>
      if c.IsClosed() then c.Set(t, Idle).(listeners := c.listeners - {t})
      else c.Set(t, Rechecked(c.senders[t].weight))
    case Reload(t) =>
      var w := c.senders[t].weight;
      if HasCapacity(c.occupation, w, c.bound) then
        c.Set(t, Loaded(w, c.occupation)).(listeners := c.listeners - {t})
      else c.Set(t, Parked(w))
    case Wake(t) => c.Set(t, Loaded(c.senders[t].weight, c.occupation))
    case Cancel(t) => c.Set(t, Idle).(listeners := c.listeners - {t})
    // A notified listener that is dropped before it is awaited passes its notification on.
    case Nudge(t) => c.(listeners := c.listeners - {t})
    case TryBegin(t, w) => if c.IsClosed() then c else c.Set(t, TryOpen(w))
    case TryLoad(t) => c.Set(t, Trying(c.senders[t].weight, c.occupation))
    case TryAttempt(t, spurious) =>
      var s := c.senders[t];
      if HasCapacity(s.current, s.weight, c.bound) then
        Exchange(c, t, s.weight, s.current, spurious, Trying(s.weight, c.occupation))
      else c.Set(t, Idle)
    case Push(t) =>
      if c.IsClosed() then c.Set(t, Failed) else c.Set(t, Idle).(queue := c.queue + [c.senders[t].weight])
    case ResetOccupation(t) => c.Set(t, FailedReset).(occupation := 0)
    case NotifyFailure(t) => c.Set(t, Idle).(listeners := {})
    case Pop => c.(queue := c.queue[1..], receiver := Popped(c.queue[0]))
    case Subtract =>
      var current := WrappingSub(c.occupation, c.receiver.weight);
      c.(occupation := current, receiver := Subtracted(c.receiver.weight, current))
    case Notify =>
      var c' := c.(receiver := Ready);
      if HasCapacity(c.receiver.current, c.receiver.weight, c.bound) then c'.(listeners := {}) else c'
    case DropZero => c.(occupation := 0, receiver := Zeroed)
    case DropNotify => c.(listeners := {}, receiver := Notified)
    case DropClose => c.(queue := [], receiver := Closed)
  }

  /** `fetch_sub` wraps around below zero. */
  function WrappingSub(a: Word, b: Word): (r: Word)
    ensures (r + b) % WORD == a
  {
    if b <= a then a - b else a + WORD - b
  }

  function Start(bound: nat, senders: nat): Channel {
    Channel(if bound > 1 then bound else 1, 0, [], seq(senders, _ => Idle), {}, Ready)
  }

  // ----- Weights in the channel -----

  function Total(q: seq<Word>): nat {
    if q == [] then 0 else q[0] + Total(q[1..])
  }

  /** The weight a sender has added to the occupation but not yet queued. */
  function Held(s: Sender): Word {
    if s.Sending? then s.weight else 0
  }

  function InFlight(senders: seq<Sender>): nat {
    if senders == [] then 0 else InFlight(senders[..|senders| - 1]) + Held(senders[|senders| - 1])
  }

  function Unsubtracted(r: Receiver): Word {
    if r.Popped? then r.weight else 0
  }

  lemma {:induction false} TotalAppend(q: seq<Word>, w: Word)
    ensures Total(q + [w]) == Total(q) + w
  {
    if q != [] {
      TotalAppend(q[1..], w);
      assert (q + [w])[1..] == q[1..] + [w];
    }
  }

  lemma {:induction false} TotalMember(q: seq<Word>, i: nat)
    requires i < |q|
    ensures q[i] <= Total(q)
  {
    if i > 0 {
      TotalMember(q[1..], i - 1);
    }
  }

  lemma {:induction false} InFlightUpdate(senders: seq<Sender>, t: nat, s: Sender)
    requires t < |senders|
    ensures Held(senders[t]) <= InFlight(senders)
    ensures InFlight(senders[t := s]) == InFlight(senders) - Held(senders[t]) + Held(s)
  {
    var n := |senders| - 1;
    if t < n {
      InFlightUpdate(senders[..n], t, s);
      assert senders[t := s][..n] == senders[..n][t := s];
    } else {
      assert senders[t := s][..n] == senders[..n];
    }
  }

  lemma {:induction false} InFlightStart(n: nat)
    ensures InFlight(seq(n, _ => Idle)) == 0
  {
    if n > 0 {
      InFlightStart(n - 1);
      assert seq(n, _ => Idle)[..n - 1] == seq(n - 1, _ => Idle);
    }
  }

  // ----- Invariant while the receiver lives -----

  /** The occupation is the weight queued, in flight and popped but not yet
      subtracted. */
  ghost predicate Conserved(c: Channel) {
    c.occupation == Total(c.queue) + InFlight(c.senders) + Unsubtracted(c.receiver)
  }

  /** An item is alone: it has no weight or all of it. */
  predicate Alone(w: Word, occupation: Word) {
    w == 0 || w == occupation
  }

  /** The bound is exceeded only by a single weighty item. */
  ghost predicate Bounded(c: Channel) {
    c.occupation > c.bound ==>
      && (forall i :: 0 <= i < |c.queue| ==> Alone(c.queue[i], c.occupation))
      && (forall t :: 0 <= t < |c.senders| ==> Alone(Held(c.senders[t]), c.occupation))
      && Alone(Unsubtracted(c.receiver), c.occupation)
  }

  /** The receiver stands between its subtraction and a notification to come. */
  predicate AboutToNotify(c: Channel) {
    c.receiver.Subtracted? && HasCapacity(c.receiver.current, c.receiver.weight, c.bound)
  }

  /** No lost wake-up: a parked sender has been notified, or has no capacity, or
      is about to be notified. */
  ghost predicate NoneForgotten(c: Channel) {
    forall t :: 0 <= t < |c.senders| && c.senders[t].Parked? && t in c.listeners ==>
      !HasCapacity(c.occupation, c.senders[t].weight, c.bound) || AboutToNotify(c)
  }

  ghost predicate Inv(c: Channel) {
    match c.receiver
    case Zeroed => true
    case Notified => true
    case Closed => true
    case _ =>
      && c.bound >= 1 && Conserved(c) && Bounded(c) && NoneForgotten(c)
      && (forall t :: 0 <= t < |c.senders| ==> !c.senders[t].Failed? && !c.senders[t].FailedReset?)
  }

  /** The step that changes only one sender, without touching the occupation. */
  lemma QuietSender(c: Channel, t: nat, s: Sender, ls: set<nat>)
    requires Inv(c) && c.Live() && t < |c.senders|
    requires Held(s) == Held(c.senders[t]) && !s.Failed? && !s.FailedReset?
    requires s.Parked? && t in ls ==> !HasCapacity(c.occupation, s.weight, c.bound) || c.senders[t] == s
    requires ls <= c.listeners || (ls == c.listeners + {t} && !s.Parked?)
    ensures Inv(c.Set(t, s).(listeners := ls))
  {
    InFlightUpdate(c.senders, t, s);
  }

  /** A successful compare-exchange. */
  lemma TakeKeeps(c: Channel, t: nat, w: Word)
    requires Inv(c) && c.Live() && t < |c.senders| && Held(c.senders[t]) == 0
    requires HasCapacity(c.occupation, w, c.bound) && !c.senders[t].Sending?
    ensures Inv(c.Set(t, Sending(w)).(occupation := c.occupation + w))
  {
    InFlightUpdate(c.senders, t, Sending(w));
    var c' := c.Set(t, Sending(w)).(occupation := c.occupation + w);
    if c'.occupation > c.bound {
      forall i | 0 <= i < |c.queue| ensures c.queue[i] == 0 { TotalMember(c.queue, i); }
      forall u | 0 <= u < |c.senders| ensures Held(c.senders[u]) == 0 { InFlightUpdate(c.senders, u, Idle); }
    }
  }

  lemma PushKeeps(c: Channel, t: nat)
    requires Inv(c) && c.Live() && t < |c.senders| && c.senders[t].Sending?
    ensures Inv(c.Set(t, Idle).(queue := c.queue + [c.senders[t].weight]))
  {
    InFlightUpdate(c.senders, t, Idle);
    TotalAppend(c.queue, c.senders[t].weight);
  }

  lemma PopKeeps(c: Channel)
    requires Inv(c) && c.receiver.Ready? && c.queue != []
    ensures Inv(c.(queue := c.queue[1..], receiver := Popped(c.queue[0])))
  {
  }

  /** Subtracting never underflows, and either changes nothing or is followed by a
      notification: testing the capacity for the consumed weight suffices. */
  lemma SubtractKeeps(c: Channel)
    requires Inv(c) && c.receiver.Popped?
    ensures c.receiver.weight <= c.occupation
    ensures var current := c.occupation - c.receiver.weight;
            && WrappingSub(c.occupation, c.receiver.weight) == current
            && (HasCapacity(current, c.receiver.weight, c.bound) || current == c.occupation)
            && Inv(c.(occupation := current, receiver := Subtracted(c.receiver.weight, current)))
  {
  }

  lemma ExchangeKeeps(c: Channel, t: nat, weight: Word, current: Word, spurious: bool, retry: Sender)
    requires Inv(c) && c.Live() && t < |c.senders| && Held(c.senders[t]) == 0 && !c.senders[t].Sending?
    requires HasCapacity(current, weight, c.bound) && (retry.Loaded? || retry.Trying?)
    ensures Inv(Exchange(c, t, weight, current, spurious, retry))
  {
    if c.occupation == current && !spurious {
      TakeKeeps(c, t, weight);
    } else {
      QuietSender(c, t, retry, c.listeners);
    }
  }

  lemma AttemptKeeps(c: Channel, a: Action)
    requires Inv(c) && c.Live() && Enabled(c, a) && (a.Attempt? || a.TryAttempt?)
    ensures Inv(Do(c, a))
  {
    var t := a.t;
    var s := c.senders[t];
    var retry := if a.Attempt? then Loaded(s.weight, c.occupation) else Trying(s.weight, c.occupation);
    if HasCapacity(s.current, s.weight, c.bound) {
      ExchangeKeeps(c, t, s.weight, s.current, a.spurious, retry);
    } else if a.Attempt? {
      QuietSender(c, t, Listening(s.weight), c.listeners + {t});
    } else {
      QuietSender(c, t, Idle, c.listeners);
    }
  }

  lemma ReloadKeeps(c: Channel, t: nat)
    requires Inv(c) && c.Live() && Enabled(c, Reload(t))
    ensures Inv(Do(c, Reload(t)))
  {
    var w := c.senders[t].weight;
    if HasCapacity(c.occupation, w, c.bound) {
      QuietSender(c, t, Loaded(w, c.occupation), c.listeners - {t});
    } else {
      QuietSender(c, t, Parked(w), c.listeners);
    }
  }

  lemma SendKeeps(c: Channel, a: Action)
    requires Inv(c) && c.Live() && Enabled(c, a)
    requires a.Begin? || a.Check? || a.Recheck? || a.Wake? || a.Cancel? || a.Nudge?
    ensures Inv(Do(c, a))
  {
    var t := a.t;
    var s := c.senders[t];
    match a
    case Begin(_, w) => QuietSender(c, t, Loaded(w, c.occupation), c.listeners);
    case Check(_) => QuietSender(c, t, Cleared(s.weight, s.current), c.listeners);
    case Recheck(_) => QuietSender(c, t, Rechecked(s.weight), c.listeners);
    case Wake(_) => QuietSender(c, t, Loaded(s.weight, c.occupation), c.listeners);
    case Cancel(_) => QuietSender(c, t, Idle, c.listeners - {t});
    case Nudge(_) =>
      assert c.senders[t := s] == c.senders;
      QuietSender(c, t, s, c.listeners - {t});
  }

  lemma TryKeeps(c: Channel, a: Action)
    requires Inv(c) && c.Live() && Enabled(c, a)
    requires a.TryBegin? || a.TryLoad? || a.Push?
    ensures Inv(Do(c, a))
  {
    var t := a.t;
    match a
    case TryBegin(_, w) => QuietSender(c, t, TryOpen(w), c.listeners);
    case TryLoad(_) => QuietSender(c, t, Trying(c.senders[t].weight, c.occupation), c.listeners);
    case Push(_) => PushKeeps(c, t);
  }

  lemma ReceiverKeeps(c: Channel, a: Action)
    requires Inv(c) && c.Live() && Enabled(c, a)
    requires a.Pop? || a.Subtract? || a.Notify? || a.DropZero?
    ensures Inv(Do(c, a))
  {
    match a
    case Pop => PopKeeps(c);
    case Subtract => SubtractKeeps(c);
    case Notify =>
    case DropZero =>
  }

  lemma ClosingKeeps(c: Channel, a: Action)
    requires !c.Live() && Enabled(c, a)
    ensures !Do(c, a).Live()
  {
  }

  /** Every step of every interleaving keeps the invariant. */
  lemma StepKeeps(c: Channel, a: Action)
    requires Inv(c) && Enabled(c, a)
    ensures Inv(Do(c, a))
  {
    if !c.Live() {
      ClosingKeeps(c, a);
    } else if a.Attempt? || a.TryAttempt? {
      AttemptKeeps(c, a);
    } else if a.Reload? {
      ReloadKeeps(c, a.t);
    } else if a.TryBegin? || a.TryLoad? || a.Push? {
      TryKeeps(c, a);
    } else if a.Pop? || a.Subtract? || a.Notify? || a.DropZero? {
      ReceiverKeeps(c, a);
    } else {
      SendKeeps(c, a);
    }
  }

  // ----- Runs -----

  ghost predicate Runs(c: Channel, actions: seq<Action>, c': Channel)
    decreases |actions|
  {
    if actions == [] then c' == c
    else Enabled(c, actions[0]) && Runs(Do(c, actions[0]), actions[1..], c')
  }

  lemma {:induction false} RunKeeps(c: Channel, actions: seq<Action>, c': Channel)
    requires Inv(c) && Runs(c, actions, c')
    ensures Inv(c')
    decreases |actions|
  {
    if actions != [] {
      StepKeeps(c, actions[0]);
      RunKeeps(Do(c, actions[0]), actions[1..], c');
    }
  }

  /** In every interleaving with a live receiver: the occupation is exactly the
      weight of the items in the channel, it exceeds the bound only for a single
      item, and no parked sender is forgotten. */
  lemma EveryRun(c: Channel)
    requires Reachable(c) && c.Live()
    ensures Conserved(c) && Bounded(c) && NoneForgotten(c)
  {
    var bound: nat, senders: nat, actions :| Runs(Start(bound, senders), actions, c);
    InFlightStart(senders);
    RunKeeps(Start(bound, senders), actions, c);
  }

  function HeldAll(senders: seq<Sender>): (h: seq<Word>)
    ensures |h| == |senders| && forall t :: 0 <= t < |h| ==> h[t] == Held(senders[t])
  {
    seq(|senders|, t requires 0 <= t < |senders| => Held(senders[t]))
  }

  /** All weights in the channel, wherever they are. */
  function Items(c: Channel): seq<Word> {
    c.queue + HeldAll(c.senders) + [Unsubtracted(c.receiver)]
  }

  lemma {:induction false} OneItem(q: seq<Word>, occupation: Word) returns (i: nat)
    requires Total(q) == occupation > 0 && forall k :: 0 <= k < |q| ==> Alone(q[k], occupation)
    ensures i < |q| && q[i] == occupation && forall k :: 0 <= k < |q| && k != i ==> q[k] == 0
  {
    if q[0] == occupation {
      i := 0;
      forall k | 1 <= k < |q| ensures q[k] == 0 { TotalMember(q[1..], k - 1); }
    } else {
      i := OneItem(q[1..], occupation);
      i := i + 1;
      assert forall k :: 1 <= k < |q| ==> q[k] == q[1..][k - 1];
    }
  }

  lemma {:induction false} TotalConcat(p: seq<Word>, q: seq<Word>)
    ensures Total(p + q) == Total(p) + Total(q)
  {
    if p == [] {
      assert p + q == q;
    } else {
      TotalConcat(p[1..], q);
      assert (p + q)[1..] == p[1..] + q;
    }
  }

  lemma {:induction false} TotalHeld(senders: seq<Sender>)
    ensures Total(HeldAll(senders)) == InFlight(senders)
  {
    if senders != [] {
      var n := |senders| - 1;
      TotalHeld(senders[..n]);
      assert HeldAll(senders) == HeldAll(senders[..n]) + [Held(senders[n])];
      TotalAppend(HeldAll(senders[..n]), Held(senders[n]));
    }
  }

  /** Beyond the bound there is exactly one item with any weight. */
  lemma OverfullIsOneItem(c: Channel) returns (i: nat)
    requires Inv(c) && c.Live() && c.occupation > c.bound
    ensures i < |Items(c)| && Items(c)[i] == c.occupation
    ensures forall k :: 0 <= k < |Items(c)| && k != i ==> Items(c)[k] == 0
  {
    var h := HeldAll(c.senders);
    TotalHeld(c.senders);
    TotalConcat(c.queue, h);
    TotalAppend(c.queue + h, Unsubtracted(c.receiver));
    forall k | 0 <= k < |Items(c)| ensures Alone(Items(c)[k], c.occupation) {
      if |c.queue| <= k < |c.queue| + |h| {
        assert Items(c)[k] == Held(c.senders[k - |c.queue|]);
      }
    }
    i := OneItem(Items(c), c.occupation);
  }

  /** Nobody sleeps on an idle channel: with nothing queued, in flight or being
      received, every parked sender has been notified. */
  lemma IdleChannelWakesAll(c: Channel, t: nat)
    requires Inv(c) && c.receiver.Ready? && c.queue == []
    requires forall u :: 0 <= u < |c.senders| ==> !c.senders[u].Sending?
    requires t < |c.senders| && c.senders[t].Parked?
    ensures t !in c.listeners
  {
    NothingInFlight(c.senders);
  }

  lemma {:induction false} NothingInFlight(senders: seq<Sender>)
    requires forall u :: 0 <= u < |senders| ==> !senders[u].Sending?
    ensures InFlight(senders) == 0
  {
    if senders != [] {
      NothingInFlight(senders[..|senders| - 1]);
    }
  }

  // ----- Dropping the receiver -----

  /** A sender past its closed check, which can still push, fail and notify. */
  predicate Committed(s: Sender) {
    s.Cleared? || s.TryOpen? || s.Trying? || s.Sending? || s.Failed? || s.FailedReset?
  }

  /** A closed channel on which a sender sleeps unnotified and none can notify it. */
  ghost predicate Stranded(c: Channel, t: nat) {
    && c.receiver.Closed? && t < |c.senders| && c.senders[t].Parked? && t in c.listeners
    && forall u :: 0 <= u < |c.senders| ==> !Committed(c.senders[u])
  }

  /** A stranded sender stays so whatever the others do. */
  lemma StrandedForever(c: Channel, t: nat, a: Action)
    requires Stranded(c, t) && Enabled(c, a) && a != Cancel(t) && a != Nudge(t)
    ensures Stranded(Do(c, a), t)
  {
  }

  ghost predicate Reachable(c: Channel) {
    exists bound: nat, senders: nat, actions :: Runs(Start(bound, senders), actions, c)
  }

  lemma Reach(c: Channel, a: Action)
    requires Reachable(c) && Enabled(c, a)
    ensures Reachable(Do(c, a))
  {
    var bound: nat, senders: nat, actions :| Runs(Start(bound, senders), actions, c);
    RunsExtend(Start(bound, senders), actions, c, a);
  }

  lemma {:induction false} RunsExtend(c0: Channel, actions: seq<Action>, c: Channel, a: Action)
    requires Runs(c0, actions, c) && Enabled(c, a)
    ensures Runs(c0, actions + [a], Do(c, a))
    decreases |actions|
  {
    if actions == [] {
      assert ([a])[1..] == [];
    } else {
      RunsExtend(Do(c0, actions[0]), actions[1..], c, a);
      assert (actions + [a])[1..] == actions[1..] + [a];
    }
  }

  lemma {:induction false} ReachRun(c: Channel, actions: seq<Action>, c': Channel)
    requires Reachable(c) && Runs(c, actions, c')
    ensures Reachable(c')
    decreases |actions|
  {
    if actions != [] {
      Reach(c, actions[0]);
      ReachRun(Do(c, actions[0]), actions[1..], c');
    }
  }

  // ----- Uninterrupted operations -----

  lemma RunsOne(c: Channel, a: Action, rest: seq<Action>, c': Channel)
    requires Enabled(c, a) && Runs(Do(c, a), rest, c')
    ensures Runs(c, [a] + rest, c')
  {
    assert ([a] + rest)[1..] == rest;
  }

  /** Three steps in a row. */
  lemma RunsThree(c: Channel, a1: Action, c1: Channel, a2: Action, c2: Channel, a3: Action, c3: Channel)
    requires Enabled(c, a1) && c1 == Do(c, a1) && Enabled(c1, a2) && c2 == Do(c1, a2)
    requires Enabled(c2, a3) && c3 == Do(c2, a3)
    ensures Runs(c, [a1, a2, a3], c3)
  {
    assert Runs(c3, [], c3);
    RunsOne(c2, a3, [], c3);
    RunsOne(c1, a2, [a3], c3);
    RunsOne(c, a1, [a2, a3], c3);
    assert [a3] + [] == [a3] && [a2] + [a3] == [a2, a3] && [a1] + [a2, a3] == [a1, a2, a3];
  }

  /** How a `send` starts, or goes on once its listener was notified. */
  predicate Starts(c: Channel, t: nat, w: Word, first: Action) {
    t < |c.senders| && if first.Begin? then first == Begin(t, w) && c.senders[t].Idle?
                       else first == Wake(t) && c.senders[t] == Parked(w) && t !in c.listeners
  }

  /** A `send` that is not interrupted, on an open channel that is empty or has room up to
      its bound, adds its item and its weight. */
  lemma SendsAtOnce(c: Channel, t: nat, w: Word, first: Action)
    requires !c.IsClosed() && Starts(c, t, w, first)
    requires c.occupation == 0 || (c.occupation + w <= c.bound && c.occupation + w < WORD)
    ensures Runs(c, [first, Check(t), Attempt(t, false), Push(t)],
                 c.Set(t, Idle).(occupation := c.occupation + w, queue := c.queue + [w]))
  {
    var c1 := c.Set(t, Loaded(w, c.occupation));
    var c' := c.Set(t, Idle).(occupation := c.occupation + w, queue := c.queue + [w]);
    assert c1.senders[t := Idle] == c.senders[t := Idle];
    LoadedSends(c1, t, w, c');
    RunsFirst(c, first, c1, Check(t), Attempt(t, false), Push(t), c');
  }

  lemma LoadedSends(c: Channel, t: nat, w: Word, c': Channel)
    requires !c.IsClosed() && t < |c.senders| && c.senders[t] == Loaded(w, c.occupation)
    requires HasCapacity(c.occupation, w, c.bound)
    requires c' == c.Set(t, Idle).(occupation := c.occupation + w, queue := c.queue + [w])
    ensures Runs(c, [Check(t), Attempt(t, false), Push(t)], c')
  {
    var c1 := c.Set(t, Cleared(w, c.occupation));
    var c2 := c.Set(t, Sending(w)).(occupation := c.occupation + w);
    assert c1.Set(t, Sending(w)).(occupation := c.occupation + w) == c2;
    assert c2.senders[t := Idle] == c.senders[t := Idle];
    RunsThree(c, Check(t), c1, Attempt(t, false), c2, Push(t), c');
  }

  lemma RunsFirst(c: Channel, a: Action, c1: Channel, a1: Action, a2: Action, a3: Action, c': Channel)
    requires Enabled(c, a) && c1 == Do(c, a) && Runs(c1, [a1, a2, a3], c')
    ensures Runs(c, [a, a1, a2, a3], c')
  {
    RunsOne(c, a, [a1, a2, a3], c');
    assert [a] + [a1, a2, a3] == [a, a1, a2, a3];
  }

  /** Without room it parks on a listener, having changed nothing else. */
  lemma ParksAtOnce(c: Channel, t: nat, w: Word, first: Action)
    requires !c.IsClosed() && Starts(c, t, w, first)
    requires c.occupation > 0 && (c.occupation + w > c.bound || c.occupation + w >= WORD)
    ensures Runs(c, [first, Check(t), Attempt(t, false), Recheck(t), Reload(t)],
                 c.Set(t, Parked(w)).(listeners := c.listeners + {t}))
  {
    var c1 := c.Set(t, Loaded(w, c.occupation));
    var c' := c.Set(t, Parked(w)).(listeners := c.listeners + {t});
    assert c1.senders[t := Parked(w)] == c.senders[t := Parked(w)];
    LoadedParks(c1, t, w, c');
    RunsOne(c, first, [Check(t), Attempt(t, false), Recheck(t), Reload(t)], c');
    assert [first] + [Check(t), Attempt(t, false), Recheck(t), Reload(t)]
        == [first, Check(t), Attempt(t, false), Recheck(t), Reload(t)];
  }

  lemma LoadedParks(c: Channel, t: nat, w: Word, c': Channel)
    requires !c.IsClosed() && t < |c.senders| && c.senders[t] == Loaded(w, c.occupation)
    requires !HasCapacity(c.occupation, w, c.bound)
    requires c' == c.Set(t, Parked(w)).(listeners := c.listeners + {t})
    ensures Runs(c, [Check(t), Attempt(t, false), Recheck(t), Reload(t)], c')
  {
    var c1 := c.Set(t, Cleared(w, c.occupation));
    assert c1.senders[t := Parked(w)] == c.senders[t := Parked(w)];
    ClearedParks(c1, t, w, c');
    RunsFirst(c, Check(t), c1, Attempt(t, false), Recheck(t), Reload(t), c');
  }

  lemma ClearedParks(c: Channel, t: nat, w: Word, c': Channel)
    requires !c.IsClosed() && t < |c.senders| && c.senders[t] == Cleared(w, c.occupation)
    requires !HasCapacity(c.occupation, w, c.bound)
    requires c' == c.Set(t, Parked(w)).(listeners := c.listeners + {t})
    ensures Runs(c, [Attempt(t, false), Recheck(t), Reload(t)], c')
  {
    var c1 := c.Set(t, Listening(w)).(listeners := c.listeners + {t});
    var c2 := c.Set(t, Rechecked(w)).(listeners := c.listeners + {t});
    assert c1.Set(t, Rechecked(w)) == c2 && c2.Set(t, Parked(w)) == c';
    RunsThree(c, Attempt(t, false), c1, Recheck(t), c2, Reload(t), c');
  }

  /** On a closed channel it ends, having changed nothing else. */
  lemma EndsAtOnce(c: Channel, t: nat, w: Word, first: Action)
    requires c.IsClosed() && Starts(c, t, w, first)
    ensures Runs(c, [first, Check(t)], c.Set(t, Idle))
  {
    var c1, c2 := c.Set(t, Loaded(w, c.occupation)), c.Set(t, Idle);
    assert c1.Set(t, Idle) == c2;
    assert Runs(c2, [], c2);
    RunsOne(c1, Check(t), [], c2);
    RunsOne(c, first, [Check(t)], c2);
    assert [Check(t)] + [] == [Check(t)] && [first] + [Check(t)] == [first, Check(t)];
  }

  /** A `send` that is dropped while it waits leaves no trace. */
  lemma CancelsWithoutTrace(c: Channel, t: nat, w: Word)
    requires !c.IsClosed() && t < |c.senders| && c.senders[t].Idle? && t !in c.listeners
    requires c.occupation > 0 && (c.occupation + w > c.bound || c.occupation + w >= WORD)
    ensures Runs(c, [Begin(t, w), Check(t), Attempt(t, false), Recheck(t), Reload(t), Cancel(t)], c)
  {
    var c5 := c.Set(t, Parked(w)).(listeners := c.listeners + {t});
    var parks := [Begin(t, w), Check(t), Attempt(t, false), Recheck(t), Reload(t)];
    ParksAtOnce(c, t, w, Begin(t, w));
    assert c5.senders[t := Idle] == c.senders && c5.listeners - {t} == c.listeners;
    RunsExtend(c, parks, c5, Cancel(t));
    assert parks + [Cancel(t)] == [Begin(t, w), Check(t), Attempt(t, false), Recheck(t), Reload(t), Cancel(t)];
  }

  /** A notification passed on wakes the sender it goes to, and no other. */
  lemma NudgeWakes(c: Channel, t: nat)
    requires t < |c.senders| && c.senders[t].Parked? && t in c.listeners
    ensures Runs(c, [Nudge(t), Wake(t)],
                 c.Set(t, Loaded(c.senders[t].weight, c.occupation)).(listeners := c.listeners - {t}))
  {
    var c1 := c.(listeners := c.listeners - {t});
    var c2 := c1.Set(t, Loaded(c.senders[t].weight, c.occupation));
    assert Runs(c2, [], c2);
    RunsOne(c1, Wake(t), [], c2);
    RunsOne(c, Nudge(t), [Wake(t)], c2);
    assert [Wake(t)] + [] == [Wake(t)] && [Nudge(t)] + [Wake(t)] == [Nudge(t), Wake(t)];
  }

  /** A compare-exchange that fails, because the occupation has moved or for no reason,
      changes nothing; the loop goes on with what it found. */
  lemma RetriesAtOnce(c: Channel, t: nat, w: Word, current: Word, spurious: bool)
    requires !c.IsClosed() && t < |c.senders| && (spurious || c.occupation != current)
    requires current == 0 || (current + w <= c.bound && current + w < WORD)
    ensures c.senders[t] == Cleared(w, current) ==>
              Runs(c, [Attempt(t, spurious), Check(t)], c.Set(t, Cleared(w, c.occupation)))
    ensures c.senders[t] == Trying(w, current) ==>
              Runs(c, [TryAttempt(t, spurious)], c.Set(t, Trying(w, c.occupation)))
  {
    if c.senders[t] == Cleared(w, current) {
      var c1, c2 := c.Set(t, Loaded(w, c.occupation)), c.Set(t, Cleared(w, c.occupation));
      assert c1.Set(t, Cleared(w, c.occupation)) == c2;
      assert Runs(c2, [], c2);
      RunsOne(c1, Check(t), [], c2);
      RunsOne(c, Attempt(t, spurious), [Check(t)], c2);
      assert [Check(t)] + [] == [Check(t)] && [Attempt(t, spurious)] + [Check(t)] == [Attempt(t, spurious), Check(t)];
    } else if c.senders[t] == Trying(w, current) {
      var c1 := c.Set(t, Trying(w, c.occupation));
      assert Runs(c1, [], c1);
      RunsOne(c, TryAttempt(t, spurious), [], c1);
      assert [TryAttempt(t, spurious)] + [] == [TryAttempt(t, spurious)];
    }
  }

  /** A `try_send` that is not interrupted sends like `send`. */
  lemma TrySendsAtOnce(c: Channel, t: nat, w: Word)
    requires !c.IsClosed() && t < |c.senders| && c.senders[t].Idle?
    requires c.occupation == 0 || (c.occupation + w <= c.bound && c.occupation + w < WORD)
    ensures Runs(c, [TryBegin(t, w), TryLoad(t), TryAttempt(t, false), Push(t)],
                 c.(occupation := c.occupation + w, queue := c.queue + [w]))
  {
    var c1 := c.Set(t, TryOpen(w));
    var c' := c.(occupation := c.occupation + w, queue := c.queue + [w]);
    assert c1.senders[t := Idle] == c.senders;
    OpenSends(c1, t, w, c');
    RunsFirst(c, TryBegin(t, w), c1, TryLoad(t), TryAttempt(t, false), Push(t), c');
  }

  lemma OpenSends(c: Channel, t: nat, w: Word, c': Channel)
    requires !c.IsClosed() && t < |c.senders| && c.senders[t] == TryOpen(w)
    requires HasCapacity(c.occupation, w, c.bound)
    requires c' == c.Set(t, Idle).(occupation := c.occupation + w, queue := c.queue + [w])
    ensures Runs(c, [TryLoad(t), TryAttempt(t, false), Push(t)], c')
  {
    var c1 := c.Set(t, Trying(w, c.occupation));
    var c2 := c.Set(t, Sending(w)).(occupation := c.occupation + w);
    assert c1.Set(t, Sending(w)).(occupation := c.occupation + w) == c2;
    assert c2.senders[t := Idle] == c.senders[t := Idle];
    RunsThree(c, TryLoad(t), c1, TryAttempt(t, false), c2, Push(t), c');
  }

  /** Without room, or on a closed channel, it changes nothing. */
  lemma TryRefusesAtOnce(c: Channel, t: nat, w: Word)
    requires t < |c.senders| && c.senders[t].Idle?
    ensures c.IsClosed() ==> Runs(c, [TryBegin(t, w)], c)
    ensures !c.IsClosed() && c.occupation > 0 && (c.occupation + w > c.bound || c.occupation + w >= WORD) ==>
              Runs(c, [TryBegin(t, w), TryLoad(t), TryAttempt(t, false)], c)
  {
    assert Runs(c, [], c);
    if c.IsClosed() {
      RunsOne(c, TryBegin(t, w), [], c);
      assert [TryBegin(t, w)] + [] == [TryBegin(t, w)];
    } else if !HasCapacity(c.occupation, w, c.bound) {
      var c1, c2 := c.Set(t, TryOpen(w)), c.Set(t, Trying(w, c.occupation));
      assert c1.Set(t, Trying(w, c.occupation)) == c2 && c2.senders[t := Idle] == c.senders;
      RunsThree(c, TryBegin(t, w), c1, TryLoad(t), c2, TryAttempt(t, false), c);
    }
  }

  /** A push that finds the channel closed empties the count and notifies everybody. */
  lemma FailsAtOnce(c: Channel, t: nat)
    requires c.IsClosed() && t < |c.senders| && c.senders[t].Sending?
    ensures Runs(c, [Push(t), ResetOccupation(t), NotifyFailure(t)],
                 c.Set(t, Idle).(occupation := 0, listeners := {}))
  {
    var c1, c2 := c.Set(t, Failed), c.Set(t, FailedReset).(occupation := 0);
    var c3 := c.Set(t, Idle).(occupation := 0, listeners := {});
    assert c1.senders[t := FailedReset] == c2.senders && c2.senders[t := Idle] == c3.senders;
    RunsThree(c, Push(t), c1, ResetOccupation(t), c2, NotifyFailure(t), c3);
  }

  /** A receive that is not interrupted takes the oldest item and its weight, and
      notifies everybody if the channel is then empty or could take it again. */
  lemma ReceivesAtOnce(c: Channel)
    requires Reachable(c) && c.receiver.Ready? && c.queue != []
    ensures c.queue[0] <= c.occupation
    ensures var current := c.occupation - c.queue[0];
            Runs(c, [Pop, Subtract, Notify],
                 c.(queue := c.queue[1..], occupation := current,
                    listeners := if current == 0 || c.occupation <= c.bound then {} else c.listeners))
  {
    var w := c.queue[0];
    Reach(c, Pop);
    EveryRun(Do(c, Pop));
    var current := c.occupation - w;
    PopsThenNotifies(c, w, current,
                     c.(queue := c.queue[1..], occupation := current,
                        listeners := if current == 0 || c.occupation <= c.bound then {} else c.listeners));
  }

  lemma PopsThenNotifies(c: Channel, w: Word, current: Word, c': Channel)
    requires c.receiver.Ready? && c.queue != [] && w == c.queue[0] && c.occupation == current + w
    requires c' == c.(queue := c.queue[1..], occupation := current,
                      listeners := if HasCapacity(current, w, c.bound) then {} else c.listeners)
    ensures Runs(c, [Pop, Subtract, Notify], c')
  {
    var c1 := c.(queue := c.queue[1..], receiver := Popped(w));
    var c2 := c1.(occupation := current, receiver := Subtracted(w, current));
    RunsThree(c, Pop, c1, Subtract, c2, Notify, c');
  }

  /** Dropping the receiver without interruption closes and empties the channel, and
      notifies everybody. */
  lemma DropsAtOnce(c: Channel)
    requires c.receiver.Ready?
    ensures Runs(c, [DropZero, DropNotify, DropClose],
                 c.(occupation := 0, queue := [], listeners := {}, receiver := Closed))
  {
    var c1 := c.(occupation := 0, receiver := Zeroed);
    var c2 := c1.(listeners := {}, receiver := Notified);
    RunsThree(c, DropZero, c1, DropNotify, c2, DropClose, c2.(queue := [], receiver := Closed));
  }

  lemma FillsWhileDropping(bound: nat) returns (c: Channel)
    requires 1 <= bound < WORD
    ensures Reachable(c) && c.receiver.Notified? && c.bound == c.occupation == bound
    ensures |c.senders| == 2 && c.senders[0].Idle? && c.senders[1].Idle?
  {
    c := Start(bound, 2);
    assert Runs(c, [], c);
    Reach(c, DropZero);
    Reach(Do(c, DropZero), DropNotify);
    c := Do(Do(c, DropZero), DropNotify);
    SendsAtOnce(c, 0, bound, Begin(0, bound));
    var sent := c.Set(0, Idle).(occupation := bound, queue := c.queue + [bound]);
    ReachRun(c, [Begin(0, bound), Check(0), Attempt(0, false), Push(0)], sent);
    c := sent;
  }

  /** The receiver notifies its listeners before it closes, so a sender can park in
      between and never wake. */
  lemma DropCanStrand(bound: nat)
    requires 1 <= bound < WORD
    ensures exists c :: Reachable(c) && Stranded(c, 1)
  {
    var c := FillsWhileDropping(bound);
    ParksAtOnce(c, 1, 1, Begin(1, 1));
    var parked := c.Set(1, Parked(1)).(listeners := c.listeners + {1});
    ReachRun(c, [Begin(1, 1), Check(1), Attempt(1, false), Recheck(1), Reload(1)], parked);
    c := parked;
    Reach(c, DropClose);
    assert Stranded(Do(c, DropClose), 1);
  }
}
