/** One remote call: a slot shared by the callback that answers it and the future
    that waits for the answer, as interleaved atomic steps.

    The waker cell is atomic: registering replaces the waker, waking takes it. */
module RpcSlot {
  import opened Basics

  datatype Phase = Pending | Ready | HangUp

  datatype Answer = Result(value: int) | NoResponse

  /** Where the callback is. `Writing` to `Waking` is `on_result`; `Dropping` on is the
      drop that follows it, or that comes instead. */
  datatype Callback =
    | Held                      // not used yet
    | Writing(value: int)       // has the slot, about to write the result
    | Publishing                // about to set the state to ready
    | Waking                    // about to wake
    | Dropping                  // about to look the slot up
    | Closing                   // has the slot, about to exchange pending for hang-up
    | WakingClosed              // exchanged it, about to wake
    | Gone

  /** Where the future is. */
  datatype Future =
    | Idle                      // between polls, not waiting
    | Loading                   // has the slot, about to load the state
    | Registering               // saw pending, about to register the waker
    | Reloading                 // registered, about to load the state again
    | Taking                    // saw ready, about to take the result
    | Parked                    // returned pending
    | Dropped

  /** `given` is what the callback was called with, `answers` what polls returned,
      `departures` how often the state left pending. */
  datatype State = State(phase: Phase, result: Option<int>, registered: bool, woken: bool, present: bool,
                         callback: Callback, future: Future,
                         given: Option<int>, answers: seq<Answer>, departures: nat)

  function Start(): State {
    State(Pending, None, false, false, true, Held, Idle, None, [], 0)
  }

  datatype Action =
    | OnResult(value: int) | Write | Publish | Wake | Abandon | LookUp | Exchange
    | Poll | Load | Register | Reload | Take | DropFuture

  predicate Enabled(s: State, a: Action) {
    match a
    case OnResult(_) => s.callback == Held
    case Write => s.callback.Writing?
    case Publish => s.callback == Publishing
    case Wake => s.callback == Waking || s.callback == WakingClosed
    case Abandon => s.callback == Held
    case LookUp => s.callback == Dropping
    case Exchange => s.callback == Closing
    case Poll => s.future == Idle || s.future == Parked
    case Load => s.future == Loading
    case Register => s.future == Registering
    case Reload => s.future == Reloading
    case Take => s.future == Taking
    case DropFuture => s.future == Idle || s.future == Parked
  }

  /** What a load of the state makes of a poll. */
  function See(s: State, again: bool): State {
    match s.phase
    case Pending => s.(future := if again then Parked else Registering)
    case Ready => s.(future := Taking)
    case HangUp => s.(future := Idle, answers := s.answers + [NoResponse])
  }

  function Do(s: State, a: Action): State
    requires Enabled(s, a)
  {
    match a
    case OnResult(v) =>
      if s.present then s.(callback := Writing(v), given := Some(v)) else s.(callback := Dropping)
    case Write => s.(result := Some(s.callback.value), callback := Publishing)
    case Publish =>
      s.(phase := Ready, callback := Waking, departures := s.departures + if s.phase == Pending then 1 else 0)
    case Wake =>
      s.(woken := s.woken || s.registered, registered := false,
         callback := if s.callback == Waking then Dropping else Gone)
    case Abandon => s.(callback := Dropping)
    case LookUp => s.(callback := if s.present then Closing else Gone)
    case Exchange =>
      if s.phase == Pending then s.(phase := HangUp, callback := WakingClosed, departures := s.departures + 1)
      else s.(callback := Gone)
    case Poll =>
      if s.present then s.(future := Loading, woken := false)
      else s.(future := Idle, woken := false, answers := s.answers + [NoResponse])
    case Load => See(s, false)
    case Register => s.(registered := true, future := Reloading)
    case Reload => See(s, true)
    case Take =>
      s.(future := Idle, result := None,
         answers := s.answers + [match s.result case Some(v) => Result(v) case None => NoResponse])
    case DropFuture => s.(future := Dropped, present := false)
  }

  // ----- What every step keeps -----

  /** The callback has not left the pending state behind. */
  predicate Before(c: Callback) {
    c == Held || c.Writing? || c == Publishing || c == Dropping || c == Closing
  }

  /** The state follows the callback: it leaves pending once, to ready with a result
      or to hang-up without. */
  ghost predicate Agrees(s: State) {
    match s.phase
    case Pending => s.departures == 0 && (Before(s.callback) || (s.callback == Gone && !s.present))
    case Ready =>
      && s.departures == 1 && s.given.Some?
      && (s.callback == Waking || s.callback == Dropping || s.callback == Closing || s.callback == Gone)
    case HangUp => s.departures == 1 && s.given == None && (s.callback == WakingClosed || s.callback == Gone)
  }

  /** What the callback was given, if anything, is on its way into the slot. */
  ghost predicate OnItsWay(s: State) {
    && (s.callback == Held ==> s.given == None && s.result == None)
    && (s.callback.Writing? ==> s.given == Some(s.callback.value) && s.result == None)
    && (s.callback == Publishing ==> s.given.Some? && s.result == s.given)
    && (s.phase == Pending && (s.callback == Dropping || s.callback == Closing) ==> s.given == None)
    && (s.callback == Held || s.callback.Writing? || s.callback == Publishing ==> s.phase == Pending)
  }

  /** The first answer is the result if there is one, and every later one is empty. */
  ghost predicate Answered(s: State) {
    && (s.answers == [] && s.phase == Ready ==> s.result == s.given)
    && (s.answers != [] ==> s.phase != Pending)
    && (s.answers != [] && s.phase == Ready ==>
          s.given.Some? && s.answers[0] == Result(s.given.value) && s.result == None)
    && (s.answers != [] && s.phase == HangUp ==> s.answers[0] == NoResponse)
    && forall i :: 1 <= i < |s.answers| ==> s.answers[i] == NoResponse
  }

  /** A future that found the state pending sees it change, has been woken, or the
      callback is about to wake it. */
  ghost predicate Watched(s: State) {
    && (s.present <==> s.future != Dropped)
    && (s.future == Taking ==> s.phase == Ready)
    && (s.future == Parked || s.future == Reloading ==>
          && (s.registered || s.woken)
          && (s.phase != Pending ==>
                s.woken || s.callback == Waking || s.callback == WakingClosed || s.future == Reloading))
    && (s.phase == Pending && s.present ==> s.callback != Gone)
    && (s.phase == Pending ==> !s.woken)
    && (s.future == Registering || s.future == Reloading || s.future == Parked ==> s.answers == [])
  }

  ghost predicate Inv(s: State) {
    Agrees(s) && OnItsWay(s) && Answered(s) && Watched(s)
  }

  lemma AgreesKept(s: State, a: Action)
    requires Inv(s) && Enabled(s, a)
    ensures Agrees(Do(s, a))
  {
  }

  lemma OnItsWayKept(s: State, a: Action)
    requires Inv(s) && Enabled(s, a)
    ensures OnItsWay(Do(s, a))
  {
  }

  lemma AnsweredKept(s: State, a: Action)
    requires Inv(s) && Enabled(s, a)
    ensures Answered(Do(s, a))
  {
  }

  lemma WatchedKept(s: State, a: Action)
    requires Inv(s) && Enabled(s, a)
    ensures Watched(Do(s, a))
  {
  }

  // ----- Every run -----

  ghost predicate Allowed(s: State, actions: seq<Action>)
    decreases |actions|
  {
    actions == [] || (Enabled(s, actions[0]) && Allowed(Do(s, actions[0]), actions[1..]))
  }

  ghost function Run(s: State, actions: seq<Action>): State
    requires Allowed(s, actions)
    decreases |actions|
  {
    if actions == [] then s else Run(Do(s, actions[0]), actions[1..])
  }

  lemma {:induction false} RunKeeps(s: State, actions: seq<Action>)
    requires Inv(s) && Allowed(s, actions)
    ensures Inv(Run(s, actions))
    decreases |actions|
  {
    if actions != [] {
      var a := actions[0];
      AgreesKept(s, a);
      OnItsWayKept(s, a);
      AnsweredKept(s, a);
      WatchedKept(s, a);
      RunKeeps(Do(s, a), actions[1..]);
    }
  }

  /** In every interleaving: the state leaves pending at most once; the result cell is
      never written while it is being taken; the first answer is the result the callback
      was given, or none if it died unused, and the result is not answered again; and a
      parked future that has not been woken is owed a step of the callback. */
  lemma EveryRun(actions: seq<Action>)
    requires Allowed(Start(), actions)
    ensures var s := Run(Start(), actions);
            && s.departures <= 1 && (s.departures == 0 <==> s.phase == Pending)
            && !(s.future == Taking && (s.callback.Writing? || s.callback == Publishing))
            && (s.answers != [] ==> s.answers[0] == Due(s.given))
            && (forall i :: 1 <= i < |s.answers| ==> s.answers[i] == NoResponse)
            && (s.future == Parked && !s.woken ==> s.registered && Steps(s.callback) > 0)
            && (s.future == Parked && !s.woken && s.phase != Pending ==>
                  s.callback == Waking || s.callback == WakingClosed)
  {
    RunKeeps(Start(), actions);
  }

  // ----- The answer comes -----

  /** Steps the callback has yet to take, if it is dropped when it is done. */
  function Steps(c: Callback): nat {
    match c
    case Held => 4
    case Writing(_) => 6
    case Publishing => 5
    case Waking => 4
    case Dropping => 3
    case Closing => 2
    case WakingClosed => 1
    case Gone => 0
  }

  /** The next step of the callback, dropping it if it is not used. */
  function Next(c: Callback): Action
    requires c != Gone
  {
    match c
    case Held => Abandon
    case Writing(_) => Write
    case Publishing => Publish
    case Waking => Wake
    case Dropping => LookUp
    case Closing => Exchange
    case WakingClosed => Wake
  }

  /** The answer due: the result, if the callback was given one. */
  function Due(given: Option<int>): Answer {
    match given case Some(v) => Result(v) case None => NoResponse
  }

  lemma {:induction false} RunThen(s: State, first: seq<Action>, rest: seq<Action>)
    requires Allowed(s, first) && Allowed(Run(s, first), rest)
    ensures Allowed(s, first + rest) && Run(s, first + rest) == Run(Run(s, first), rest)
    decreases |first|
  {
    if first == [] {
      assert first + rest == rest;
    } else {
      RunThen(Do(s, first[0]), first[1..], rest);
      assert (first + rest)[1..] == first[1..] + rest;
    }
  }

  lemma RunOne(s: State, a: Action)
    requires Enabled(s, a)
    ensures Allowed(s, [a]) && Run(s, [a]) == Do(s, a)
  {
    assert [a][1..] == [];
  }

  lemma RunTwo(s: State, a: Action, b: Action)
    requires Enabled(s, a) && Enabled(Do(s, a), b)
    ensures Allowed(s, [a, b]) && Run(s, [a, b]) == Do(Do(s, a), b)
  {
    RunOne(Do(s, a), b);
    assert [a, b][1..] == [b];
  }

  lemma RunThree(s: State, a: Action, b: Action, c: Action)
    requires Enabled(s, a) && Enabled(Do(s, a), b) && Enabled(Do(Do(s, a), b), c)
    ensures Allowed(s, [a, b, c]) && Run(s, [a, b, c]) == Do(Do(Do(s, a), b), c)
  {
    RunTwo(Do(s, a), b, c);
    assert [a, b, c][1..] == [b, c];
  }

  /** A poll of a slot with a result takes it: the first answers it, a later one finds
      nothing. */
  lemma PollTakes(s: State)
    requires Inv(s) && s.present && (s.future == Idle || s.future == Parked) && s.phase == Ready
    ensures s.given.Some? && Allowed(s, [Poll, Load, Take])
    ensures var t := Run(s, [Poll, Load, Take]);
            && t.answers == s.answers + [if s.answers == [] then Result(s.given.value) else NoResponse]
            && t == s.(future := Idle, woken := false, result := None, answers := t.answers)
  {
    RunThree(s, Poll, Load, Take);
  }

  /** A poll of a slot that was hung up on answers so. */
  lemma PollHangsUp(s: State)
    requires Inv(s) && s.present && (s.future == Idle || s.future == Parked) && s.phase == HangUp
    ensures Allowed(s, [Poll, Load])
    ensures Run(s, [Poll, Load]) == s.(future := Idle, woken := false, answers := s.answers + [NoResponse])
  {
    RunTwo(s, Poll, Load);
  }

  /** A poll of a pending slot registers the waker and parks. */
  lemma PollParks(s: State)
    requires Inv(s) && s.present && (s.future == Idle || s.future == Parked) && s.phase == Pending
    ensures Allowed(s, [Poll, Load, Register] + [Reload])
    ensures Run(s, [Poll, Load, Register] + [Reload]) == s.(future := Parked, registered := true)
  {
    RunThree(s, Poll, Load, Register);
    RunOne(Run(s, [Poll, Load, Register]), Reload);
    RunThen(s, [Poll, Load, Register], [Reload]);
  }

  /** A result that comes between the two looks of a poll is not missed. */
  lemma PollSeesLate(s: State, v: int)
    requires Inv(s) && s.present && s.future == Registering && s.callback == Held
    ensures Allowed(s, [OnResult(v), Write, Publish] + [Register, Reload, Take])
    ensures Run(s, [OnResult(v), Write, Publish] + [Register, Reload, Take]).answers == [Result(v)]
  {
    RunThree(s, OnResult(v), Write, Publish);
    RunThree(Run(s, [OnResult(v), Write, Publish]), Register, Reload, Take);
    RunThen(s, [OnResult(v), Write, Publish], [Register, Reload, Take]);
  }

  /** A callback used runs to its end: the result is in the slot, and whoever waits has
      been woken. */
  lemma CallbackDelivers(s: State, v: int)
    requires Inv(s) && s.present && s.callback == Held
    ensures Allowed(s, [OnResult(v), Write, Publish] + [Wake, LookUp, Exchange])
    ensures Run(s, [OnResult(v), Write, Publish] + [Wake, LookUp, Exchange])
         == s.(phase := Ready, result := Some(v), given := Some(v), callback := Gone, departures := 1,
               registered := false, woken := s.woken || s.registered)
  {
    RunThree(s, OnResult(v), Write, Publish);
    RunThree(Run(s, [OnResult(v), Write, Publish]), Wake, LookUp, Exchange);
    RunThen(s, [OnResult(v), Write, Publish], [Wake, LookUp, Exchange]);
  }

  /** A callback dropped unused hangs up, and wakes whoever waits. */
  lemma CallbackHangsUp(s: State)
    requires Inv(s) && s.present && s.callback == Held
    ensures Allowed(s, [Abandon, LookUp, Exchange] + [Wake])
    ensures Run(s, [Abandon, LookUp, Exchange] + [Wake])
         == s.(phase := HangUp, callback := Gone, departures := 1, registered := false,
               woken := s.woken || s.registered)
  {
    RunThree(s, Abandon, LookUp, Exchange);
    RunOne(Run(s, [Abandon, LookUp, Exchange]), Wake);
    RunThen(s, [Abandon, LookUp, Exchange], [Wake]);
  }

  /** Once the future is dropped, the callback does nothing. */
  lemma CallbackTooLate(s: State, v: int)
    requires Inv(s) && (s.future == Idle || s.future == Parked) && s.callback == Held
    ensures Allowed(s, [DropFuture, OnResult(v), LookUp])
    ensures Run(s, [DropFuture, OnResult(v), LookUp]) == s.(future := Dropped, present := false, callback := Gone)
  {
    RunThree(s, DropFuture, OnResult(v), LookUp);
  }

  /** From a settled slot a poll gives the answer due. */
  ghost predicate Answering(s: State, actions: seq<Action>) {
    Allowed(s, actions) && var t := Run(s, actions);
    t.callback == Gone && t.future == Idle && t.answers == [Due(t.given)]
  }

  /** Every future that waits can get its answer: the callback can finish, which wakes it,
      and its next poll answers what the callback was given. */
  lemma WaiterAnswered(s: State)
    requires Inv(s) && s.future == Parked
    ensures exists actions :: Answering(s, actions)
  {
    Settles(s);
    var actions :| Settled(s, actions);
    RunKeeps(s, actions);
    var t := Run(s, actions);
    if t.phase == Ready {
      PollTakes(t);
      RunThen(s, actions, [Poll, Load, Take]);
      assert Answering(s, actions + [Poll, Load, Take]);
    } else {
      PollHangsUp(t);
      RunThen(s, actions, [Poll, Load]);
      assert Answering(s, actions + [Poll, Load]);
    }
  }

  /** The callback can always finish, nothing blocks it, and by then a parked future has
      been woken and the state is settled. */
  lemma {:induction false} Settles(s: State)
    requires Inv(s) && s.future == Parked
    ensures exists actions :: Settled(s, actions)
    decreases Steps(s.callback)
  {
    if s.callback == Gone {
      assert Settled(s, []);
    } else {
      var a := Next(s.callback);
      var t := Do(s, a);
      AgreesKept(s, a);
      OnItsWayKept(s, a);
      AnsweredKept(s, a);
      WatchedKept(s, a);
      assert Inv(t) && t.future == Parked;
      Settles(t);
      var rest :| Settled(t, rest);
      assert ([a] + rest)[1..] == rest;
      assert Settled(s, [a] + rest);
    }
  }

  ghost predicate Settled(s: State, actions: seq<Action>) {
    Allowed(s, actions) && var t := Run(s, actions);
    t.future == Parked && t.callback == Gone && t.woken && t.phase != Pending
  }
}
