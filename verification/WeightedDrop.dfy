/** Dropping the receiver of the weighted channel: exactly when a sender is left
    asleep for good. */
module WeightedDrop {
  import opened Basics
  import opened WeightedChannel

  /** A sender whose listener nobody has notified, and that waits on it or is about to. */
  predicate Exposed(c: Channel, t: nat) {
    t < |c.senders| && t in c.listeners && (c.senders[t].Parked? || c.senders[t].Rechecked?)
  }

  ghost predicate NoneExposed(c: Channel) {
    forall t: nat :: !Exposed(c, t)
  }

  /** An exposed sender that will not find room when it looks once more. */
  predicate Asleep(c: Channel, t: nat) {
    && Exposed(c, t)
    && (c.senders[t].Rechecked? ==> !HasCapacity(c.occupation, c.senders[t].weight, c.bound))
  }

  ghost predicate NoneAsleep(c: Channel) {
    forall t: nat :: !Asleep(c, t)
  }

  /** A sender that cannot end without finding the channel closed at its push, which
      makes it notify everybody. */
  predicate Rescuer(c: Channel, s: Sender) {
    match s
    case Sending(_) => true
    case Failed => true
    case FailedReset => true
    case TryOpen(w) => HasCapacity(c.occupation, w, c.bound)
    case Trying(w, current) => HasCapacity(current, w, c.bound) && HasCapacity(c.occupation, w, c.bound)
    case _ => false
  }

  ghost predicate HasRescuer(c: Channel) {
    exists t :: 0 <= t < |c.senders| && Rescuer(c, c.senders[t])
  }

  // ----- No sender is lost unless one is asleep with no rescuer -----

  /** Closed, and nobody asleep or somebody sure to notify. */
  ghost predicate Safe(c: Channel) {
    c.receiver.Closed? && (NoneAsleep(c) || HasRescuer(c))
  }

  /** A step of a closed channel that changes the occupation leaves a rescuer behind. */
  lemma ChangeRescues(c: Channel, a: Action)
    requires c.receiver.Closed? && Enabled(c, a) && Do(c, a).occupation != c.occupation
    ensures HasRescuer(Do(c, a))
  {
    assert Rescuer(Do(c, a), Do(c, a).senders[a.t]);
  }

  lemma RescuerStays(c: Channel, a: Action, u: nat)
    requires c.receiver.Closed? && Enabled(c, a) && Do(c, a).occupation == c.occupation
    requires u < |c.senders| && Rescuer(c, c.senders[u])
    ensures Do(c, a).listeners == {} || HasRescuer(Do(c, a))
  {
    var c' := Do(c, a);
    if a != NotifyFailure(u) {
      assert Rescuer(c', c'.senders[u]);
    }
  }

  lemma AwakeStays(c: Channel, a: Action)
    requires c.receiver.Closed? && Enabled(c, a) && Do(c, a).occupation == c.occupation && NoneAsleep(c)
    ensures NoneAsleep(Do(c, a))
  {
    var c' := Do(c, a);
    forall t: nat ensures !Asleep(c', t) {
      assert !Asleep(c, t);
    }
  }

  lemma SafeStep(c: Channel, a: Action)
    requires Safe(c) && Enabled(c, a)
    ensures Safe(Do(c, a))
  {
    if Do(c, a).occupation != c.occupation {
      ChangeRescues(c, a);
    } else if HasRescuer(c) {
      var u :| 0 <= u < |c.senders| && Rescuer(c, c.senders[u]);
      RescuerStays(c, a, u);
    } else {
      AwakeStays(c, a);
    }
  }

  lemma {:induction false} SafeRun(c: Channel, actions: seq<Action>, c': Channel)
    requires Safe(c) && Runs(c, actions, c')
    ensures Safe(c')
    decreases |actions|
  {
    if actions != [] {
      SafeStep(c, actions[0]);
      SafeRun(Do(c, actions[0]), actions[1..], c');
    }
  }

  lemma SafeNotStranded(c: Channel, t: nat)
    requires Safe(c)
    ensures !Stranded(c, t)
  {
    if Stranded(c, t) {
      assert Asleep(c, t);
    }
  }

  // ----- A sender that is asleep with no rescuer is lost in some run -----

  ghost predicate Reaches(c: Channel, c': Channel) {
    exists actions :: Runs(c, actions, c')
  }

  lemma ReachesFrom(c: Channel, a: Action, c': Channel)
    requires Enabled(c, a) && Reaches(Do(c, a), c')
    ensures Reaches(c, c')
  {
    var actions :| Runs(Do(c, a), actions, c');
    assert ([a] + actions)[1..] == actions;
    assert Runs(c, [a] + actions, c');
  }

  /** Closed, `t` asleep, nobody to notify it, and the senders before `k` done with
      what they were about to do. */
  ghost predicate Doomed(c: Channel, t: nat, k: nat) {
    && c.receiver.Closed? && Asleep(c, t) && k <= |c.senders|
    && (forall u :: 0 <= u < |c.senders| ==> !Rescuer(c, c.senders[u]))
    && (forall u :: 0 <= u < k ==> !Committed(c.senders[u]))
  }

  /** A next step of sender `k` towards giving up: its compare-exchange fails. */
  function GiveUp(s: Sender, k: nat): Action
    requires Committed(s)
  {
    match s
    case Cleared(_, _) => Attempt(k, true)
    case TryOpen(_) => TryLoad(k)
    case Trying(_, _) => TryAttempt(k, true)
    case Sending(_) => Push(k)
    case Failed => ResetOccupation(k)
    case FailedReset => NotifyFailure(k)
  }

  /** Steps it has left to take. */
  function Left(c: Channel, k: nat): nat {
    if k >= |c.senders| then 0
    else match c.senders[k]
         case TryOpen(_) => 3
         case Trying(w, current) => if HasCapacity(current, w, c.bound) then 2 else 1
         case Cleared(_, _) => 1
         case _ => 0
  }

  lemma GiveUpKeeps(c: Channel, t: nat, k: nat)
    requires Doomed(c, t, k) && k < |c.senders| && Committed(c.senders[k])
    ensures var a := GiveUp(c.senders[k], k);
            && Enabled(c, a) && Doomed(Do(c, a), t, k) && |Do(c, a).senders| == |c.senders|
            && Left(Do(c, a), k) < Left(c, k)
  {
    assert !Rescuer(c, c.senders[k]);
  }

  lemma {:induction false} CanBeLost(c: Channel, t: nat, k: nat) returns (c': Channel)
    requires Doomed(c, t, k)
    ensures Reaches(c, c') && Stranded(c', t)
    decreases |c.senders| - k, Left(c, k)
  {
    if k < |c.senders| {
      if Committed(c.senders[k]) {
        GiveUpKeeps(c, t, k);
        var a := GiveUp(c.senders[k], k);
        c' := CanBeLost(Do(c, a), t, k);
        ReachesFrom(c, a, c');
      } else {
        c' := CanBeLost(c, t, k + 1);
      }
    } else if c.senders[t].Rechecked? {
      c' := Do(c, Reload(t));
      assert Runs(c', [], c');
      ReachesFrom(c, Reload(t), c');
    } else {
      c' := c;
      assert Runs(c, [], c);
    }
  }

  // ----- The theorem -----

  /** A later state in which a sender sleeps for good. */
  ghost predicate CanStrand(c: Channel) {
    exists c', t: nat :: Reaches(c, c') && Stranded(c', t)
  }

  /** Closing the channel can leave a sender asleep for good exactly if one is asleep at
      that moment and no sender is on the way to notify it. */
  lemma DropStrandsIff(c: Channel)
    requires c.receiver.Notified?
    ensures CanStrand(Do(c, DropClose)) <==> (exists t: nat :: Asleep(c, t)) && !HasRescuer(c)
  {
    var d := Do(c, DropClose);
    if NoneAsleep(c) || HasRescuer(c) {
      StaysSafe(c);
      forall c', t: nat | Reaches(d, c') ensures !Stranded(c', t) {
        var actions :| Runs(d, actions, c');
        SafeRun(d, actions, c');
        SafeNotStranded(c', t);
      }
    } else {
      var t: nat :| Asleep(c, t);
      assert Asleep(d, t);
      forall u | 0 <= u < |d.senders| ensures !Rescuer(d, d.senders[u]) {
        assert !Rescuer(c, c.senders[u]);
      }
      var c' := CanBeLost(d, t, 0);
      assert Reaches(d, c') && Stranded(c', t);
    }
  }

  lemma StaysSafe(c: Channel)
    requires c.receiver.Notified? && (NoneAsleep(c) || HasRescuer(c))
    ensures Safe(Do(c, DropClose))
  {
    var d := Do(c, DropClose);
    if HasRescuer(c) {
      var u :| 0 <= u < |c.senders| && Rescuer(c, c.senders[u]);
      assert Rescuer(d, d.senders[u]);
    } else {
      forall t: nat ensures !Asleep(d, t) {
        assert !Asleep(c, t);
      }
    }
  }

  /** So if nobody waits on a listener made since the notification, nobody is lost. */
  lemma DropSafe(c: Channel, actions: seq<Action>, c': Channel, t: nat)
    requires c.receiver.Notified? && NoneExposed(c) && Runs(Do(c, DropClose), actions, c')
    ensures !Stranded(c', t)
  {
    forall u: nat ensures !Asleep(c, u) {
      assert !Exposed(c, u);
    }
    StaysSafe(c);
    SafeRun(Do(c, DropClose), actions, c');
    SafeNotStranded(c', t);
  }

  /** A listener that was not there before was made by an attempt that found no room. */
  lemma {:induction false} ListenerMade(c: Channel, actions: seq<Action>, c': Channel, t: nat)
    requires Runs(c, actions, c') && t !in c.listeners && t in c'.listeners
    ensures exists i, spurious :: 0 <= i < |actions| && actions[i] == Attempt(t, spurious)
    decreases |actions|
  {
    var d := Do(c, actions[0]);
    if t in d.listeners {
      assert actions[0] == Attempt(t, actions[0].spurious);
    } else {
      ListenerMade(d, actions[1..], c', t);
      var i, spurious :| 0 <= i < |actions[1..]| && actions[1..][i] == Attempt(t, spurious);
      assert actions[i + 1] == Attempt(t, spurious);
    }
  }

  /** Whoever is asleep when the channel closes made its listener between the
      notification and the closing: the window of `drop`. */
  lemma OnlyInWindow(z: Channel, actions: seq<Action>, c: Channel, t: nat)
    requires z.receiver.Zeroed? && Runs(Do(z, DropNotify), actions, c) && c.receiver.Notified? && Exposed(c, t)
    ensures exists i, spurious :: 0 <= i < |actions| && actions[i] == Attempt(t, spurious)
    ensures DropClose !in actions
  {
    ListenerMade(Do(z, DropNotify), actions, c, t);
    NotClosedYet(Do(z, DropNotify), actions, c);
  }

  lemma {:induction false} NotClosedYet(c: Channel, actions: seq<Action>, c': Channel)
    requires (c.receiver.Notified? || c.receiver.Closed?) && Runs(c, actions, c') && c'.receiver.Notified?
    ensures c.receiver.Notified? && DropClose !in actions
    decreases |actions|
  {
    if actions != [] {
      NotClosedYet(Do(c, actions[0]), actions[1..], c');
    }
  }

  /** A stranded sender stays so in every run that does not drop its future or pass it
      a notification. */
  lemma {:induction false} StrandedRun(c: Channel, actions: seq<Action>, c': Channel, t: nat)
    requires Stranded(c, t) && Runs(c, actions, c') && Cancel(t) !in actions && Nudge(t) !in actions
    ensures Stranded(c', t)
    decreases |actions|
  {
    if actions != [] {
      StrandedForever(c, t, actions[0]);
      StrandedRun(Do(c, actions[0]), actions[1..], c', t);
    }
  }
}
