/** The `!Send` event: listeners remember the epoch they were created in, link
    themselves into the event's list when first polled, and are all notified
    together. The epoch wraps around; ghost counts keep the true number of rounds. */
module ListenerEvent {
  import opened Basics

  type Waker = nat

  class EventListener {
    const event: Event
    const targetEpoch: nat
    var waker: Option<Waker>
    var notified: bool
    ghost const created: nat

    constructor (event: Event)
      ensures this.event == event && targetEpoch == event.epoch && created == event.rounds
      ensures waker == None && !notified
    {
      this.event := event;
      targetEpoch := event.epoch;
      waker := None;
      notified := false;
      created := event.rounds;
    }

    /** Whether the event has notified since the listener was created. */
    ghost predicate Signalled()
      reads this, event
    {
      event.rounds > created
    }

    /** It has, but in whole turns of the epoch, and never while the listener was linked. */
    ghost predicate Missed()
      reads this, event
    {
      event.rounds > created && (event.rounds - created) % WORD == 0 && !notified
    }

    /** Ready exactly when the event has notified since, unless the epoch has wrapped to
        where it was and the listener was never linked; otherwise the listener is linked,
        once, and holds the latest waker. */
    method Poll(cx: Waker) returns (ready: bool)
      requires event.Valid() && event.Knows(this)
      modifies this`waker, event`list
      ensures event.Valid() && event.Knows(this)
      ensures ready <==> Signalled() && !Missed()
      ensures ready ==> event.list == old(event.list) && waker == old(waker)
      ensures !ready ==> this in event.list && waker == Some(cx)
      ensures !ready ==> event.list == if this in old(event.list) then old(event.list) else old(event.list) + [this]
    {
      WrappedEqual(created, event.rounds, WORD);
      if event.epoch != targetEpoch {
        return true;
      }
      if notified {
        return true;
      }
      waker := Some(cx);
      if this !in event.list {
        event.list := event.list + [this];
      }
      return false;
    }

    /** Dropping unlinks the listener and no other. */
    method Drop()
      requires event.Valid()
      modifies event`list
      ensures event.Valid() && this !in event.list
      ensures forall l :: l in event.list <==> l in old(event.list) && l != this
      ensures forall i :: 0 <= i < |old(event.list)| && old(event.list)[i] == this ==>
                event.list == old(event.list)[..i] + old(event.list)[i + 1..]
    {
      UnlinkedDistinct(event.list, this);
      UnlinkedKeepsOrder(event.list, this);
      event.list := Unlinked(event.list, this);
    }
  }

  /** The intrusive list without one of its nodes. */
  function Unlinked(list: seq<EventListener>, l: EventListener): (r: seq<EventListener>)
    ensures forall x :: x in r ==> x in list && x != l
    ensures forall x :: x in list && x != l ==> x in r
  {
    if list == [] then []
    else if list[0] == l then Unlinked(list[1..], l)
    else [list[0]] + Unlinked(list[1..], l)
  }

  predicate Distinct(list: seq<EventListener>) {
    forall i, j :: 0 <= i < j < |list| ==> list[i] != list[j]
  }

  lemma {:induction false} UnlinkedDistinct(list: seq<EventListener>, l: EventListener)
    requires Distinct(list)
    ensures Distinct(Unlinked(list, l))
  {
    if list != [] {
      UnlinkedDistinct(list[1..], l);
      var rest := Unlinked(list[1..], l);
      assert forall x :: x in rest ==> x in list[1..];
      assert list[0] !in list[1..];
    }
  }

  /** The others stay in order. */
  lemma {:induction false} UnlinkedAt(list: seq<EventListener>, l: EventListener, i: nat)
    requires Distinct(list) && i <= |list| && (i < |list| ==> list[i] == l) && l !in list[..i]
    ensures Unlinked(list, l) == if i < |list| then list[..i] + list[i + 1..] else list
    decreases |list|
  {
    if i > 0 {
      var rest := list[1..];
      assert list[0] == list[..i][0] && rest[..i - 1] == list[..i][1..];
      UnlinkedAt(rest, l, i - 1);
      assert [list[0]] + rest[..i - 1] == list[..i];
    } else if list != [] {
      assert l !in list[1..];
      UnlinkedAt(list[1..], l, |list[1..]|);
    }
  }

  lemma UnlinkedKeepsOrder(list: seq<EventListener>, l: EventListener)
    requires Distinct(list)
    ensures forall i :: 0 <= i < |list| && list[i] == l ==> Unlinked(list, l) == list[..i] + list[i + 1..]
  {
    forall i | 0 <= i < |list| && list[i] == l ensures Unlinked(list, l) == list[..i] + list[i + 1..] {
      UnlinkedAt(list, l, i);
    }
  }

  class Event {
    var list: seq<EventListener>
    var epoch: nat
    ghost var rounds: nat

    constructor ()
      ensures Valid() && list == [] && epoch == 0 && rounds == 0
    {
      list, epoch, rounds := [], 0, 0;
    }

    /** Linked listeners are distinct, belong to this event and its current epoch,
        are unnotified and hold a waker: none waits for a notification that has passed. */
    ghost predicate Valid()
      reads this, list
    {
      && Distinct(list) && epoch == rounds % WORD
      && forall l :: l in list ==> l.event == this && l.targetEpoch == epoch && !l.notified && l.waker.Some?
    }

    /** A listener of this event is notified exactly when it was linked and passed over. */
    ghost predicate Knows(l: EventListener)
      reads this, l
    {
      l.event == this && l.created <= rounds && l.targetEpoch == l.created % WORD && (l.notified ==> l.created < rounds)
    }

    method Listen() returns (l: EventListener)
      requires Valid()
      ensures fresh(l) && l.event == this && !l.Signalled() && l !in list && Knows(l)
    {
      l := new EventListener(this);
    }

    /** Signals every listener there is, and wakes each linked one exactly once with
        the waker of its last poll. */
    method NotifyAll() returns (woken: seq<Waker>)
      requires Valid()
      modifies this, list
      ensures Valid() && list == [] && rounds == old(rounds) + 1
      ensures forall l: EventListener :: l.event == this && l.created <= old(rounds) ==> l.Signalled()
      ensures |woken| == |old(list)|
      ensures forall i :: 0 <= i < |woken| ==> old(list[i].waker) == Some(woken[i])
      ensures forall l :: l in old(list) ==> l.notified && l.waker == None && !l.Missed()
    {
      WrappingCount(rounds);
      epoch := WrappingInc(epoch);
      rounds := rounds + 1;
      woken := [];
      ghost var all := list;
      while list != []
        invariant |woken| + |list| == |all| && list == all[|woken|..]
        invariant epoch == rounds % WORD && rounds == old(rounds) + 1
        invariant forall i :: 0 <= i < |woken| ==> old(all[i].waker) == Some(woken[i])
        invariant forall i :: 0 <= i < |woken| ==> all[i].notified && all[i].waker == None
        invariant forall i :: |woken| <= i < |all| ==> all[i].waker == old(all[i].waker)
        decreases |list|
      {
        var waiter := list[0];
        assert waiter == all[|woken|];
        list := list[1..];
        waiter.notified := true;
        if waiter.waker.Some? {
          woken := woken + [waiter.waker.value];
          waiter.waker := None;
        }
      }
    }
  }
}
