/** The single-threaded channel. Its operations run to completion, so each is the
    multi-threaded protocol without interruption, and every state it reaches is
    one the protocol reaches. */
module WeightedSt {
  import opened Basics
  import opened WeightedChannel

  datatype SendResult = Sent | Full | Disconnected

  datatype Received = Item(weight: Word) | Empty

  class StChannel {
    const bound: nat
    var occupation: Word
    var queue: seq<Word>
    var receiverExists: bool
    /** Suspended `send` futures, and which of their listeners await a notification. */
    ghost var futures: seq<Sender>
    var listeners: set<nat>

    ghost function View(): Channel
      reads this
    {
      Channel(bound, occupation, queue, futures, listeners, if receiverExists then Ready else Closed)
    }

    ghost predicate Valid()
      reads this
    {
      Reachable(View())
    }

    constructor (bound: nat, ghost senders: nat)
      ensures Valid() && View() == Start(bound, senders)
      ensures this.bound >= 1 && (bound >= 1 ==> this.bound == bound)
    {
      this.bound := if bound > 1 then bound else 1;
      occupation, queue, receiverExists := 0, [], true;
      futures, listeners := seq(senders, _ => Idle), {};
      new;
      assert Runs(Start(bound, senders), [], View());
    }

    /** One turn of the `send` loop, first or after a wake-up: `Full` means that the
        future suspends on a new listener. */
    method Send(t: nat, w: Word) returns (r: SendResult)
      requires Valid() && t < |futures|
      requires futures[t].Idle? || (futures[t] == Parked(w) && t !in listeners)
      modifies this
      ensures Valid() && receiverExists == old(receiverExists)
      ensures r.Disconnected? <==> !receiverExists
      ensures r.Sent? ==> && HasCapacity(old(occupation), w, bound)
                          && occupation == old(occupation) + w && queue == old(queue) + [w]
                          && futures == old(futures)[t := Idle] && listeners == old(listeners)
      ensures r.Full? ==> && !HasCapacity(occupation, w, bound)
                          && occupation == old(occupation) && queue == old(queue)
                          && futures == old(futures)[t := Parked(w)] && listeners == old(listeners) + {t}
      ensures r.Disconnected? ==> occupation == old(occupation) && queue == old(queue) && listeners == old(listeners)
    {
      ghost var c, first := View(), if futures[t].Idle? then Begin(t, w) else Wake(t);
      if !receiverExists {
        EndsAtOnce(c, t, w, first);
        ReachRun(c, [first, Check(t)], c.Set(t, Idle));
        futures := futures[t := Idle];
        return Disconnected;
      }
      if HasCapacity(occupation, w, bound) {
        SendsAtOnce(c, t, w, first);
        occupation := occupation + w;
        queue := queue + [w];
        futures := futures[t := Idle];
        ReachRun(c, [first, Check(t), Attempt(t, false), Push(t)], View());
        return Sent;
      }
      ParksAtOnce(c, t, w, first);
      listeners := listeners + {t};
      futures := futures[t := Parked(w)];
      ReachRun(c, [first, Check(t), Attempt(t, false), Recheck(t), Reload(t)], View());
      return Full;
    }

    method TrySend(ghost t: nat, w: Word) returns (r: SendResult)
      requires Valid() && t < |futures| && futures[t].Idle?
      modifies this`occupation, this`queue
      ensures Valid()
      ensures r == if !receiverExists then Disconnected
                   else if HasCapacity(old(occupation), w, bound) then Sent else Full
      ensures if r.Sent? then occupation == old(occupation) + w && queue == old(queue) + [w]
              else occupation == old(occupation) && queue == old(queue)
    {
      if !receiverExists {
        return Disconnected;
      }
      if !HasCapacity(occupation, w, bound) {
        return Full;
      }
      ghost var c := View();
      TrySendsAtOnce(c, t, w);
      occupation := occupation + w;
      queue := queue + [w];
      ReachRun(c, [TryBegin(t, w), TryLoad(t), TryAttempt(t, false), Push(t)], View());
      return Sent;
    }

    /** Takes the oldest item; its weight never exceeds the occupation. */
    method TryRecv() returns (r: Received)
      requires Valid() && receiverExists
      modifies this`occupation, this`queue, this`listeners
      ensures Valid()
      ensures if old(queue) == [] then r == Empty && View() == old(View())
              else && r == Item(old(queue)[0]) && queue == old(queue)[1..]
                   && occupation == old(occupation) - old(queue)[0]
                   && listeners == if HasCapacity(occupation, r.weight, bound) then {} else old(listeners)
    {
      if queue == [] {
        return Empty;
      }
      ghost var c := View();
      ReceivesAtOnce(c);
      var weight := queue[0];
      queue := queue[1..];
      occupation := occupation - weight;
      if HasCapacity(occupation, weight, bound) {
        listeners := {};
      }
      ReachRun(c, [Pop, Subtract, Notify], View());
      return Item(weight);
    }

    /** Unlike the multi-threaded receiver, nobody can park before it is closed. */
    method DropReceiver()
      requires Valid() && receiverExists
      modifies this`occupation, this`queue, this`listeners, this`receiverExists
      ensures Valid() && !receiverExists && listeners == {}
      ensures forall t :: !Stranded(View(), t)
    {
      ghost var c := View();
      DropsAtOnce(c);
      occupation := 0;
      listeners := {};
      queue := [];
      receiverExists := false;
      ReachRun(c, [DropZero, DropNotify, DropClose], View());
    }
  }
}
