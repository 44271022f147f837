# Verification of the aquic core

A Dafny model of the stateful parts of the aquic QUIC runtime, and proofs about every
run of them. `dafny verify dfyconfig.toml` checks all of it.

- **Wheel timer** (`TimerArithmetic`, `TimerLevel`, `TimerWheel`, `TimerRun`, `TimerImpl`).
  A level is a map from absolute positions to event lists; each waiting event has a
  predicted firing clock, which ticks keep and growth only delays. Runs neither lose nor
  repeat an event, and the promise never to fire early is settled exactly.
- **Bip buffer** (`BipModel`, `BipSession`, `BipRun`, `BipImpl`). Unreclaimed slices tile
  two regions; slices come back in any order.
- **Weighted channel** (`WeightedChannel`, `WeightedDrop`, `WeightedSt`). The
  compare-exchange and listener protocol with any number of senders, as interleaved atomic
  steps, and exactly when a drop loses a sender; the single-threaded form is one of its
  runs. `ListenerEvent` is the `!Send` event on its own.
- **Segmented batching** (`GsoGrouping`, `GsoWrite`, `GsoSession`). `write_pending` over the
  bip buffer, for any connection that stays within the room it is offered, and any mix of
  its calls with returned messages.
- **Server connection IDs** (`FourPass`, `ServerCid`, `ConnectionIds`), with any block
  function in the place of AES. The format is that of the sections "First CID octet" and
  "CID format" of draft-ietf-quic-load-balancers-14.
- **Tokens and key rotation** (`AeadKeys`, `TokenFormat`, `PaddedTokens`), for sections 8.1.2
  and 8.1.3 of RFC 9000, with any AEAD that binds the texts in play.
- **RPC slot** (`RpcSlot`), **connection registry** (`Registry`) and **timer slots**
  (`TimerSlots`, on top of the wheel timer's runs).

Random bytes, clocks, nonces and the answers of quiche (`send`, pacing, quanta, source IDs
and the retirement queue) are parameters, quantified over.

Where the code differs from what it documents, the model follows the code:

- `WheelTimer::schedule` documents that an event is never early. It is, in the last tick of
  an exact ring, which the 1 ms / 64 ms timer has, and on a clock that lags behind `now`;
  `SchedulePromise` says exactly when the promise holds.
- `BipBufferInner` issues ids from 0 but expects the first release to be 1, so after a
  non-empty first commit no memory is ever reclaimed and returning the second slice panics
  (`RunPhase`, `AllDropped`, `SecondReturnPanics`); since `write_pending` never commits
  nothing, that is so of every new `IO` (`NewIsStuck`). With an empty first commit the ids are in
  step until the next empty commit; slices after that one are never reclaimed
  (`LateSlicesStay`, `GapLeaks`). A reservation must not be committed once region A was
  emptied under it (`ReleaseAttachedIff`, `DetachedCommitBreaks`, `DetachedRunPanics`); it may
  still be written through and dropped.
- The receiver of the multi-threaded weighted channel notifies before it closes when
  dropped, which can strand a sender (`DropCanStrand`, and exactly when in `DropStrandsIff`).
- `Connections::remove` takes out the address entry of the first validated path, not the one
  `insert` made, so an entry can dangle (`DanglingAfterRemove`, `RemoveAddrIff`).
- `cid_len` documents the length of generated IDs but leaves out the first octet, so `validate`,
  documented never to refuse a generated ID, refuses most of them (`LengthAnnounced`,
  `OwnAdmittedIff`, `ExampleRefused`).
- `ConnectionId::try_from_iter` documents the same limit as `try_from_slice`, but refuses
  exactly twenty bytes, so a retry token for such an original ID never verifies.
- `Aead::unpack_and_decrypt` documents that a failure may leave the text dirty; it restores it.

## Model

| member | source | states |
|---|---|---|
| `TimerArithmetic.LevelIndexLeast` | aquic-core/src/util/timer/mod.rs:158-169 | The level chosen for a delay is the one whose range selects it, and the least whose coverage exceeds it. |
| `TimerArithmetic.TicksAtMost` | aquic-core/src/util/timer/mod.rs:171-174 | A delay's tick count on its own level never exceeds the coverage in ticks, rounded up. |
| `TimerArithmetic.TicksFit` | aquic-core/src/util/timer/mod.rs:111-131 | The tick count is below the bucket count exactly when the delay is not in the last tick of an exact ring (coverage / hz a power of two, at least 2). |
| `TimerArithmetic.AllTicksFit` | aquic-core/src/util/timer/level.rs:51-55 | What the level demands of its caller holds for every delay exactly when the ring is not exact. |
| `TimerArithmetic.LastTickExists` | aquic-core/src/util/timer/mod.rs:111-131 | An exact ring has a delay that does not fit, on level 1. |
| `TimerArithmetic.TakesPart` | aquic-core/src/util/timer/mod.rs:138-155 | Level i takes part in a tick exactly when the low i bits of the counter are zero, and all do when it wraps to zero. |
| `TimerArithmetic.GapAfterTick` | aquic-core/src/util/timer/mod.rs:138-155 | Ticks until a level takes part count down by one and restart at its period, also across wrap-around. |
| `TimerArithmetic.MaskIsRemainder` | aquic-core/src/util/timer/level.rs:93-96 | Masking an index is its remainder by the ring size. |
| `TimerLevel.PositionInjective` | aquic-core/src/util/timer/level.rs:122-128 | Epoch and bucket index are determined by the absolute position they stand for. |
| `TimerLevel.ScheduleAppends` | aquic-core/src/util/timer/level.rs:53-74 | As a map from absolute positions to event lists, a schedule appends at one position and its key names exactly that element. |
| `TimerLevel.TickAdvances` | aquic-core/src/util/timer/level.rs:76-91 | A tick hands out the list at the cursor and keeps every later position. |
| `TimerLevel.CancelExact` | aquic-core/src/util/timer/level.rs:103-120 | Cancelling replaces exactly the named element while its position is ahead, and changes nothing once it has passed, even if the bucket is reused. |
| `TimerLevel.Level.constructor` | aquic-core/src/util/timer/level.rs:27-46 | A new level is the empty ring. |
| `TimerLevel.Level.Schedule` | aquic-core/src/util/timer/level.rs:53-74 | The bucket array, updated in place, follows the ring's schedule. |
| `TimerLevel.Level.Tick` | aquic-core/src/util/timer/level.rs:76-91 | Same for the tick, index and epoch included. |
| `TimerLevel.Level.Cancel` | aquic-core/src/util/timer/level.rs:103-120 | Same for the cancellation, with its two early returns. |
| `TimerWheel.TickExact` | aquic-core/src/util/timer/mod.rs:138-155 | A tick fires a waiting position exactly when its predicted firing clock has come, and otherwise keeps its events and its prediction. |
| `TimerWheel.TickTakes` | aquic-core/src/util/timer/mod.rs:138-155 | A tick takes the lists at the cursors of exactly the levels whose predicted clock has come, which are the lowest ones. |
| `TimerWheel.ProgressClock` | aquic-core/src/util/timer/mod.rs:101-109 | Progress ends with the clock beyond now, and no more than one hz beyond if it was not before. |
| `TimerWheel.ProgressExact` | aquic-core/src/util/timer/mod.rs:101-109 | Progress hands out exactly the positions whose predicted clock is due, each once and with the list that was waiting, and touches no other. |
| `TimerWheel.ProgressOnce` | aquic-core/src/util/timer/mod.rs:101-109 | Positions are handed out in the order of their clocks and, within one tick, of their levels, so none is handed out twice. |
| `TimerWheel.ProgressHandsOut` | aquic-core/src/util/timer/mod.rs:101-109 | What the caller sees of a progress: the lists of the positions that were due, each once, sorted by clock and level. |
| `TimerWheel.GrowthDelays` | aquic-core/src/util/timer/mod.rs:111-136 | Growth, with its counter reset, never moves a predicted clock earlier and moves it later by at most (2^L - 1) hz. |
| `TimerWheel.GrowthRestarts` | aquic-core/src/util/timer/mod.rs:133-135 | Growth restarts every period: a waiting position then fires (2^L - 1 + distance 2^L) hz after the clock. |
| `TimerWheel.GrowingSchedule` | aquic-core/src/util/timer/mod.rs:75-91 | So does an event for whose delay the wheel grows. |
| `TimerWheel.SchedulePlaces` | aquic-core/src/util/timer/mod.rs:75-91 | A schedule places the event at one position with the predicted clock given in closed form, and keeps everything else. |
| `TimerWheel.ScheduleNotEarly` | aquic-core/src/util/timer/mod.rs:73-91 | Never early when the clock has caught up with now and the ticks fit. |
| `TimerWheel.ScheduleNotEarlyIff` | aquic-core/src/util/timer/mod.rs:73-91 | With the clock at most one hz ahead of now, a schedule is not early exactly when the delay is outside an exact ring's last tick. |
| `TimerWheel.SchedulePromise` | aquic-core/src/util/timer/mod.rs:73-91 | All delays keep the documented promise, as one about the predicted clock, exactly when the ring is not exact and the clock does not lag behind now; the same condition decides for events that are not due yet, if a level covers more than one tick. |
| `TimerWheel.SomeEarly` | aquic-core/src/util/timer/mod.rs:73-91 | On an exact ring the last instant of every level whose period exceeds the clock's lead is early. |
| `TimerWheel.ScheduleEarly` | aquic-core/src/util/timer/mod.rs:73-91 | In the last tick of an exact ring the event fires before its time. |
| `TimerWheel.LaggingSchedule` | aquic-core/src/util/timer/mod.rs:73-91 | On a clock that lags, an event one tick away is early by the lag. |
| `TimerWheel.LaggingDue` | aquic-core/src/util/timer/mod.rs:73-91 | And one that is due is predicted in the past. |
| `TimerWheel.SixtyFourTickWheelFiresEarly` | aquic-core/src/backend/quiche/time.rs:27-31 | The 1 ms / 64 ms timer fires a 63.5 ms event at once. |
| `TimerWheel.ScheduleLateness` | aquic-core/src/util/timer/mod.rs:75-91 | A fitting schedule is predicted less than two periods of its level late. |
| `TimerWheel.ScheduleLatenessRatio` | aquic-core/src/util/timer/mod.rs:158-174 | On level 1 and up the lateness is below 4 hz / coverage of the delay. |
| `TimerWheel.CancelReplaces` | aquic-core/src/util/timer/mod.rs:177-186 | Cancelling an issued key replaces exactly its event, and only while its position is ahead. |
| `TimerRun.StepKeeps` | aquic-core/src/util/timer/mod.rs:75-186 | Every operation keeps the ledger of events, the log of buckets and the wheel in agreement. |
| `TimerRun.ScheduleTicket` | aquic-core/src/util/timer/mod.rs:75-91 | The ledger promises a scheduled event not to be early, or not late, exactly outside an exact ring's last tick and on a clock that has caught up, or is at most a tick ahead. |
| `TimerRun.TicketStays` | aquic-core/src/util/timer/mod.rs:75-186 | Whatever the operation, a ticket changes only by its own cancellation while it waits, and by the growth of the wheel while it waits. |
| `TimerRun.ProgressLogs` | aquic-core/src/util/timer/mod.rs:101-109 | A progress adds exactly what it hands out to the log. |
| `TimerRun.RunHandsOut` | aquic-core/src/util/timer/mod.rs:75-155 | In every run, what is handed out was scheduled, is handed out once, is its value or the default if cancelled in time, is not early under the exact conditions, and not later than the bound plus growth. |
| `TimerRun.RunLosesNothing` | aquic-core/src/util/timer/mod.rs:75-155 | In every run, every scheduled event is waiting under its key or has been handed out. |
| `TimerImpl.WheelTimer.constructor` | aquic-core/src/util/timer/mod.rs:54-70 | A new timer has one empty level. |
| `TimerImpl.WheelTimer.ExtendLevels` | aquic-core/src/util/timer/mod.rs:111-136 | The loop appends empty levels and restarts the counter. |
| `TimerImpl.WheelTimer.Schedule` | aquic-core/src/util/timer/mod.rs:75-91 | The object follows the wheel's schedule, key included. |
| `TimerImpl.WheelTimer.Progress` | aquic-core/src/util/timer/mod.rs:101-109 | The loop terminates, hands out the lists of exactly the positions that were due before the call, each once and sorted by clock and level, and returns the next clock. |
| `TimerImpl.WheelTimer.Tick` | aquic-core/src/util/timer/mod.rs:138-155 | The loop takes the list at the cursor of exactly the levels whose predicted clock has come. |
| `TimerImpl.WheelTimer.Cancel` | aquic-core/src/util/timer/mod.rs:181-185 | The object follows the wheel's cancellation. |
| `BipModel.SlicesDisjoint` | aquic-core/src/util/bipbuf.rs:260-317 | Unreclaimed slices lie in the buffer, are pairwise disjoint and lie outside an attached reservation. |
| `BipModel.ReserveAttaches` | aquic-core/src/util/bipbuf.rs:260-317 | A reservation continues a region and has the size asked for or what is available; none is made exactly when nothing, or strictly too little, is; with region B empty, A is continued exactly if the request fits behind it or there is no more space before it. |
| `BipModel.Refused` | aquic-core/src/util/bipbuf.rs:260-322 | A second reservation panics, and a commit fails exactly if it is longer than the reservation, changing nothing. |
| `BipModel.CommitExtends` | aquic-core/src/util/bipbuf.rs:319-343 | A non-empty commit extends the tiling by exactly its bytes and leaves the rest of the reservation attached. |
| `BipModel.DecommitExact` | aquic-core/src/util/bipbuf.rs:345-382 | Returning any unreclaimed slice never panics and reclaims exactly the slices in step before the oldest one not returned, given in closed form. |
| `BipModel.DrainExact` | aquic-core/src/util/bipbuf.rs:356-381 | The tombstone loop never panics and reclaims exactly the leading returned slices. |
| `BipModel.ReleasedInOrder` | aquic-core/src/util/bipbuf.rs:345-410 | After a release the tiling and the ids are in order again, and the next release expected is the smallest id in step not returned, or the one an empty commit used up. |
| `BipModel.CommitInOrder` | aquic-core/src/util/bipbuf.rs:319-343 | A non-empty commit takes the next id and keeps the order; its slice is in step exactly if no empty commit came before. |
| `BipModel.AllReturned` | aquic-core/src/util/bipbuf.rs:384-410 | Once every slice is returned, those in step are reclaimed, and the whole buffer is available exactly if that is all of them. |
| `BipModel.ReleaseAttachedIff` | aquic-core/src/util/bipbuf.rs:403-409 | A release keeps an open reservation attached exactly when region A is left non-empty. |
| `BipModel.DetachedCommitBreaks` | aquic-core/src/util/bipbuf.rs:329-336 | A commit through a detached reservation leaves no tiling at all; only an empty one at the front of the buffer does no harm. |
| `BipModel.DetachedReturnPanics` | aquic-core/src/util/bipbuf.rs:384-410 | The slice committed this way cannot be given back: when its turn comes, whatever was still held before it, the release panics. |
| `BipModel.EmptyCommit` | aquic-core/src/util/bipbuf.rs:319-343 | An empty commit through a reservation that continues its region uses up an id and changes nothing else. |
| `BipModel.EmptyReturn` | aquic-core/src/util/bipbuf.rs:345-348 | Returning the slice of an empty commit changes nothing, so its id is never released. |
| `BipRun.HealthyStep` | aquic-core/src/util/bipbuf.rs:260-410 | Every step of a session that got in step succeeds, keeps the tiling and keeps the bytes of every slice not reclaimed, provided commits go through a reservation that still continues its region. |
| `BipRun.FreshStep` | aquic-core/src/util/bipbuf.rs:207-228 | Before the first commit nothing is lost; an empty first commit puts the ids in step, any other one never. |
| `BipRun.StuckStep` | aquic-core/src/util/bipbuf.rs:345-382 | Out of step, region A never loses a byte, and returning the slice with id 1 is the only step that panics. |
| `BipRun.RunPhase` | aquic-core/src/util/bipbuf.rs:207-410 | In every such run, later empty commits included, the length of the first commit decides between the two, and only the second can panic. |
| `BipRun.AllDropped` | aquic-core/src/util/bipbuf.rs:225-226 | A run that has returned everything has its whole buffer back exactly when its first commit was empty and no slice was committed after another empty one. |
| `BipRun.LateSlicesStay` | aquic-core/src/util/bipbuf.rs:324-346 | In every run, slices committed after a later empty commit stay in the tiling for ever, returned or not, and the buffer is never whole again. |
| `BipRun.SecondReturnPanics` | aquic-core/src/util/bipbuf.rs:225-226 | As constructed, two slices committed and returned, in either order, panic. |
| `BipRun.GapRun` | aquic-core/src/util/bipbuf.rs:324-346 | A run in step with a slice after a second empty commit. |
| `BipRun.GapLeaks` | aquic-core/src/util/bipbuf.rs:324-346 | In such a run everything can be returned without a panic, and the buffer is not whole. |
| `BipRun.DetachedRunPanics` | aquic-core/src/util/bipbuf.rs:403-409 | A run that empties region A under its reservation, commits through it and returns the slice: panic. |
| `BipImpl.BipBuffer.constructor` | aquic-core/src/util/bipbuf.rs:207-230 | The start values, ids 0 and 1 included. |
| `BipImpl.BipBuffer.Reserve` | aquic-core/src/util/bipbuf.rs:260-317 | The object reserves as the model does, and panics exactly when it does. |
| `BipImpl.BipBuffer.Commit` | aquic-core/src/util/bipbuf.rs:319-343 | Same for commit. |
| `BipImpl.BipBuffer.Write` | aquic-core/src/util/bipbuf.rs:508-521 | Writing through a reservation changes exactly the bytes written. |
| `BipImpl.BipBuffer.CancelReservation` | aquic-core/src/util/bipbuf.rs:534-538 | Dropping a reservation frees the flag only. |
| `BipImpl.BipBuffer.DecommitSingle` | aquic-core/src/util/bipbuf.rs:384-410 | Same for reclaiming one slice. |
| `BipImpl.BipBuffer.Decommit` | aquic-core/src/util/bipbuf.rs:345-382 | Same for returning a slice, tombstone or not. |
| `BipImpl.BipBuffer.DrainTombstones` | aquic-core/src/util/bipbuf.rs:356-381 | The loop over the heap terminates and does what the model's drain does. |
| `BipImpl.BipBuffer.ReleaseTombstone` | aquic-core/src/util/bipbuf.rs:374-380 | Pops one tombstone and reclaims its slice, as the model does. |
| `BipImpl.Peek` | aquic-core/src/util/bipbuf.rs:357-360 | The top of the heap is the lowest id. |
| `WeightedChannel.StepKeeps` | aquic-core/src/sync/mpsc/weighted/mt.rs:31-193 | Every atomic step of every sender and the receiver keeps the invariant. |
| `WeightedChannel.SubtractKeeps` | aquic-core/src/sync/mpsc/weighted/mt.rs:148-177 | Subtracting never underflows, and testing the capacity for the consumed weight, not the waiter's, suffices to notify. |
| `WeightedChannel.EveryRun` | aquic-core/src/sync/mpsc/weighted/mt.rs:31-177 | In every interleaving with a live receiver: occupation is the weight queued, in flight and popped but not subtracted; the bound is kept or exceeded by one item; no parked sender with capacity is forgotten. |
| `WeightedChannel.OverfullIsOneItem` | aquic-core/src/sync/mpsc/weighted/mod.rs:104-121 | Beyond the bound exactly one item has any weight. |
| `WeightedChannel.IdleChannelWakesAll` | aquic-core/src/sync/mpsc/weighted/mt.rs:31-83 | On an idle channel every parked sender has been notified. |
| `WeightedChannel.SendsAtOnce` | aquic-core/src/sync/mpsc/weighted/mt.rs:31-83 | The steps of a send that is not interrupted, first or after a wake-up, on an open channel that is empty or has room up to its bound, add its item and its weight and nothing else. |
| `WeightedChannel.ParksAtOnce` | aquic-core/src/sync/mpsc/weighted/mt.rs:31-83 | Without room they leave it parked on a listener and change nothing else. |
| `WeightedChannel.EndsAtOnce` | aquic-core/src/sync/mpsc/weighted/mt.rs:31-38 | On a closed channel they end it and change nothing else. |
| `WeightedChannel.CancelsWithoutTrace` | aquic-core/src/sync/mpsc/weighted/mt.rs:60-72 | A send that is dropped while it waits leaves the channel as it was. |
| `WeightedChannel.NudgeWakes` | aquic-core/src/sync/mpsc/weighted/mt.rs:71-73 | A notification passed on wakes the sender it goes to, and no other. |
| `WeightedChannel.RetriesAtOnce` | aquic-core/src/sync/mpsc/weighted/mt.rs:39-53 | A compare-exchange that fails changes nothing, and both loops go on with the occupation found. |
| `WeightedChannel.TrySendsAtOnce` | aquic-core/src/sync/mpsc/weighted/mt.rs:85-121 | The steps of an uninterrupted try_send, with room, add its item and its weight and nothing else. |
| `WeightedChannel.TryRefusesAtOnce` | aquic-core/src/sync/mpsc/weighted/mt.rs:85-96 | Without room, or on a closed channel, they change nothing. |
| `WeightedChannel.FailsAtOnce` | aquic-core/src/sync/mpsc/weighted/mt.rs:113-118 | A push that finds the channel closed resets the occupation and notifies everybody. |
| `WeightedChannel.ReceivesAtOnce` | aquic-core/src/sync/mpsc/weighted/mt.rs:164-177 | The steps of an uninterrupted receive take the oldest item and its weight, and notify all exactly if the channel is then empty or was within its bound. |
| `WeightedChannel.DropsAtOnce` | aquic-core/src/sync/mpsc/weighted/mt.rs:188-193 | The steps of an uninterrupted drop close and empty the channel and notify all. |
| `WeightedChannel.StrandedForever` | aquic-core/src/sync/mpsc/weighted/mt.rs:188-193 | A sender stranded on a closed channel stays so whatever the others do. |
| `WeightedChannel.DropCanStrand` | aquic-core/src/sync/mpsc/weighted/mt.rs:188-193 | Dropping the receiver can strand a sender, for every bound. |
| `WeightedDrop.DropStrandsIff` | aquic-core/src/sync/mpsc/weighted/mt.rs:188-193 | Closing the channel can leave a sender asleep for good exactly if, at that moment, one waits on an unnotified listener, or is about to and will find no room, and no sender is bound to fail its push and notify. |
| `WeightedDrop.DropSafe` | aquic-core/src/sync/mpsc/weighted/mt.rs:188-193 | If nobody waits on a listener made since the notification, nobody is stranded in any run after the drop. |
| `WeightedDrop.OnlyInWindow` | aquic-core/src/sync/mpsc/weighted/mt.rs:188-193 | Whoever is exposed when the channel closes made its listener between the notification and the closing. |
| `WeightedDrop.StrandedRun` | aquic-core/src/sync/mpsc/weighted/mt.rs:31-83 | A stranded sender stays so in every run that does not drop its future or pass it a notification. |
| `WeightedSt.StChannel.constructor` | aquic-core/src/sync/mpsc/weighted/st.rs:9-22 | The channel starts empty. |
| `WeightedSt.StChannel.Send` | aquic-core/src/sync/mpsc/weighted/st.rs:30-59 | One turn of the loop is a run of the protocol: sent with capacity, suspended without, failed exactly when the receiver is gone. |
| `WeightedSt.StChannel.TrySend` | aquic-core/src/sync/mpsc/weighted/st.rs:61-80 | Sent, full or disconnected, with the exact conditions and effects. |
| `WeightedSt.StChannel.TryRecv` | aquic-core/src/sync/mpsc/weighted/st.rs:121-132 | Takes the oldest item, whose weight is covered by the occupation, and notifies. |
| `WeightedSt.StChannel.DropReceiver` | aquic-core/src/sync/mpsc/weighted/st.rs:143-149 | Notifies everybody; nobody can be stranded here. |
| `ListenerEvent.EventListener.Poll` | aquic-core/src/sync/util/event.rs:98-128 | Ready exactly when the event notified since the listener was made, unless the epoch wrapped to where it was and the listener was never linked; otherwise linked once with the latest waker. |
| `ListenerEvent.EventListener.Drop` | aquic-core/src/sync/util/event.rs:131-142 | Unlinks this listener and no other. |
| `ListenerEvent.UnlinkedDistinct` | aquic-core/src/sync/util/event.rs:131-142 | Unlinking keeps the list free of repetitions. |
| `ListenerEvent.UnlinkedKeepsOrder` | aquic-core/src/sync/util/event.rs:131-142 | And leaves the others in their order. |
| `ListenerEvent.Event.Listen` | aquic-core/src/sync/util/event.rs:61-73 | A new listener of the current epoch, not linked. |
| `ListenerEvent.Event.NotifyAll` | aquic-core/src/sync/util/event.rs:76-90 | Every listener is signalled, every linked one is woken exactly once with its last waker and cannot miss it, and the list is empty in the next, wrapping epoch. |
| `GsoGrouping.GroupPartitions` | aquic-core/src/backend/quiche/io.rs:155-191 | Grouping neither loses, repeats nor reorders a packet; groups are of one path and size, and adjacent ones differ. |
| `GsoGrouping.SegmentsArePackets` | aquic-core/src/backend/quiche/io.rs:48-70 | The bytes of a group, cut into equal segments, are its packets. |
| `GsoWrite.Overshoot` | aquic-core/src/backend/quiche/io.rs:88-94 | A visit to a path overshoots its quantum by less than its last packet exactly when the quantum is not zero; otherwise the visit is one packet. |
| `GsoWrite.VisitIsStretch` | aquic-core/src/backend/quiche/io.rs:85-94 | A visit is a longest stretch of packets on one path. |
| `GsoWrite.StoppedByQuantum` | aquic-core/src/backend/quiche/io.rs:85-94 | The loop ends by its quantum exactly once the visit has used it up. |
| `GsoWrite.CommitPacket` | aquic-core/src/backend/quiche/io.rs:48-70 | Nothing for an empty batch; otherwise its bytes become one message and the batch is empty. |
| `GsoWrite.Absorb` | aquic-core/src/backend/quiche/io.rs:142-191 | A packet joins the batch or flushes it, so that the state is the one of the longer grouping. |
| `GsoWrite.Flush` | aquic-core/src/backend/quiche/io.rs:173-190 | The batch becomes a message and the packet the new batch. |
| `GsoWrite.Put` | aquic-core/src/backend/quiche/io.rs:42-46 | The packet lands behind the batch and nothing else changes. |
| `GsoWrite.Ask` | aquic-core/src/backend/quiche/io.rs:105-139 | Every answer of pacer and connection that ends the loop, and with which result. |
| `GsoWrite.Turn` | aquic-core/src/backend/quiche/io.rs:88-191 | One turn ends the loop for a reason, or adds a packet. |
| `GsoWrite.Pump` | aquic-core/src/backend/quiche/io.rs:85-191 | The loop terminates; its state is always that of the grouping of the packets produced, and it ends for the reason it reports. |
| `GsoWrite.Finish` | aquic-core/src/backend/quiche/io.rs:194-197 | The rest of the batch becomes the last message. |
| `GsoWrite.PumpOut` | aquic-core/src/backend/quiche/io.rs:85-199 | After loop and final commit, exactly the groups sent are out as messages, laid end to end over the bytes produced. |
| `GsoWrite.SegmentsArrive` | aquic-core/src/backend/quiche/io.rs:48-70 | Segment k of the message that carries a group is packet k of the group. |
| `GsoWrite.StreamArrives` | aquic-core/src/backend/quiche/io.rs:48-70 | The segments of all messages, one after the other, are exactly the packets produced. |
| `GsoWrite.SentIsPrefix` | aquic-core/src/backend/quiche/io.rs:194-199 | What is sent is all that was produced, or on an error all but the batch in progress. |
| `GsoWrite.MessagesCarry` | aquic-core/src/backend/quiche/io.rs:48-70 | Message by message, the buffer holds the bytes of the groups. |
| `GsoWrite.IssuedTiles` | aquic-core/src/backend/quiche/io.rs:73-199 | The views of the messages extend the tiling of the buffer. |
| `GsoWrite.OlderKept` | aquic-core/src/backend/quiche/io.rs:73-199 | Slices committed before keep their bytes. |
| `GsoWrite.WritePending` | aquic-core/src/backend/quiche/io.rs:22-200 | For every connection that stays within the room offered: the packets it answered, all asked for below the quantum, are exactly the segments of the messages, in order (on an error, all but the batch in progress); no view is empty, the tiling is extended, no older slice changes, and bytes, view and output are given in closed form. |
| `GsoWrite.WriteReserved` | aquic-core/src/backend/quiche/io.rs:85-200 | The same once the reservation is made. |
| `GsoSession.LeadsRun` | aquic-core/src/util/bipbuf.rs:260-410 | Careful steps from where a careful run got to are a careful run. |
| `GsoSession.WroteIsRun` | aquic-core/src/backend/quiche/io.rs:73-200 | What a call did is a careful run of the session: one reservation, writes, one non-empty commit per message, and the drop. |
| `GsoSession.ReturnPanicsIff` | aquic-core/src/util/bipbuf.rs:345-410 | In any phase, returning a slice panics exactly on a buffer out of step, for the slice with id 1. |
| `GsoSession.NewIsStuck` | aquic-core/src/util/bipbuf.rs:225-226 | A buffer from which only messages were sent is out of step from the first one on: it gets no byte back, and returning the second message panics. |
| `GsoSession.IO.constructor` | aquic-core/src/backend/quiche/io.rs:10-19 | A new buffer, before any commit. |
| `GsoSession.IO.WritePending` | aquic-core/src/backend/quiche/io.rs:22-200 | After any mix of calls and returned messages, a call keeps the buffer in its phase and commits exactly the views of its messages. |
| `GsoSession.IO.ReturnMessage` | aquic-core/src/util/bipbuf.rs:682-686 | A message sent can be dropped in any order; it panics exactly on a buffer out of step, for the slice with id 1. |
| `FourPass.StoreLoad` | aquic-core/src/backend/cid/server.rs:128-134 | Storing a number in n bits and loading it gives it modulo 2^n. |
| `FourPass.RoundTwice` | aquic-core/src/backend/cid/server.rs:302-320 | Every round undoes itself, whatever the block function. |
| `FourPass.PassesInverse` | aquic-core/src/backend/cid/server.rs:280-368 | For any block function and length, decryption inverts encryption and the other way round. |
| `FourPass.ExpandsLeft` | aquic-core/src/backend/cid/server.rs:393-397 | The block of an odd pass, bit by bit: the left half first, combined with the pass and the length in the last two bytes. |
| `FourPass.ExpandsRight` | aquic-core/src/backend/cid/server.rs:403-407 | The block of an even pass: the length, the pass, and the right half last. |
| `FourPass.RoundChanges` | aquic-core/src/backend/cid/server.rs:302-320 | An odd round changes the right half only and an even one the left half only, each by the block of the other half enciphered. |
| `FourPass.NextPass` | aquic-core/src/backend/cid/server.rs:302-320 | One more pass changes one half only, by the last or first bits of that block enciphered. |
| `FourPass.FourPasses` | aquic-core/src/backend/cid/server.rs:280-324 | Four passes are the four equations of the draft on the two halves of the text. |
| `FourPass.MixLeft` | aquic-core/src/backend/cid/server.rs:379-381 | On whole blocks, truncating and combining changes the left half only. |
| `FourPass.MixRight` | aquic-core/src/backend/cid/server.rs:384-387 | And the right half only. |
| `FourPass.OddRound` | aquic-core/src/backend/cid/server.rs:304-311 | A pass on blocks does the round on the halves they hold. |
| `FourPass.EvenRound` | aquic-core/src/backend/cid/server.rs:312-319 | Same for the other half. |
| `FourPass.ForwardRounds` | aquic-core/src/backend/cid/server.rs:302-320 | The loop over whole blocks is the cipher on the two halves. |
| `FourPass.BackwardRounds` | aquic-core/src/backend/cid/server.rs:344-364 | Same in reverse. |
| `FourPass.TakeOut` | aquic-core/src/backend/cid/server.rs:291-300 | The blocks hold the two halves of the text. |
| `FourPass.PutBack` | aquic-core/src/backend/cid/server.rs:322-323 | The halves are written back and nothing before them changes. |
| `FourPass.EncryptPasses` | aquic-core/src/backend/cid/server.rs:280-324 | In place, the text becomes its encryption in the given number of passes, and what is before it stays. |
| `FourPass.DecryptPasses` | aquic-core/src/backend/cid/server.rs:326-368 | Same for decryption. |
| `ServerCid.DecipherEncipher` | aquic-core/src/backend/cid/server.rs:174-228 | Deciphering undoes enciphering; only the 17-byte case needs an invertible block cipher. |
| `ServerCid.ParsePlain` | aquic-core/src/backend/cid/server.rs:230-267 | The fields come back modulo their widths, the core ID only if it has bits. |
| `ServerCid.Parse` | aquic-core/src/backend/cid/server.rs:230-267 | Refuses exactly the IDs too short for the fields. |
| `ServerCid.PlainParts` | aquic-core/src/backend/cid/server.rs:121-156 | First octet, server ID, core ID, entropy and zeros, in this order. |
| `ServerCid.PlainLength` | aquic-core/src/backend/cid/server.rs:121-156 | Whole bytes, at most twenty, and less than a byte longer than the fields. |
| `ServerCid.RoundTrip` | aquic-core/src/backend/cid/server.rs:121-267 | For every configuration, cipher and entropy: the ID keeps length and first octet, and parses after decryption to server and core ID modulo their widths. |
| `ServerCid.Mixed` | aquic-core/src/backend/cid/server.rs:174-186 | Behind the first octet, 16 bytes are one block enciphered, and any other number the four equations with the length of the whole ID. |
| `ServerCid.Enciphered` | aquic-core/src/backend/cid/server.rs:174-186 | And the first octet stays as it is. |
| `ServerCid.LengthAnnounced` | aquic-core/src/backend/cid/server.rs:188-194 | Generated IDs have the length cid_len announces exactly if their fields fill the longest ID, and one byte more otherwise. |
| `ServerCid.OwnAdmittedIff` | aquic-core/src/backend/quinn/cid.rs:35-54 | A generated ID is admitted, as it came or deciphered, exactly if its fields fill the longest ID and the configured numbers fit theirs. |
| `ServerCid.ExampleRefused` | aquic-core/src/backend/cid/server.rs:88-91 | Every ID of the documented 16, 16 and 38 bit configuration is refused. |
| `ServerCid.BuildCid` | aquic-core/src/backend/cid/server.rs:121-156 | The array holds first octet, server ID, core ID, entropy and padding. |
| `ServerCid.Generate` | aquic-core/src/backend/cid/server.rs:174-186 | The generated ID is the enciphered plain one. |
| `ServerCid.EncipherInPlace` | aquic-core/src/backend/cid/server.rs:174-186 | One block at 17 bytes, four passes otherwise. |
| `ServerCid.EncipherPasses` | aquic-core/src/backend/cid/server.rs:174-186 | In place, everything behind the first octet is enciphered. |
| `ServerCid.DecipherPasses` | aquic-core/src/backend/cid/server.rs:216-228 | And deciphered. |
| `ServerCid.DecipherInPlace` | aquic-core/src/backend/cid/server.rs:216-228 | Same in reverse; an empty ID panics. |
| `ConnectionIds.TryFromSlice` | aquic-core/src/backend/cid/mod.rs:36-49 | Accepts exactly up to twenty bytes and holds them. |
| `ConnectionIds.TryFromIter` | aquic-core/src/backend/cid/mod.rs:54-71 | Accepts exactly fewer than twenty bytes and holds them. |
| `ConnectionIds.EqualsIffSlices` | aquic-core/src/backend/cid/mod.rs:126-134 | Equality is equality of the bytes in use. |
| `AeadKeys.FirstUnpackIff` | aquic-core/src/util/aead.rs:63-89 | The result is that of the first key that opens, and none exactly if no key does. |
| `AeadKeys.PackedOpens` | aquic-core/src/util/aead.rs:127-155 | What was packed opens exactly with its key in the list and its associated data, wherever the key stands. |
| `AeadKeys.Aead.constructor` | aquic-core/src/util/aead.rs:26-35 | The ciphers are those of the store. |
| `AeadKeys.Aead.UpdateCiphers` | aquic-core/src/util/aead.rs:99-104 | Active key first, then the passive ones, and the revision they belong to. |
| `AeadKeys.Aead.CompareAndUpdateCiphers` | aquic-core/src/util/aead.rs:92-104 | Refreshes exactly when the revision differs. |
| `AeadKeys.Aead.TryUnpack` | aquic-core/src/util/aead.rs:140-155 | One attempt; on failure the buffer may hold anything. |
| `AeadKeys.Aead.UnpackAndDecrypt` | aquic-core/src/util/aead.rs:63-89 | Succeeds with the first key that opens the original text, restores the text on failure, and clears the fallback. |
| `AeadKeys.Aead.EncryptAndPack` | aquic-core/src/util/aead.rs:44-47 | Seals under the active key and appends the nonce. |
| `AeadKeys.AlwaysCurrentIff` | aquic-core/src/util/aead.rs:92-104 | Every call of a run uses the store's keys exactly if the keys never change between calls without the revision. |
| `AeadKeys.UsedIsCurrent` | aquic-core/src/util/aead.rs:92-104 | The run is that of the object. |
| `TokenFormat.RetryDataInjective` | aquic-core/src/backend/token/padded.rs:150-168 | Retry data is equal exactly for equal address and connection IDs. |
| `TokenFormat.RetryDataLayout` | aquic-core/src/backend/token/padded.rs:150-168 | Kind, address, scid and dcid lie at fixed places, the first two fields padded with zeros and followed by the number of them. |
| `TokenFormat.IdentityDataInjective` | aquic-core/src/backend/token/padded.rs:170-176 | Identity data is equal exactly for equal addresses. |
| `TokenFormat.KindsDisjoint` | aquic-core/src/backend/token/padded.rs:349-356 | No identity data is retry data. |
| `TokenFormat.ToMillis` | aquic-core/src/backend/token/padded.rs:389-392 | Whole milliseconds since the epoch, exactly for times after it and within 64 bits. |
| `TokenFormat.Expiry` | aquic-core/src/backend/token/padded.rs:389-396 | The expiry in a token is the time asked for cut to whole milliseconds, or the epoch if 64 bits cannot hold it. |
| `TokenFormat.ToBeAt` | aquic-core/src/backend/token/padded.rs:345-347 | Numbers are stored most significant byte first. |
| `TokenFormat.Plain` | aquic-core/src/backend/token/padded.rs:179-195 | Every plaintext has 29 bytes: the ID, the padding, its length and the expiry. |
| `TokenFormat.PlainRoundTrip` | aquic-core/src/backend/token/padded.rs:179-231 | Reading a plaintext gives back the connection ID and the milliseconds, whatever the padding. |
| `TokenFormat.DrainMillis` | aquic-core/src/backend/token/padded.rs:359-371 | Takes eight bytes off the end as a big-endian number, or refuses fewer. |
| `TokenFormat.DrainPadding` | aquic-core/src/backend/token/padded.rs:373-386 | Takes the padding and its length off the end, or refuses. |
| `PaddedTokens.RetryVerifies` | aquic-core/src/backend/token/padded.rs:109-319 | A retry token verifies to the original ID and to the time asked for in whole milliseconds exactly under a key in the store, for the same address and IDs, until that time, and for an original ID below twenty bytes; every other outcome is given. |
| `PaddedTokens.IdentityVerifies` | aquic-core/src/backend/token/padded.rs:130-319 | An identity token verifies exactly under a key in the store, for the same address, until the time asked for in whole milliseconds, whatever the connection IDs. |
| `PaddedTokens.SameLength` | aquic-core/src/backend/token/padded.rs:17-19 | Tokens of both kinds have the same length. |
| `PaddedTokens.PaddedTokenGenerator.GenerateRetryToken` | aquic-core/src/backend/token/padded.rs:241-263 | None exactly if a connection ID is too long; otherwise the token of the arguments under the active key. |
| `PaddedTokens.PaddedTokenGenerator.GenerateIdentityToken` | aquic-core/src/backend/token/padded.rs:265-273 | Same for identity tokens. |
| `PaddedTokens.PaddedTokenGenerator.WritePadding` | aquic-core/src/backend/token/padded.rs:334-343 | The padding and then its length. |
| `PaddedTokens.PaddedTokenGenerator.WriteRetryAssociatedData` | aquic-core/src/backend/token/padded.rs:150-168 | The buffer holds the retry data. |
| `PaddedTokens.PaddedTokenGenerator.WriteIdentityAssociatedData` | aquic-core/src/backend/token/padded.rs:170-176 | The buffer holds the identity data. |
| `PaddedTokens.PaddedTokenGenerator.WritePlaintextData` | aquic-core/src/backend/token/padded.rs:179-195 | The buffer holds the plaintext; an identity token is one with an empty ID. |
| `PaddedTokens.PaddedTokenGenerator.ExtractRetryData` | aquic-core/src/backend/token/padded.rs:198-215 | Expiry first, then padding, then the ID. |
| `PaddedTokens.PaddedTokenGenerator.ExtractIdentityData` | aquic-core/src/backend/token/padded.rs:217-231 | Expiry first, then padding, then nothing. |
| `PaddedTokens.PaddedTokenGenerator.VerifyRetryToken` | aquic-core/src/backend/token/padded.rs:109-128 | The buffers follow the specification of retry verification. |
| `PaddedTokens.PaddedTokenGenerator.VerifyIdentityToken` | aquic-core/src/backend/token/padded.rs:130-147 | Same for identity verification. |
| `PaddedTokens.PaddedTokenGenerator.VerifyToken` | aquic-core/src/backend/token/padded.rs:285-319 | Identity first, retry if that is invalid, on a fresh copy of the token. |
| `RpcSlot.AgreesKept` | aquic-core/src/sync/mpsc/rpc/mt.rs:160-203 | Every step keeps the state in line with the callback: it leaves pending once. |
| `RpcSlot.OnItsWayKept` | aquic-core/src/sync/mpsc/rpc/mt.rs:160-182 | Every step keeps the result on its way into the slot. |
| `RpcSlot.AnsweredKept` | aquic-core/src/sync/mpsc/rpc/mt.rs:211-241 | Every step keeps the first answer the result, or none, and later ones empty. |
| `RpcSlot.WatchedKept` | aquic-core/src/sync/mpsc/rpc/mt.rs:211-241 | Every step keeps a waiting future registered, woken or about to be woken. |
| `RpcSlot.EveryRun` | aquic-core/src/sync/mpsc/rpc/mt.rs:160-254 | In every interleaving: pending is left at most once, the result cell is never written while it is taken, the result is answered once or NoResponse if the callback died unused, and a parked future not woken is owed a step. |
| `RpcSlot.Settles` | aquic-core/src/sync/mpsc/rpc/mt.rs:160-254 | The callback can always finish, and by then a parked future has been woken. |
| `RpcSlot.PollTakes` | aquic-core/src/sync/mpsc/rpc/mt.rs:214-241 | A poll of a slot with a result answers it the first time and nothing after. |
| `RpcSlot.PollHangsUp` | aquic-core/src/sync/mpsc/rpc/mt.rs:214-241 | A poll of a slot hung up on answers NoResponse. |
| `RpcSlot.PollParks` | aquic-core/src/sync/mpsc/rpc/mt.rs:214-229 | A poll of a pending slot registers the waker and waits. |
| `RpcSlot.PollSeesLate` | aquic-core/src/sync/mpsc/rpc/mt.rs:218-229 | A result that comes between the two looks of a poll is answered by it. |
| `RpcSlot.CallbackDelivers` | aquic-core/src/sync/mpsc/rpc/mt.rs:160-203 | A callback used leaves the result in the slot and wakes whoever is registered. |
| `RpcSlot.CallbackHangsUp` | aquic-core/src/sync/mpsc/rpc/mt.rs:185-203 | A callback dropped unused leaves the slot hung up and wakes whoever is registered. |
| `RpcSlot.CallbackTooLate` | aquic-core/src/sync/mpsc/rpc/mt.rs:160-188 | A callback whose future is gone changes nothing. |
| `RpcSlot.WaiterAnswered` | aquic-core/src/sync/mpsc/rpc/mt.rs:160-241 | A waiting future can always get its answer, and it is what the callback was given. |
| `Registry.ServersPlus` | aquic-core/src/backend/quiche/connection.rs:142-148 | The server count follows the set of servers. |
| `Registry.UnverifiedPlus` | aquic-core/src/backend/quiche/connection.rs:142-148 | The unverified count follows the set of unverified servers. |
| `Registry.DropKeeps` | aquic-core/src/backend/quiche/connection.rs:326-328 | Taking a key out of the queue takes out that key only. |
| `Registry.DropKeepsOrder` | aquic-core/src/backend/quiche/connection.rs:326-328 | And leaves the others in their order. |
| `Registry.RemoveSound` | aquic-core/src/backend/quiche/connection.rs:330-345 | Taking out the IDs of a connection takes out exactly the entries that point to it. |
| `Registry.EnqueueKeeps` | aquic-core/src/backend/quiche/connection.rs:232-236 | Queueing a key moves and loses none, and no key is there twice. |
| `Registry.RemoveAddrIff` | aquic-core/src/backend/quiche/connection.rs:347-374 | A connection entered under an address can be removed without a dangling entry exactly if that is the address taken out; one without an entry, always. |
| `Registry.EnterAddr` | aquic-core/src/backend/quiche/connection.rs:136-140 | Entering a new connection by address leaves no entry dangling and gives none two. |
| `Registry.Connection.PeerAddr` | aquic-core/src/backend/quiche/connection.rs:126-130 | The peer of the first active path, or the one given. |
| `Registry.FirstActive` | aquic-core/src/backend/quiche/connection.rs:126-130 | The peer of the first active path, and none exactly if there is no such path. |
| `Registry.FirstValidated` | aquic-core/src/backend/quiche/connection.rs:347-356 | The peer of the first validated path, and none exactly if there is no such path. |
| `Registry.DanglingAfterRemove` | aquic-core/src/backend/quiche/connection.rs:347-374 | The dangling entry: a zero-length ID removed before its path is validated, or with another one validated first. |
| `Registry.Connections.constructor` | aquic-core/src/backend/quiche/connection.rs:95-104 | An empty registry is valid. |
| `Registry.Connections.Insert` | aquic-core/src/backend/quiche/connection.rs:107-151 | Counters stay cardinalities and the queue live without duplicates, whatever the IDs; with unique non-empty IDs every entry points to a live owner; a zero-length ID is entered by address. |
| `Registry.Connections.CountIn` | aquic-core/src/backend/quiche/connection.rs:142-148 | The counter updates of an insertion. |
| `Registry.Connections.EnterRoute` | aquic-core/src/backend/quiche/connection.rs:136-140 | Enters a connection by ID, or by address if that is empty. |
| `Registry.Connections.MarkActive` | aquic-core/src/backend/quiche/connection.rs:232-236 | Queues a live key once, at the back. |
| `Registry.Connections.PeekActive` | aquic-core/src/backend/quiche/connection.rs:243-255 | The front of the queue; nothing is skipped in a valid registry. |
| `Registry.Connections.NextActive` | aquic-core/src/backend/quiche/connection.rs:259-261 | Takes the front off. |
| `Registry.Connections.MarkVerified` | aquic-core/src/backend/quiche/connection.rs:276-288 | Verifies a server connection; the counter never underflows. |
| `Registry.Connections.UpdateScidsDict` | aquic-core/src/backend/quiche/connection.rs:295-322 | Exactly the IDs in use and not retired lead to the connection, and no other entry changes. |
| `Registry.Connections.EnterAll` | aquic-core/src/backend/quiche/connection.rs:300-317 | The loop over the IDs in use. |
| `Registry.Connections.RetireAll` | aquic-core/src/backend/quiche/connection.rs:319-321 | The loop over the retirement queue drains it. |
| `Registry.Connections.Remove` | aquic-core/src/backend/quiche/connection.rs:326-384 | Forgets the connection, its place in the queue, exactly its entries and, with only zero-length IDs, the entry of its first validated path, which leaves none dangling exactly if it was entered under that address; no counter underflows. |
| `Registry.Connections.CountOut` | aquic-core/src/backend/quiche/connection.rs:376-382 | The counter updates of a removal, without underflow. |
| `Registry.Connections.ForgetRoute` | aquic-core/src/backend/quiche/connection.rs:347-360 | Takes out the entry of the validated path, if there is one. |
| `Registry.Connections.ForgetIds` | aquic-core/src/backend/quiche/connection.rs:330-345 | The loops take out exactly the IDs of the connection, and find out whether all are of zero length. |
| `Registry.Connections.FindConnectionKey` | aquic-core/src/backend/quiche/connection.rs:206-221 | By ID what is found is live and owns it; an empty ID is looked up by address. |
| `Registry.Connections.Evolve` | aquic-core/src/backend/quiche/connection.rs:300-321 | What quiche may do to the IDs of a connection keeps the registry valid, given its retirement contract and unique IDs. |
| `TimerSlots.CancelSlotKeeps` | aquic-core/src/backend/quiche/time.rs:69-79 | Emptying a slot cancels its event and keeps every other event in its slot. |
| `TimerSlots.DoKeeps` | aquic-core/src/backend/quiche/mod.rs:1231-1330 | Every operation keeps every event to come in the slot of its connection and kind. |
| `TimerSlots.SlotHoldsIt` | aquic-core/src/backend/quiche/time.rs:49-79 | In every run, an event in the wheel is of a live connection and is the one its slot names. |
| `TimerSlots.AtMostOne` | aquic-core/src/backend/quiche/time.rs:49-62 | In every run, the wheel holds at most one event of a connection and kind. |
| `TimerSlots.NoneAfterForget` | aquic-core/src/backend/quiche/mod.rs:788-798 | After a connection is forgotten, the wheel holds none of its events. |
| `TimerSlots.NoneAfterCancel` | aquic-core/src/backend/quiche/mod.rs:748-750 | After a timer is cancelled, the wheel holds no event of it. |
| `TimerSlots.LiveIffRegistered` | aquic-core/src/backend/quiche/mod.rs:788-791 | In every run, the live connections are those registered and not forgotten since. |
| `TimerSlots.OthersStay` | aquic-core/src/backend/quiche/time.rs:49-92 | An operation on another timer, or a tick before its time, leaves an event where it is. |
| `TimerSlots.HeldAfterReschedule` | aquic-core/src/backend/quiche/mod.rs:1231-1260 | A timer set for a live connection is in the wheel, for the clock the wheel assigns. |
| `TimerSlots.TickHandsOut` | aquic-core/src/backend/quiche/time.rs:89-92 | A tick at its time hands the event out. |
| `TimerSlots.TickIsTime` | aquic-core/src/backend/quiche/time.rs:89-92 | The run's tick is that of the timer. |
| `TimerSlots.RescheduleIsTime` | aquic-core/src/backend/quiche/mod.rs:1248-1257 | The run's reschedule is that of the timer and the slots. |
| `TimerSlots.ForgetIsTime` | aquic-core/src/backend/quiche/mod.rs:788-798 | The run's forget is that of the timer and the slots. |
| `TimerSlots.TimerKeys.PopTimerKey` | aquic-core/src/backend/quiche/connection.rs:509-515 | Takes one slot's key and leaves the others. |
| `TimerSlots.TimerKeys.SetTimerKey` | aquic-core/src/backend/quiche/connection.rs:518-524 | Sets one slot and leaves the others. |
| `TimerSlots.Time.constructor` | aquic-core/src/backend/quiche/time.rs:22-40 | A 1 ms wheel with 64 ms coverage. |
| `TimerSlots.Time.Cancel` | aquic-core/src/backend/quiche/time.rs:64-66 | Cancels one key. |
| `TimerSlots.Time.Reschedule` | aquic-core/src/backend/quiche/time.rs:49-60 | Cancels the previous key, then schedules. |
| `TimerSlots.Time.RescheduleSlot` | aquic-core/src/backend/quiche/mod.rs:1236-1260 | The same through a slot. |
| `TimerSlots.Time.CancelAll` | aquic-core/src/backend/quiche/time.rs:69-79 | All slots are emptied and their keys cancelled. |
| `TimerSlots.Time.Tick` | aquic-core/src/backend/quiche/time.rs:89-92 | Behind what was not handled yet come the lists of exactly the positions that were due, each once and in order; returns when to call again and whether something is to be handled. |

## Left out

- Wheel timer: epoch counters are unbounded, `Instant` overflow and the truncation of very large tick counts to `usize` are not modelled, and neither is the reuse of vector capacity when a bucket is dropped.
- TimerImpl.WheelTimer: owns its levels as values, so the bucket array a level shares with the buckets it handed out is modelled only in `TimerLevel.Level`.
- Bip buffer: ids are unbounded, raw pointers are indices into one array, the heap of tombstones is a map by id, and debug assertions are not modelled.
- Weighted channel: steps are sequentially consistent; the compare-exchange may fail spuriously; a dropped listener that passes its notification on is a step that notifies another sender.
- GsoWrite.WritePending: ECN and the `write_version_negotiation`, `write_retry` and stateless-reset paths are not part of this model.
- Server connection IDs: AES itself is not part of this model.
- AeadKeys.PackedOpens: assumes of the AEAD that, for the keys and associated data tried, the text opens exactly with its own; forgery and nonce reuse are not modelled.
- PaddedTokens: reset tokens and HMAC are not part of this model; the limits of the platform's `SystemTime` are not modelled.
- RPC slot: memory orderings, slab key generations and a full slab shard are not modelled, and the waker cell is atomic.
- Registry.Connections.Insert: IDs are taken to be at most twenty bytes, a longer one makes the source panic; that entries have live owners is stated for non-empty IDs that are unique across connections, and for the retirement contract of quiche that `Evolve` spells out.
- WeightedSt.StChannel: keeps the set of listeners not notified; it is not built on the objects of `ListenerEvent`.
- TimerSlots: handling of fired events beyond the slots (activation, timeouts) is not modelled.
- FIFO fairness of `send()` across connections, streams and datagrams, the remaining channels (`watch`, `oneshot`, `rpc/st.rs`), sockets, configuration and tracing are not part of this model.
