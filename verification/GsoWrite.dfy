/** Writing a connection's pending packets into the bip buffer, batched into
    segmented messages. The connection is an oracle: its answers may depend on the
    call and on the room it is offered. */
module GsoWrite {
  import opened Basics
  import opened BipModel
  import opened BipImpl
  import opened GsoGrouping

  datatype Response = Sent(packet: Packet) | Done | TooShort | Error(code: int)

  datatype Write = Complete | BufferTooShort | Quantum | Pacer(at: nat)

  datatype Result = Success(write: Write) | Failure(code: int)

  /** `SendMsg`: a view of committed bytes with its path and segment count. */
  datatype Message = Message(view: Slice, sourceIp: int, destination: Addr, segments: nat)

  datatype Path = Path(source: Addr, destination: Addr, quantum: nat, consumed: nat)

  /** The batch being built at the front of the reservation. */
  datatype Batch = Batch(reserve: Reservation, offset: nat, count: nat, size: nat)

  /** Buffer bytes, buffer view and the local variables of the loop. */
  datatype State = State(bytes: seq<bv8>, view: Buffer, batch: Batch, path: Option<Path>, out: seq<Message>)

  /** What the loop starts from. */
  datatype Start = Start(bytes: seq<bv8>, view: Buffer, reserve: Reservation)
  {
    ghost predicate Holds(ps: seq<Packet>) {
      reserve.Valid() && reserve.end <= |bytes| && |Payload(ps)| <= reserve.Len()
    }
  }

  /** The connection never writes beyond the room it is offered. */
  ghost predicate FitsRoom(send: (nat, nat) -> Response) {
    forall k, room :: send(k, room).Sent? ==> |send(k, room).packet.payload| <= room
  }

  // ----- What the connection produced -----

  /** Where the visit to the path of packet `k` began. */
  function VisitStart(ps: seq<Packet>, k: nat): (s: nat)
    requires k < |ps|
    ensures s <= k
  {
    if k == 0 || !SamePath(ps[k - 1], ps[k]) then k else VisitStart(ps, k - 1)
  }

  /** A visit is a longest stretch of packets on one path. */
  lemma {:induction false} VisitIsStretch(ps: seq<Packet>, k: nat)
    requires k < |ps|
    ensures var s := VisitStart(ps, k);
            && (forall j :: s <= j <= k ==> SamePath(ps[s], ps[j]))
            && (s > 0 ==> !SamePath(ps[s - 1], ps[s]))
  {
    if k > 0 && SamePath(ps[k - 1], ps[k]) {
      VisitIsStretch(ps, k - 1);
    }
  }

  /** Total length of the packets `i..j`. */
  function Length(ps: seq<Packet>, i: nat, j: nat): nat
    requires j <= |ps|
  {
    if j <= i then 0 else Length(ps, i, j - 1) + |ps[j - 1].payload|
  }

  lemma {:induction false} LengthAppend(ps: seq<Packet>, p: Packet, i: nat, j: nat)
    requires j <= |ps|
    ensures Length(ps + [p], i, j) == Length(ps, i, j)
  {
    if j > i {
      LengthAppend(ps, p, i, j - 1);
    }
  }

  lemma {:induction false} LengthIsPayload(ps: seq<Packet>)
    ensures Length(ps, 0, |ps|) == |Payload(ps)|
  {
    var n := |ps| - 1;
    if n >= 0 {
      LengthIsPayload(ps[..n]);
      LengthAppend(ps[..n], ps[n], 0, n);
      assert ps == ps[..n] + [ps[n]];
    }
  }

  /** The packets before `k` use up the quantum of the visit they end in. */
  ghost predicate Spent(ps: seq<Packet>, k: nat, quantum: nat -> nat)
    requires k <= |ps|
  {
    k > 0 && var s := VisitStart(ps, k - 1); Length(ps, s, k) >= quantum(s)
  }

  /** Packet `k` is the connection's answer for the room left by those before it,
      is not empty, was not held back by the pacer, and was asked for while the
      visit was below its quantum. */
  ghost predicate Answer(ps: seq<Packet>, k: nat, send: (nat, nat) -> Response, release: nat -> Option<nat>,
                         quantum: nat -> nat, room: nat)
    requires k < |ps|
  {
    && !Spent(ps, k, quantum)
    && release(k) == None && ps[k].payload != []
    && Length(ps, 0, k) <= room && send(k, room - Length(ps, 0, k)) == Sent(ps[k])
  }

  ghost predicate Answers(ps: seq<Packet>, send: (nat, nat) -> Response, release: nat -> Option<nat>,
                          quantum: nat -> nat, room: nat)
  {
    forall k :: 0 <= k < |ps| ==> Answer(ps, k, send, release, quantum, room)
  }

  lemma {:induction false} VisitAppend(ps: seq<Packet>, p: Packet, k: nat)
    requires k < |ps|
    ensures VisitStart(ps + [p], k) == VisitStart(ps, k)
  {
    if k > 0 {
      VisitAppend(ps, p, k - 1);
    }
  }

  lemma SpentAppend(ps: seq<Packet>, p: Packet, k: nat, quantum: nat -> nat)
    requires k <= |ps|
    ensures Spent(ps + [p], k, quantum) == Spent(ps, k, quantum)
  {
    if k > 0 {
      VisitAppend(ps, p, k - 1);
      LengthAppend(ps, p, VisitStart(ps, k - 1), k);
    }
  }

  lemma AnswerStays(ps: seq<Packet>, p: Packet, k: nat, send: (nat, nat) -> Response, release: nat -> Option<nat>,
                    quantum: nat -> nat, room: nat)
    requires k < |ps| && Answer(ps, k, send, release, quantum, room)
    ensures Answer(ps + [p], k, send, release, quantum, room)
  {
    SpentAppend(ps, p, k, quantum);
    LengthAppend(ps, p, 0, k);
  }

  lemma AnswerLast(ps: seq<Packet>, p: Packet, send: (nat, nat) -> Response, release: nat -> Option<nat>,
                   quantum: nat -> nat, room: nat)
    requires !Spent(ps, |ps|, quantum) && release(|ps|) == None && p.payload != [] && Length(ps, 0, |ps|) <= room
    requires send(|ps|, room - Length(ps, 0, |ps|)) == Sent(p)
    ensures Answer(ps + [p], |ps|, send, release, quantum, room)
  {
    var qs, n, used := ps + [p], |ps|, Length(ps, 0, |ps|);
    assert qs[n] == p;
    assert !Spent(qs, n, quantum) by { SpentAppend(ps, p, n, quantum); }
    assert Length(qs, 0, n) == used by { LengthAppend(ps, p, 0, n); }
  }

  lemma AnswersAppend(ps: seq<Packet>, p: Packet, send: (nat, nat) -> Response, release: nat -> Option<nat>,
                      quantum: nat -> nat, room: nat)
    requires Answers(ps, send, release, quantum, room) && Answer(ps + [p], |ps|, send, release, quantum, room)
    ensures Answers(ps + [p], send, release, quantum, room)
  {
    forall k | 0 <= k < |ps| ensures Answer(ps + [p], k, send, release, quantum, room) {
      AnswerStays(ps, p, k, send, release, quantum, room);
    }
  }

  /** A visit overshoots its quantum by less than its last packet, exactly unless the
      quantum is zero, and then it is that one packet. */
  lemma Overshoot(ps: seq<Packet>, send: (nat, nat) -> Response, release: nat -> Option<nat>,
                  quantum: nat -> nat, room: nat, k: nat)
    requires Answers(ps, send, release, quantum, room) && k < |ps|
    ensures var s := VisitStart(ps, k);
            && (Length(ps, s, k + 1) < quantum(s) + |ps[k].payload| <==> quantum(s) > 0)
            && (quantum(s) == 0 ==> s == k && Length(ps, s, k + 1) == |ps[k].payload|)
  {
    assert Answer(ps, k, send, release, quantum, room);
    var s := VisitStart(ps, k);
    if s == k {
      assert Length(ps, k, k) == 0;
    } else {
      assert VisitStart(ps, k - 1) == s;
    }
  }

  /** Why call `call`, offered `room`, ended the loop: the pacer or the connection had
      nothing to send now. */
  ghost predicate Ended(r: Result, call: nat, room: nat, send: (nat, nat) -> Response, release: nat -> Option<nat>) {
    var answer := send(call, room);
    match r
    case Success(Quantum) => false
    case Success(Pacer(at)) => release(call) == Some(at)
    case Success(Complete) => release(call) == None && (answer == Done || (answer.Sent? && answer.packet.payload == []))
    case Success(BufferTooShort) => release(call) == None && answer == TooShort
    case Failure(code) => release(call) == None && answer == Error(code)
  }

  /** Why the loop ended: because the quantum was spent, or else by the call after the
      last packet. */
  ghost predicate Stopped(r: Result, ps: seq<Packet>, send: (nat, nat) -> Response, release: nat -> Option<nat>,
                          quantum: nat -> nat, room: nat)
  {
    if Spent(ps, |ps|, quantum) then r == Success(Quantum)
    else Length(ps, 0, |ps|) <= room && Ended(r, |ps|, room - Length(ps, 0, |ps|), send, release)
  }

  /** The loop ends by its quantum exactly once the visit has used it up. */
  lemma StoppedByQuantum(r: Result, ps: seq<Packet>, send: (nat, nat) -> Response, release: nat -> Option<nat>,
                         quantum: nat -> nat, room: nat)
    requires Stopped(r, ps, send, release, quantum, room)
    ensures r == Success(Quantum) <==>
            ps != [] && Length(ps, VisitStart(ps, |ps| - 1), |ps|) >= quantum(VisitStart(ps, |ps| - 1))
  {
  }

  // ----- What the loop makes of it -----

  /** Total length of the first `i` groups. */
  function Before(groups: seq<seq<Packet>>, i: nat): nat
    requires i <= |groups|
  {
    if i == 0 then 0 else Before(groups, i - 1) + |Payload(groups[i - 1])|
  }

  function Size(groups: seq<seq<Packet>>): nat { Before(groups, |groups|) }

  lemma {:induction false} BeforeAppend(groups: seq<seq<Packet>>, last: seq<Packet>, i: nat)
    requires i <= |groups|
    ensures Before(groups + [last], i) == Before(groups, i)
  {
    if i > 0 {
      BeforeAppend(groups, last, i - 1);
    }
  }

  /** The bytes of the groups, end to end. */
  function Flat(groups: seq<seq<Packet>>): seq<bv8> {
    var n := |groups| - 1;
    if n < 0 then [] else Flat(groups[..n]) + Payload(groups[n])
  }

  function MessageOf(group: seq<Packet>, view: Slice): Message {
    if group == [] then Message(view, 0, Addr(0, 0), 0)
    else Message(view, group[0].from.ip, group[0].to, |group|)
  }

  /** One message per group, laid end to end from `at`, with ids from `id` on. */
  function Messages(groups: seq<seq<Packet>>, at: nat, id: nat): seq<Message> {
    MessagesUpTo(groups, |groups|, at, id)
  }

  function MessagesUpTo(groups: seq<seq<Packet>>, k: nat, at: nat, id: nat): (ms: seq<Message>)
    requires k <= |groups|
    ensures |ms| == k
  {
    if k == 0 then []
    else MessagesUpTo(groups, k - 1, at, id)
         + [MessageOf(groups[k - 1], Slice(id + k - 1, at + Before(groups, k - 1), at + Before(groups, k)))]
  }

  /** The view after `k` commits that end at `end`. */
  function Committed(view: Buffer, region: Region, end: nat, k: nat): Buffer {
    if k == 0 then view
    else match region
         case A => view.(aEnd := end, nextCommit := view.nextCommit + k)
         case B => view.(bEnd := end, nextCommit := view.nextCommit + k)
  }

  function BatchOf(reserve: Reservation, last: seq<Packet>): Batch {
    Batch(reserve, |Payload(last)|, |last|, if last == [] then 0 else |last[0].payload|)
  }

  /** The state with `data` at the front of the reservation, the finished groups
      out as messages, and the last group as the batch. */
  ghost function Shape(s: Start, data: seq<bv8>, g: Groups, path: Option<Path>): State
    requires s.reserve.start + |data| <= |s.bytes|
  {
    var lo := s.reserve.start;
    var at := lo + Size(g.done);
    State(Splice(s.bytes, lo, data), Committed(s.view, s.reserve.region, at, |g.done|),
          BatchOf(s.reserve.(start := at), g.last), path, Messages(g.done, lo, s.view.nextCommit))
  }

  /** The visit to a path: opened by its first packet, used up by each. */
  function Visit(path: Option<Path>, p: Packet, quantum: nat): Path {
    if path.Some? && path.value.source == p.from && path.value.destination == p.to
    then path.value.(consumed := path.value.consumed + |p.payload|)
    else Path(p.from, p.to, quantum, |p.payload|)
  }

  /** The current visit once the packets `ps` are produced. */
  function PathOf(ps: seq<Packet>, quantum: nat -> nat): Option<Path> {
    var n := |ps|;
    if n == 0 then None
    else var s := VisitStart(ps, n - 1);
         Some(Path(ps[n - 1].from, ps[n - 1].to, quantum(s), Length(ps, s, n)))
  }

  lemma PathNext(ps: seq<Packet>, p: Packet, quantum: nat -> nat)
    ensures PathOf(ps + [p], quantum) == Some(Visit(PathOf(ps, quantum), p, quantum(|ps|)))
  {
    var n, qs := |ps|, ps + [p];
    var s := VisitStart(qs, n);
    LengthAppend(ps, p, s, n);
    if n > 0 && SamePath(ps[n - 1], p) {
      VisitAppend(ps, p, n - 1);
    }
  }

  /** The last group is being built on the current path. */
  ghost predicate Building(g: Groups, path: Option<Path>) {
    match path
    case None => g == Groups([], [])
    case Some(q) =>
      && Uniform(g.last) && g.last[0].payload != []
      && g.last[0].from == q.source && g.last[0].to == q.destination
  }

  lemma SizeStep(done: seq<seq<Packet>>, last: seq<Packet>)
    ensures Size(done + [last]) == Size(done) + |Payload(last)|
  {
    BeforeAppend(done, last, |done|);
  }

  lemma {:induction false} FlatIsPayload(groups: seq<seq<Packet>>)
    ensures Flat(groups) == Payload(Concat(groups))
  {
    var n := |groups| - 1;
    if n >= 0 {
      FlatIsPayload(groups[..n]);
      PayloadSum(Concat(groups[..n]), groups[n]);
    }
  }

  lemma {:induction false} FlatSize(groups: seq<seq<Packet>>)
    ensures |Flat(groups)| == Size(groups)
  {
    var n := |groups| - 1;
    if n >= 0 {
      FlatSize(groups[..n]);
      SizeStep(groups[..n], groups[n]);
      assert groups == groups[..n] + [groups[n]];
    }
  }

  lemma FlatStep(done: seq<seq<Packet>>, last: seq<Packet>)
    ensures Flat(done + [last]) == Flat(done) + Payload(last)
  {
    assert (done + [last])[..|done|] == done;
  }

  /** A batch holds its count times its size in bytes. */
  lemma BatchSize(last: seq<Packet>)
    requires Uniform(last) && last[0].payload != []
    ensures |Payload(last)| == |last| * |last[0].payload| > 0
  {
    SegmentsArePackets(last, |last[0].payload|, 0);
  }

  lemma SpliceMore(bytes: seq<bv8>, at: nat, x: seq<bv8>, y: seq<bv8>)
    requires at + |x| + |y| <= |bytes|
    ensures Splice(Splice(bytes, at, x), at + |x|, y) == Splice(bytes, at, x + y)
  {
  }

  lemma MessagesStep(done: seq<seq<Packet>>, last: seq<Packet>, at: nat, id: nat)
    ensures Messages(done + [last], at, id)
         == Messages(done, at, id)
            + [MessageOf(last, Slice(id + |done|, at + Size(done), at + Size(done) + |Payload(last)|))]
  {
    UpToAppend(done, last, |done|, at, id);
    BeforeAppend(done, last, |done|);
  }

  lemma {:induction false} UpToAppend(done: seq<seq<Packet>>, last: seq<Packet>, k: nat, at: nat, id: nat)
    requires k <= |done|
    ensures MessagesUpTo(done + [last], k, at, id) == MessagesUpTo(done, k, at, id)
  {
    if k > 0 {
      UpToAppend(done, last, k - 1, at, id);
      BeforeAppend(done, last, k - 1);
    }
  }

  lemma ShapeFirst(s: Start, data: seq<bv8>, p: Packet, path: Option<Path>)
    requires s.reserve.start + |data| <= |s.bytes|
    ensures var e := Shape(s, data, Groups([], []), path);
            Shape(s, data, Groups([], [p]), path) == e.(batch := Batch(s.reserve, |p.payload|, 1, |p.payload|))
  {
    PayloadOne(p);
  }

  lemma ShapeJoin(s: Start, data: seq<bv8>, g: Groups, p: Packet, path: Option<Path>)
    requires s.reserve.start + |data| <= |s.bytes| && g.last != []
    ensures var e, r := Shape(s, data, g, path), Shape(s, data, Groups(g.done, g.last + [p]), path);
            r == e.(batch := e.batch.(offset := e.batch.offset + |p.payload|, count := e.batch.count + 1))
  {
    PayloadSum(g.last, [p]);
    PayloadOne(p);
  }

  /** Committing the batch turns the last group into a message. */
  lemma ShapeCommit(s: Start, data: seq<bv8>, g: Groups, p: Packet, path: Option<Path>)
    requires s.reserve.start + |data| <= |s.bytes| && g.last != []
    ensures var e, r := Shape(s, data, g, path), Shape(s, data, Groups(g.done + [g.last], [p]), path);
            var start, len := e.batch.reserve.start, |Payload(g.last)|;
            && r.bytes == e.bytes
            && r.view == Committed(e.view, s.reserve.region, start + len, 1)
            && r.batch == Batch(s.reserve.(start := start + len), |p.payload|, 1, |p.payload|)
            && r.out == e.out + [MessageOf(g.last, Slice(e.view.nextCommit, start, start + len))]
  {
    PayloadOne(p);
    SizeStep(g.done, g.last);
    MessagesStep(g.done, g.last, s.reserve.start, s.view.nextCommit);
  }

  // ----- The loop -----

  ghost function Snapshot(io: BipBuffer, b: Batch, path: Option<Path>, out: seq<Message>): State
    reads io, io.buffer
  {
    State(io.buffer[..], io.View(), b, path, out)
  }

  /** `commit_packet`: nothing for an empty batch, otherwise its bytes become a message. */
  method CommitPacket(io: BipBuffer, path: Path, b: Batch, out: seq<Message>)
    returns (b': Batch, out': seq<Message>)
    requires b.reserve.Valid() && b.count * b.size <= b.offset <= b.reserve.Len()
    modifies io`aEnd, io`bEnd, io`commitIdSequence
    ensures var len := b.count * b.size;
            if len == 0 then b' == b && out' == out && io.View() == old(io.View())
            else
              && b' == Batch(b.reserve.(start := b.reserve.start + len), b.offset - len, 0, 0)
              && out' == out + [Message(Slice(old(io.commitIdSequence), b.reserve.start, b.reserve.start + len),
                                        path.source.ip, path.destination, b.count)]
              && io.View() == Committed(old(io.View()), b.reserve.region, b.reserve.start + len, 1)
  {
    var len := b.count * b.size;
    if len == 0 {
      return b, out;
    }
    var view := io.Commit(b.reserve, len);
    out' := out + [Message(view.value, path.source.ip, path.destination, b.count)];
    b' := Batch(b.reserve.(start := b.reserve.start + len), b.offset - len, 0, 0);
  }

  /** The connection writes its packet behind the batch. */
  method Put(io: BipBuffer, b: Batch, path: Option<Path>, out: seq<Message>, payload: seq<bv8>,
             ghost s: Start, ghost data: seq<bv8>, ghost g: Groups)
    requires s.reserve.Valid() && s.reserve.end <= |s.bytes| && |data| + |payload| <= s.reserve.Len()
    requires Snapshot(io, b, path, out) == Shape(s, data, g, path) && |data| == Size(g.done) + |Payload(g.last)|
    modifies io.buffer
    ensures Snapshot(io, b, path, out) == Shape(s, data + payload, g, path)
  {
    io.Write(b.reserve, b.offset, payload);
    SpliceMore(s.bytes, s.reserve.start, data, payload);
  }

  /** Batches the packet just written behind the batch, or starts a batch with it. */
  method Absorb(io: BipBuffer, b0: Batch, path0: Option<Path>, out0: seq<Message>, p: Packet, quantum: nat,
                ghost s: Start, ghost data: seq<bv8>, ghost g: Groups)
    returns (b: Batch, path: Path, out: seq<Message>)
    requires s.reserve.Valid() && s.reserve.end <= |s.bytes| && |data| <= s.reserve.Len()
    requires Snapshot(io, b0, path0, out0) == Shape(s, data, g, path0)
    requires Building(g, path0) && |data| == Size(g.done) + |Payload(g.last)| + |p.payload|
    modifies io`aEnd, io`bEnd, io`commitIdSequence
    ensures path == Visit(path0, p, quantum)
    ensures Snapshot(io, b, Some(path), out) == Shape(s, data, g.Join(p), Some(path))
  {
    b, out := b0.(offset := b0.offset + |p.payload|), out0;
    path := if path0.None? then Path(p.from, p.to, quantum, 0) else path0.value;
    path := path.(consumed := path.consumed + |p.payload|);
    if path.source == p.from && path.destination == p.to {
      if b.count == 0 {
        b := b.(size := |p.payload|, count := 1);
        StartsBatch(s, data, g, p, path0, path);
        return;
      }
      if b.size == |p.payload| {
        b := b.(count := b.count + 1);
        JoinsBatch(s, data, g, p, path0, path);
        return;
      }
    }
    b, out := Flush(io, b, path, out, p, s, data, g, path0);
    if path.source != p.from || path.destination != p.to {
      path := Path(p.from, p.to, quantum, |p.payload|);
    }
    ShapePath(s, data, g.Join(p), path0, Some(path));
  }

  lemma StartsBatch(s: Start, data: seq<bv8>, g: Groups, p: Packet, path0: Option<Path>, path: Path)
    requires s.reserve.start + |data| <= |s.bytes| && g == Groups([], [])
    ensures Shape(s, data, g.Join(p), Some(path))
         == Shape(s, data, g, path0).(batch := Batch(s.reserve, |p.payload|, 1, |p.payload|), path := Some(path))
  {
    ShapeFirst(s, data, p, path0);
    ShapePath(s, data, Groups([], [p]), path0, Some(path));
  }

  lemma JoinsBatch(s: Start, data: seq<bv8>, g: Groups, p: Packet, path0: Option<Path>, path: Path)
    requires s.reserve.start + |data| <= |s.bytes| && g.last != [] && Alike(g.last[0], p)
    ensures var e := Shape(s, data, g, path0);
            Shape(s, data, g.Join(p), Some(path))
            == e.(batch := e.batch.(offset := e.batch.offset + |p.payload|, count := e.batch.count + 1),
                  path := Some(path))
  {
    ShapeJoin(s, data, g, p, path0);
    ShapePath(s, data, Groups(g.done, g.last + [p]), path0, Some(path));
  }

  /** The current path is a part of its own. */
  lemma ShapePath(s: Start, data: seq<bv8>, g: Groups, path: Option<Path>, path': Option<Path>)
    requires s.reserve.start + |data| <= |s.bytes|
    ensures Shape(s, data, g, path') == Shape(s, data, g, path).(path := path')
  {
  }

  /** Commits the batch that the packet does not fit, and makes the packet the batch. */
  method Flush(io: BipBuffer, b0: Batch, path: Path, out0: seq<Message>, p: Packet,
               ghost s: Start, ghost data: seq<bv8>, ghost g: Groups, ghost path0: Option<Path>)
    returns (b: Batch, out: seq<Message>)
    requires s.reserve.Valid() && s.reserve.end <= |s.bytes| && |data| <= s.reserve.Len()
    requires |data| == Size(g.done) + |Payload(g.last)| + |p.payload| && Building(g, path0) && path0.Some?
    requires path.source == path0.value.source && path.destination == path0.value.destination && !Alike(g.last[0], p)
    requires var e := Shape(s, data, g, path0);
             && io.buffer[..] == e.bytes && io.View() == e.view && out0 == e.out
             && b0 == e.batch.(offset := e.batch.offset + |p.payload|)
    modifies io`aEnd, io`bEnd, io`commitIdSequence
    ensures Snapshot(io, b, path0, out) == Shape(s, data, g.Join(p), path0)
  {
    BatchSize(g.last);
    ShapeCommit(s, data, g, p, path0);
    b, out := CommitPacket(io, path, b0, out0);
    b := b.(count := 1, size := |p.payload|);
  }

  lemma Next(ps: seq<Packet>, p: Packet)
    ensures Payload(ps + [p]) == Payload(ps) + p.payload
    ensures Group(ps + [p]) == Group(ps).Join(p)
  {
    assert (ps + [p])[..|ps|] == ps;
  }

  lemma Ready(ps: seq<Packet>, quantum: nat -> nat)
    requires forall k :: 0 <= k < |ps| ==> ps[k].payload != []
    ensures Building(Group(ps), PathOf(ps, quantum))
  {
    if ps != [] {
      LastAlike(ps);
    }
  }

  lemma SizeSplit(ps: seq<Packet>)
    ensures |Payload(ps)| == Size(Group(ps).done) + |Payload(Group(ps).last)|
  {
    GroupKeeps(ps);
    FlatSize(Group(ps).done);
    FlatIsPayload(Group(ps).done);
    PayloadSum(Concat(Group(ps).done), Group(ps).last);
  }

  lemma Advance(ps: seq<Packet>, p: Packet, send: (nat, nat) -> Response, release: nat -> Option<nat>,
                quantum: nat -> nat, room: nat)
    requires Answers(ps, send, release, quantum, room) && Length(ps, 0, |ps|) <= room
    requires !Spent(ps, |ps|, quantum) && release(|ps|) == None && p.payload != []
    requires send(|ps|, room - Length(ps, 0, |ps|)) == Sent(p)
    ensures Answers(ps + [p], send, release, quantum, room)
    ensures Length(ps + [p], 0, |ps| + 1) == Length(ps, 0, |ps|) + |p.payload|
    ensures Payload(ps + [p]) == Payload(ps) + p.payload
    ensures Group(ps + [p]) == Group(ps).Join(p)
    ensures PathOf(ps + [p], quantum) == Some(Visit(PathOf(ps, quantum), p, quantum(|ps|)))
    ensures Building(Group(ps), PathOf(ps, quantum))
  {
    NonEmpty(ps, send, release, quantum, room);
    Ready(ps, quantum);
    AnswerLast(ps, p, send, release, quantum, room);
    AnswersAppend(ps, p, send, release, quantum, room);
    LengthAppend(ps, p, 0, |ps|);
    Next(ps, p);
    PathNext(ps, p, quantum);
  }

  lemma NonEmpty(ps: seq<Packet>, send: (nat, nat) -> Response, release: nat -> Option<nat>,
                 quantum: nat -> nat, room: nat)
    requires Answers(ps, send, release, quantum, room)
    ensures forall k :: 0 <= k < |ps| ==> ps[k].payload != []
  {
    forall k | 0 <= k < |ps| ensures ps[k].payload != [] {
      assert Answer(ps, k, send, release, quantum, room);
    }
  }

  lemma RoomLeft(s: Start, ps: seq<Packet>, path: Option<Path>)
    requires s.Holds(ps)
    ensures |Payload(ps)| == Length(ps, 0, |ps|) == Size(Group(ps).done) + |Payload(Group(ps).last)|
    ensures var b := Shape(s, Payload(ps), Group(ps), path).batch;
            b.reserve.Valid() && b.reserve.Len() - b.offset == s.reserve.Len() - Length(ps, 0, |ps|)
  {
    LengthIsPayload(ps);
    SizeSplit(ps);
  }

  /** The state of the loop once `ps` has been produced. */
  ghost predicate Looping(io: BipBuffer, b: Batch, path: Option<Path>, out: seq<Message>, ps: seq<Packet>,
                          s: Start, quantum: nat -> nat)
    reads io, io.buffer
  {
    s.Holds(ps) && path == PathOf(ps, quantum) && Snapshot(io, b, path, out) == Shape(s, Payload(ps), Group(ps), path)
  }

  /** A packet the connection sends takes the loop to the state of one packet more. */
  method Step(io: BipBuffer, b0: Batch, path0: Option<Path>, out0: seq<Message>, p: Packet, quantumNow: nat,
              ghost s: Start, ghost ps: seq<Packet>, ghost send: (nat, nat) -> Response,
              ghost release: nat -> Option<nat>, ghost quantum: nat -> nat)
    returns (b: Batch, path: Option<Path>, out: seq<Message>)
    requires Looping(io, b0, path0, out0, ps, s, quantum) && Answers(ps, send, release, quantum, s.reserve.Len())
    requires Length(ps, 0, |ps|) + |p.payload| <= s.reserve.Len() && quantumNow == quantum(|ps|)
    requires !Spent(ps, |ps|, quantum) && release(|ps|) == None && p.payload != []
    requires send(|ps|, s.reserve.Len() - Length(ps, 0, |ps|)) == Sent(p)
    modifies io.buffer, io`aEnd, io`bEnd, io`commitIdSequence
    ensures Looping(io, b, path, out, ps + [p], s, quantum)
    ensures Answers(ps + [p], send, release, quantum, s.reserve.Len())
    ensures |Payload(ps + [p])| == |Payload(ps)| + |p.payload|
  {
    RoomLeft(s, ps, path0);
    Advance(ps, p, send, release, quantum, s.reserve.Len());
    Put(io, b0, path0, out0, p.payload, s, Payload(ps), Group(ps));
    var next;
    b, next, out := Absorb(io, b0, path0, out0, p, quantumNow, s, Payload(ps) + p.payload, Group(ps));
    path := Some(next);
  }

  /** The loop's condition is that the quantum is not spent. */
  lemma SpentIsConsumed(ps: seq<Packet>, quantum: nat -> nat)
    ensures Spent(ps, |ps|, quantum) <==>
            PathOf(ps, quantum).Some? && PathOf(ps, quantum).value.consumed >= PathOf(ps, quantum).value.quantum
  {
  }

  datatype Asked = Stop(result: Result) | Go(packet: Packet)

  /** Asks the pacer and then the connection. */
  method Ask(call: nat, left: nat, send: (nat, nat) -> Response, release: nat -> Option<nat>,
             ghost ps: seq<Packet>, ghost quantum: nat -> nat, ghost room: nat)
    returns (a: Asked)
    requires !Spent(ps, |ps|, quantum) && call == |ps| && left + Length(ps, 0, |ps|) == room
    ensures a.Stop? ==> Stopped(a.result, ps, send, release, quantum, room)
    ensures a.Go? ==> release(call) == None && send(call, left) == Sent(a.packet) && a.packet.payload != []
  {
    if release(call).Some? {
      return Stop(Success(Pacer(release(call).value)));
    }
    match send(call, left) {
      case Done => return Stop(Success(Complete));
      case TooShort => return Stop(Success(BufferTooShort));
      case Error(code) => return Stop(Failure(code));
      case Sent(p) => return if |p.payload| == 0 then Stop(Success(Complete)) else Go(p);
    }
  }

  /** What the batch has not taken of the reservation. */
  lemma RoomInLoop(io: BipBuffer, b: Batch, path: Option<Path>, out: seq<Message>, ps: seq<Packet>, s: Start,
                   quantum: nat -> nat)
    requires Looping(io, b, path, out, ps, s, quantum)
    ensures b.reserve.Valid() && b.offset <= b.reserve.Len()
    ensures b.reserve.Len() - b.offset + Length(ps, 0, |ps|) == s.reserve.Len()
  {
    RoomLeft(s, ps, path);
  }

  /** One turn of the loop: it ends it, or adds a packet. */
  method Turn(io: BipBuffer, b0: Batch, path0: Option<Path>, out0: seq<Message>, call: nat,
              send: (nat, nat) -> Response, release: nat -> Option<nat>, quantum: nat -> nat,
              ghost s: Start, ghost ps0: seq<Packet>)
    returns (end: Option<Result>, b: Batch, path: Option<Path>, out: seq<Message>, ghost ps: seq<Packet>)
    requires FitsRoom(send) && Looping(io, b0, path0, out0, ps0, s, quantum) && call == |ps0|
    requires Answers(ps0, send, release, quantum, s.reserve.Len()) && !Spent(ps0, |ps0|, quantum)
    modifies io.buffer, io`aEnd, io`bEnd, io`commitIdSequence
    ensures Looping(io, b, path, out, ps, s, quantum) && Answers(ps, send, release, quantum, s.reserve.Len())
    ensures end.Some? ==> ps == ps0 && Stopped(end.value, ps, send, release, quantum, s.reserve.Len())
    ensures end.None? ==> |ps| == call + 1 && |Payload(ps)| > |Payload(ps0)|
  {
    RoomInLoop(io, b0, path0, out0, ps0, s, quantum);
    var left := b0.reserve.Len() - b0.offset;
    var asked := Ask(call, left, send, release, ps0, quantum, s.reserve.Len());
    if asked.Stop? {
      return Some(asked.result), b0, path0, out0, ps0;
    }
    b, path, out := Step(io, b0, path0, out0, asked.packet, quantum(call), s, ps0, send, release, quantum);
    end, ps := None, ps0 + [asked.packet];
  }

  /** The loop of `write_pending`. */
  method Pump(io: BipBuffer, b0: Batch, send: (nat, nat) -> Response, release: nat -> Option<nat>, quantum: nat -> nat,
              ghost s: Start)
    returns (r: Result, b: Batch, path: Option<Path>, out: seq<Message>, ghost ps: seq<Packet>)
    requires FitsRoom(send) && s.Holds([])
    requires Snapshot(io, b0, None, []) == State(s.bytes, s.view, Batch(s.reserve, 0, 0, 0), None, [])
    modifies io.buffer, io`aEnd, io`bEnd, io`commitIdSequence
    ensures Looping(io, b, path, out, ps, s, quantum) && Answers(ps, send, release, quantum, s.reserve.Len())
    ensures Stopped(r, ps, send, release, quantum, s.reserve.Len())
  {
    b, path, out, ps := b0, None, [], [];
    var call := 0;
    while path.None? || path.value.consumed < path.value.quantum
      invariant call == |ps| && Looping(io, b, path, out, ps, s, quantum)
      invariant Answers(ps, send, release, quantum, s.reserve.Len())
      decreases s.reserve.Len() - |Payload(ps)|
    {
      SpentIsConsumed(ps, quantum);
      var end;
      end, b, path, out, ps := Turn(io, b, path, out, call, send, release, quantum, s, ps);
      if end.Some? {
        return end.value, b, path, out, ps;
      }
      call := call + 1;
    }
    SpentIsConsumed(ps, quantum);
    r := Success(Quantum);
  }

  // ----- What the messages carry -----

  /** The message is a view of exactly the bytes of the group, of its path, cut
      into as many segments as it has packets. */
  ghost predicate Carries(bytes: seq<bv8>, m: Message, group: seq<Packet>) {
    && m.view.start < m.view.end <= |bytes|
    && bytes[m.view.start..m.view.end] == Payload(group)
    && group != [] && m.sourceIp == group[0].from.ip && m.destination == group[0].to && m.segments == |group|
  }

  ghost predicate Delivered(bytes: seq<bv8>, out: seq<Message>, groups: seq<seq<Packet>>) {
    |out| == |groups| && forall i :: 0 <= i < |out| ==> Carries(bytes, out[i], groups[i])
  }

  /** Part `k` of `count` equal parts: what the network sends for segment `k`. */
  function Cut(data: seq<bv8>, count: nat, k: nat): seq<bv8>
    requires k < count
  {
    var size := |data| / count;
    var lo := k * size;
    if lo + size <= |data| then data[lo..lo + size] else []
  }

  lemma CutAt(data: seq<bv8>, count: nat, size: nat, k: nat, part: seq<bv8>)
    requires k < count && |data| / count == size
    requires 0 <= k * size <= k * size + size <= |data| && data[k * size..k * size + size] == part
    ensures Cut(data, count, k) == part
  {
  }

  lemma CutGroup(group: seq<Packet>, size: nat, k: nat)
    requires k < |group| && forall i :: 0 <= i < |group| ==> |group[i].payload| == size
    ensures Cut(Payload(group), |group|, k) == group[k].payload
  {
    SegmentsArePackets(group, size, k);
    assert |group| * size == size * |group| + 0;
    DivisionUnique(|group| * size, |group|, size, 0);
    CutAt(Payload(group), |group|, size, k, group[k].payload);
  }

  /** Segment `k` of the message that carries a group is packet `k` of the group. */
  lemma SegmentsArrive(bytes: seq<bv8>, m: Message, group: seq<Packet>, k: nat)
    requires Carries(bytes, m, group) && Uniform(group) && k < m.segments
    ensures Cut(bytes[m.view.start..m.view.end], m.segments, k) == group[k].payload
  {
    CutGroup(group, |group[0].payload|, k);
  }

  function Payloads(ps: seq<Packet>): seq<seq<bv8>> {
    if ps == [] then [] else Payloads(ps[..|ps| - 1]) + [ps[|ps| - 1].payload]
  }

  lemma {:induction false} PayloadAt(ps: seq<Packet>, k: nat)
    requires k < |ps|
    ensures |Payloads(ps)| == |ps| && Payloads(ps)[k] == ps[k].payload
  {
    var n := |ps| - 1;
    if n > 0 {
      PayloadAt(ps[..n], if k < n then k else 0);
    } else {
      assert Payloads(ps[..n]) == [];
    }
  }

  /** The first `n` segments of a message. */
  function Segments(data: seq<bv8>, count: nat, n: nat): (r: seq<seq<bv8>>)
    requires n <= count
    ensures |r| == n
  {
    if n == 0 then [] else Segments(data, count, n - 1) + [Cut(data, count, n - 1)]
  }

  /** What the network sends for the first `k` messages: all their segments, one after
      the other. */
  function Received(bytes: seq<bv8>, out: seq<Message>, k: nat): seq<seq<bv8>>
    requires k <= |out|
  {
    if k == 0 then [] else Received(bytes, out, k - 1) + SegmentsOf(bytes, out[k - 1])
  }

  function SegmentsOf(bytes: seq<bv8>, m: Message): seq<seq<bv8>> {
    if m.view.start <= m.view.end <= |bytes|
    then Segments(bytes[m.view.start..m.view.end], m.segments, m.segments) else []
  }

  function PayloadsUpTo(groups: seq<seq<Packet>>, k: nat): seq<seq<bv8>>
    requires k <= |groups|
  {
    if k == 0 then [] else PayloadsUpTo(groups, k - 1) + Payloads(groups[k - 1])
  }

  lemma {:induction false} PayloadsAppend(groups: seq<seq<Packet>>, last: seq<Packet>, k: nat)
    requires k <= |groups|
    ensures PayloadsUpTo(groups + [last], k) == PayloadsUpTo(groups, k)
  {
    if k > 0 {
      PayloadsAppend(groups, last, k - 1);
    }
  }

  lemma {:induction false} PayloadsOfAll(groups: seq<seq<Packet>>)
    ensures PayloadsUpTo(groups, |groups|) == Payloads(Concat(groups))
  {
    var n := |groups| - 1;
    if n >= 0 {
      var front, last := groups[..n], groups[n];
      PayloadsOfAll(front);
      PayloadsAppend(front, last, n);
      PayloadsSum(Concat(front), last);
      assert groups == front + [last];
    }
  }

  lemma {:induction false} PayloadsSum(a: seq<Packet>, b: seq<Packet>)
    ensures Payloads(a + b) == Payloads(a) + Payloads(b)
  {
    if b == [] {
      assert a + b == a;
    } else {
      var n := |b| - 1;
      PayloadsSum(a, b[..n]);
      assert (a + b)[..|a + b| - 1] == a + b[..n];
    }
  }

  lemma {:induction false} SegmentsUpTo(group: seq<Packet>, n: nat)
    requires Uniform(group) && n <= |group|
    ensures Segments(Payload(group), |group|, n) == Payloads(group[..n])
  {
    if n > 0 {
      SegmentsUpTo(group, n - 1);
      CutGroup(group, |group[0].payload|, n - 1);
      assert group[..n][..n - 1] == group[..n - 1];
    }
  }

  ghost predicate Arrives(bytes: seq<bv8>, m: Message, group: seq<Packet>) {
    SegmentsOf(bytes, m) == Payloads(group)
  }

  lemma MessageArrives(bytes: seq<bv8>, m: Message, group: seq<Packet>)
    requires Carries(bytes, m, group) && Uniform(group)
    ensures Arrives(bytes, m, group)
  {
    SegmentsUpTo(group, |group|);
    assert group[..|group|] == group;
  }

  lemma {:induction false} MessagesArrive(bytes: seq<bv8>, out: seq<Message>, groups: seq<seq<Packet>>, k: nat)
    requires k <= |out| == |groups| && forall i :: 0 <= i < |out| ==> Arrives(bytes, out[i], groups[i])
    ensures Received(bytes, out, k) == PayloadsUpTo(groups, k)
  {
    if k > 0 {
      MessagesArrive(bytes, out, groups, k - 1);
      assert Arrives(bytes, out[k - 1], groups[k - 1]);
    }
  }

  /** The segments of the messages that carry the groups of the packets produced are,
      one after the other, exactly those packets. */
  lemma StreamArrives(bytes: seq<bv8>, out: seq<Message>, ps: seq<Packet>)
    requires Delivered(bytes, out, Group(ps).All())
    ensures Received(bytes, out, |out|) == Payloads(ps)
  {
    var groups := Group(ps).All();
    GroupPartitions(ps);
    forall i | 0 <= i < |out| ensures Arrives(bytes, out[i], groups[i]) {
      MessageArrives(bytes, out[i], groups[i]);
    }
    MessagesArrive(bytes, out, groups, |out|);
    PayloadsOfAll(groups);
  }

  ghost predicate NonEmptyGroups(groups: seq<seq<Packet>>) {
    forall i :: 0 <= i < |groups| ==> Full(groups[i])
  }

  ghost predicate Full(group: seq<Packet>) {
    group != [] && |Payload(group)| > 0
  }

  lemma {:induction false} MessageAt(groups: seq<seq<Packet>>, k: nat, at: nat, id: nat, i: nat)
    requires i < k <= |groups|
    ensures MessagesUpTo(groups, k, at, id)[i]
         == MessageOf(groups[i], Slice(id + i, at + Before(groups, i), at + Before(groups, i + 1)))
  {
    if i < k - 1 {
      MessageAt(groups, k - 1, at, id, i);
    }
  }

  lemma {:induction false} FlatAt(groups: seq<seq<Packet>>, i: nat)
    requires i < |groups|
    ensures Before(groups, i + 1) <= |Flat(groups)|
    ensures Flat(groups)[Before(groups, i)..Before(groups, i + 1)] == Payload(groups[i])
  {
    var n := |groups| - 1;
    var front, last := groups[..n], groups[n];
    assert groups == front + [last];
    FlatSize(front);
    BeforeAppend(front, last, i);
    if i < n {
      FlatAt(front, i);
      BeforeAppend(front, last, i + 1);
    }
  }

  lemma SpliceInside(bytes: seq<bv8>, at: nat, data: seq<bv8>, lo: nat, hi: nat)
    requires lo <= hi <= |data| && at + |data| <= |bytes|
    ensures Splice(bytes, at, data)[at + lo..at + hi] == data[lo..hi]
  {
  }

  lemma FlatInside(bytes: seq<bv8>, at: nat, groups: seq<seq<Packet>>, rest: seq<bv8>, i: nat)
    requires at + |Flat(groups) + rest| <= |bytes| && i < |groups|
    ensures at + Before(groups, i + 1) <= |bytes|
    ensures Splice(bytes, at, Flat(groups) + rest)[at + Before(groups, i)..at + Before(groups, i + 1)]
         == Payload(groups[i])
  {
    FlatAt(groups, i);
    var data, lo, hi := Flat(groups) + rest, Before(groups, i), Before(groups, i + 1);
    SpliceInside(bytes, at, data, lo, hi);
    assert data[lo..hi] == Flat(groups)[lo..hi];
  }

  lemma MessageCarries(bytes: seq<bv8>, at: nat, id: nat, groups: seq<seq<Packet>>, rest: seq<bv8>, i: nat)
    requires NonEmptyGroups(groups) && at + |Flat(groups) + rest| <= |bytes| && i < |groups|
    ensures Carries(Splice(bytes, at, Flat(groups) + rest), Messages(groups, at, id)[i], groups[i])
  {
    MessageAt(groups, |groups|, at, id, i);
    FlatInside(bytes, at, groups, rest, i);
  }

  /** The messages of `groups` carry them, whatever is written behind. */
  lemma MessagesCarry(bytes: seq<bv8>, at: nat, id: nat, groups: seq<seq<Packet>>, rest: seq<bv8>, data: seq<bv8>)
    requires NonEmptyGroups(groups) && data == Flat(groups) + rest && at + |data| <= |bytes|
    ensures Delivered(Splice(bytes, at, data), Messages(groups, at, id), groups)
  {
    forall i | 0 <= i < |groups| ensures Carries(Splice(bytes, at, data), Messages(groups, at, id)[i], groups[i]) {
      MessageCarries(bytes, at, id, groups, rest, i);
    }
  }

  // ----- The tiling of the buffer -----

  function Views(out: seq<Message>): (vs: seq<Slice>)
    ensures |vs| == |out| && forall i :: 0 <= i < |vs| ==> vs[i] == out[i].view
  {
    seq(|out|, i requires 0 <= i < |out| => out[i].view)
  }

  /** `k` more slices up to `at` extend the tiling, and the rest of the reservation
      stays attached. */
  ghost predicate Tiled(s: Start, all: seq<Slice>, n: nat, split: nat, at: nat, k: nat, views: seq<Slice>) {
    var view, rest := Committed(s.view, s.reserve.region, at, k), s.reserve.(start := at);
    match s.reserve.region
    case A => Tiles(view, all + views, n, if k > 0 then |all| + k else split) && Attached(view, rest)
    case B => Tiles(view, all + views, n, split) && Attached(view, rest)
  }

  lemma TiledCommit(b: Buffer, all: seq<Slice>, n: nat, split: nat, r: Reservation, len: nat,
                    b': Buffer, all': seq<Slice>, split': nat, r': Reservation)
    requires Tiles(b, all, n, split) && Attached(b, r) && 0 < len <= r.Len()
    requires b' == b.Commit(r, len).0 && split' == SplitAfterCommit(all, split, r.region)
    requires all' == all + [Slice(b.nextCommit, r.start, r.start + len)] && r' == r.(start := r.start + len)
    ensures Tiles(b', all', n, split') && Attached(b', r')
  {
    CommitExtends(b, all, n, split, r, len);
  }

  lemma CommittedStep(view: Buffer, r: Reservation, at: nat, k: nat, len: nat)
    requires at + len <= r.end
    ensures Committed(view, r.region, at, k).Commit(r.(start := at), len).0
         == Committed(view, r.region, at + len, k + 1)
  {
  }

  lemma TiledStep(s: Start, all: seq<Slice>, n: nat, split: nat, at: nat, k: nat, views: seq<Slice>, len: nat,
                  views': seq<Slice>)
    requires Tiled(s, all, n, split, at, k, views) && |views| == k && 0 < len && at + len <= s.reserve.end
    requires views' == views + [Slice(s.view.nextCommit + k, at, at + len)]
    ensures Tiled(s, all, n, split, at + len, k + 1, views')
  {
    var region := s.reserve.region;
    var view := Committed(s.view, region, at, k);
    CommittedStep(s.view, s.reserve, at, k, len);
    TiledCommit(view, all + views, n, if region == A && k > 0 then |all| + k else split, s.reserve.(start := at), len,
                Committed(s.view, region, at + len, k + 1), all + views',
                if region == A then |all| + (k + 1) else split,
                s.reserve.(start := at + len));
  }

  /** Non-empty slices numbered from `id` and laid end to end from `lo` to `hi`. */
  ghost predicate Row(views: seq<Slice>, lo: nat, hi: nat, id: nat) {
    var k := |views| - 1;
    if k < 0 then lo == hi
    else
      && Row(views[..k], lo, views[k].start, id)
      && views[k].id == id + k && views[k].start < views[k].end == hi
  }

  lemma RowPush(out: seq<Message>, lo: nat, hi: nat, id: nat, m: Message)
    requires Row(Views(out), lo, hi, id) && m.view.start == hi < m.view.end && m.view.id == id + |out|
    ensures Row(Views(out + [m]), lo, m.view.end, id)
  {
    assert Views(out + [m]) == Views(out) + [m.view];
    assert Views(out + [m])[..|out|] == Views(out);
  }

  lemma {:induction false} MessagesRow(groups: seq<seq<Packet>>, k: nat, at: nat, id: nat)
    requires NonEmptyGroups(groups) && k <= |groups|
    ensures Row(Views(MessagesUpTo(groups, k, at, id)), at, at + Before(groups, k), id)
  {
    if k == 0 {
      assert Views([]) == [];
    } else {
      var out, lo := MessagesUpTo(groups, k - 1, at, id), at + Before(groups, k - 1);
      MessagesRow(groups, k - 1, at, id);
      var last := groups[k - 1];
      assert Full(last);
      RowPush(out, at, lo, id, MessageOf(last, Slice(id + k - 1, lo, lo + |Payload(last)|)));
    }
  }

  /** Committing a row of slices one by one from the start of the reservation
      extends the tiling by them. */
  lemma {:induction false} RowTiles(s: Start, all: seq<Slice>, n: nat, split: nat, views: seq<Slice>, hi: nat)
    requires Tiled(s, all, n, split, s.reserve.start, 0, [])
    requires Row(views, s.reserve.start, hi, s.view.nextCommit) && hi <= s.reserve.end
    ensures Tiled(s, all, n, split, hi, |views|, views)
  {
    var k := |views| - 1;
    if k >= 0 {
      var front, c := views[..k], views[k];
      RowTiles(s, all, n, split, front, c.start);
      TiledStep(s, all, n, split, c.start, k, front, c.end - c.start, views);
    }
  }

  // ----- The whole call -----

  lemma {:induction false} GroupsFull(ps: seq<Packet>)
    requires forall k :: 0 <= k < |ps| ==> ps[k].payload != []
    ensures NonEmptyGroups(Group(ps).done) && (ps != [] ==> Full(Group(ps).last))
  {
    var k := |ps| - 1;
    if k >= 0 {
      GroupsFull(ps[..k]);
      LastGrows(ps[..k]);
      PayloadOne(ps[k]);
      PayloadSum(Group(ps[..k]).last, [ps[k]]);
    }
  }

  lemma FlatParts(ps: seq<Packet>, done: seq<seq<Packet>>, last: seq<Packet>)
    requires Concat(done) + last == ps
    ensures Payload(ps) == Flat(done) + Payload(last) == Flat(done + [last])
  {
    PayloadSum(Concat(done), last);
    FlatIsPayload(done);
    FlatStep(done, last);
  }

  /** The messages of `groups` are out, and nothing else was committed. */
  ghost predicate Issued(s: Start, groups: seq<seq<Packet>>, view: Buffer, out: seq<Message>) {
    && view == Committed(s.view, s.reserve.region, s.reserve.start + Size(groups), |groups|)
    && out == Messages(groups, s.reserve.start, s.view.nextCommit)
  }

  /** Commits what is left in the batch, if the loop ended well. */
  method Finish(io: BipBuffer, b: Batch, path: Path, out: seq<Message>, ghost s: Start, ghost data: seq<bv8>,
                ghost g: Groups)
    returns (out': seq<Message>)
    requires s.reserve.Valid() && s.reserve.end <= |s.bytes| && |data| <= s.reserve.Len()
    requires Snapshot(io, b, Some(path), out) == Shape(s, data, g, Some(path))
    requires Building(g, Some(path)) && |data| == Size(g.done) + |Payload(g.last)|
    modifies io`aEnd, io`bEnd, io`commitIdSequence
    ensures Issued(s, g.All(), io.View(), out')
  {
    BatchSize(g.last);
    ShapeCommit(s, data, g, g.last[0], Some(path));
    var b';
    b', out' := CommitPacket(io, path, b, out);
  }

  /** A slice that was there before still holds the same bytes. */
  ghost predicate Kept(bytes: seq<bv8>, bytes': seq<bv8>, c: Slice) {
    c.start <= c.end <= |bytes| && |bytes'| == |bytes| && bytes'[c.start..c.end] == bytes[c.start..c.end]
  }

  lemma OlderKept(s: Start, all: seq<Slice>, n: nat, split: nat, data: seq<bv8>, i: nat)
    requires Tiles(s.view, all, n, split) && Attached(s.view, s.reserve) && |s.bytes| == s.view.length
    requires |data| <= s.reserve.Len() && n <= i < |all|
    ensures s.reserve.end <= |s.bytes| && Kept(s.bytes, Splice(s.bytes, s.reserve.start, data), all[i])
  {
    TilesOrder(s.view, all, n, split);
    SlicesDisjoint(s.view, all, n, split, i, i);
    SpliceElsewhere(s.bytes, s.reserve.start, data, all[i].start, all[i].end);
  }

  function SplitAfter(all: seq<Slice>, split: nat, region: Region, k: nat): nat {
    if region == A && k > 0 then |all| + k else split
  }

  lemma TiledStart(s: Start, all: seq<Slice>, n: nat, split: nat)
    requires Tiles(s.view, all, n, split) && Attached(s.view, s.reserve)
    ensures Tiled(s, all, n, split, s.reserve.start, 0, [])
  {
    assert all + [] == all;
  }

  lemma TiledEnd(s: Start, all: seq<Slice>, n: nat, split: nat, at: nat, k: nat, views: seq<Slice>)
    requires Tiled(s, all, n, split, at, k, views)
    ensures Tiles(Committed(s.view, s.reserve.region, at, k).(reserved := false), all + views, n,
                  SplitAfter(all, split, s.reserve.region, k))
  {
  }

  lemma IssuedTiles(s: Start, all: seq<Slice>, n: nat, split: nat, groups: seq<seq<Packet>>, view: Buffer,
                    out: seq<Message>)
    requires Tiled(s, all, n, split, s.reserve.start, 0, []) && s.reserve.Valid()
    requires NonEmptyGroups(groups) && Issued(s, groups, view, out) && Size(groups) <= s.reserve.Len()
    ensures Tiles(view.(reserved := false), all + Views(out), n, SplitAfter(all, split, s.reserve.region, |out|))
  {
    var hi := s.reserve.start + Size(groups);
    IssuedRow(s, groups, view, out);
    RowTiles(s, all, n, split, Views(out), hi);
    TiledEnd(s, all, n, split, hi, |groups|, Views(out));
  }

  lemma IssuedRow(s: Start, groups: seq<seq<Packet>>, view: Buffer, out: seq<Message>)
    requires NonEmptyGroups(groups) && Issued(s, groups, view, out)
    ensures |out| == |groups| && Row(Views(out), s.reserve.start, s.reserve.start + Size(groups), s.view.nextCommit)
  {
    MessagesRow(groups, |groups|, s.reserve.start, s.view.nextCommit);
  }

  /** The groups sent out: all of them if the call ends well, and otherwise all
      but the batch the error interrupted. */
  function SentGroups(r: Result, g: Groups): seq<seq<Packet>> {
    if r.Success? then g.All() else g.done
  }

  /** A call that fails loses exactly the batch in progress. */
  lemma SentIsPrefix(r: Result, ps: seq<Packet>)
    ensures r.Success? ==> Concat(SentGroups(r, Group(ps))) == ps
    ensures r.Failure? ==> Concat(SentGroups(r, Group(ps))) + Group(ps).last == ps
  {
    GroupPartitions(ps);
    GroupKeeps(ps);
  }

  function Unsent(r: Result, g: Groups): seq<bv8> {
    if r.Success? then [] else Payload(g.last)
  }

  lemma SentBytes(r: Result, ps: seq<Packet>, g: Groups)
    requires Concat(g.done) + g.last == ps
    ensures Payload(ps) == Flat(SentGroups(r, g)) + Unsent(r, g)
  {
    FlatParts(ps, g.done, g.last);
  }

  lemma SentFull(r: Result, g: Groups)
    requires NonEmptyGroups(g.done) && (g.last != [] ==> Full(g.last))
    ensures NonEmptyGroups(SentGroups(r, g))
  {
  }

  /** What was sent fits, is not empty, and is the front of what was produced. */
  lemma SentFacts(s: Start, r: Result, ps: seq<Packet>, g: Groups)
    requires s.Holds(ps) && g == Group(ps) && forall k :: 0 <= k < |ps| ==> ps[k].payload != []
    ensures NonEmptyGroups(SentGroups(r, g)) && Size(SentGroups(r, g)) <= s.reserve.Len()
    ensures Payload(ps) == Flat(SentGroups(r, g)) + Unsent(r, g)
  {
    GroupsFull(ps);
    LastGrows(ps);
    SentFull(r, g);
    GroupKeeps(ps);
    SentBytes(r, ps, g);
    FlatSize(SentGroups(r, g));
  }

  /** The loop, and then the rest of the batch. */
  method PumpOut(io: BipBuffer, reserve: Reservation, send: (nat, nat) -> Response, release: nat -> Option<nat>,
                 quantum: nat -> nat, ghost s: Start)
    returns (r: Result, out: seq<Message>, ghost ps: seq<Packet>)
    requires FitsRoom(send) && s.Holds([]) && io.buffer[..] == s.bytes && io.View() == s.view && reserve == s.reserve
    modifies io.buffer, io`aEnd, io`bEnd, io`commitIdSequence
    ensures Answers(ps, send, release, quantum, reserve.Len()) && Stopped(r, ps, send, release, quantum, reserve.Len())
    ensures s.Holds(ps) && io.buffer[..] == Splice(s.bytes, reserve.start, Payload(ps))
    ensures Issued(s, SentGroups(r, Group(ps)), io.View(), out)
  {
    var b, path;
    r, b, path, out, ps := Pump(io, Batch(reserve, 0, 0, 0), send, release, quantum, s);
    if r.Success? && path.Some? {
      LoopReady(s, ps, send, release, quantum);
      out := Finish(io, b, path.value, out, s, Payload(ps), Group(ps));
    } else {
      NothingToFinish(r, ps, quantum);
      assert Issued(s, Group(ps).done, io.View(), out);
    }
  }

  lemma LoopReady(s: Start, ps: seq<Packet>, send: (nat, nat) -> Response, release: nat -> Option<nat>,
                  quantum: nat -> nat)
    requires s.Holds(ps) && Answers(ps, send, release, quantum, s.reserve.Len())
    ensures Building(Group(ps), PathOf(ps, quantum))
    ensures |Payload(ps)| == Size(Group(ps).done) + |Payload(Group(ps).last)|
  {
    NonEmpty(ps, send, release, quantum, s.reserve.Len());
    Ready(ps, quantum);
    SizeSplit(ps);
  }

  lemma NothingToFinish(r: Result, ps: seq<Packet>, quantum: nat -> nat)
    requires r.Failure? || PathOf(ps, quantum).None?
    ensures SentGroups(r, Group(ps)) == Group(ps).done
  {
    LastGrows(ps);
  }

  /** What a call that reserved from `s` leaves behind: the messages carry what was sent,
      their views extend the tiling, and the slices committed before keep their bytes. */
  lemma Concluded(s: Start, all: seq<Slice>, n: nat, split: nat, r: Result, ps: seq<Packet>,
                  bytes: seq<bv8>, view: Buffer, out: seq<Message>)
    requires Tiles(s.view, all, n, split) && Attached(s.view, s.reserve) && |s.bytes| == s.view.length && s.Holds(ps)
    requires forall k :: 0 <= k < |ps| ==> ps[k].payload != []
    requires bytes == Splice(s.bytes, s.reserve.start, Payload(ps)) && Issued(s, SentGroups(r, Group(ps)), view, out)
    ensures Delivered(bytes, out, SentGroups(r, Group(ps)))
    ensures Tiles(view.(reserved := false), all + Views(out), n, SplitAfter(all, split, s.reserve.region, |out|))
    ensures forall i :: n <= i < |all| ==> Kept(s.bytes, bytes, all[i])
  {
    var g := Group(ps);
    SentFacts(s, r, ps, g);
    MessagesCarry(s.bytes, s.reserve.start, s.view.nextCommit, SentGroups(r, g), Unsent(r, g), Payload(ps));
    ConcludedTiles(s, all, n, split, SentGroups(r, g), view, out);
    forall i | n <= i < |all| ensures Kept(s.bytes, bytes, all[i]) {
      OlderKept(s, all, n, split, Payload(ps), i);
    }
  }

  lemma ConcludedTiles(s: Start, all: seq<Slice>, n: nat, split: nat, groups: seq<seq<Packet>>,
                       view: Buffer, out: seq<Message>)
    requires Tiles(s.view, all, n, split) && Attached(s.view, s.reserve)
    requires NonEmptyGroups(groups) && Issued(s, groups, view, out) && Size(groups) <= s.reserve.Len()
    ensures Tiles(view.(reserved := false), all + Views(out), n, SplitAfter(all, split, s.reserve.region, |out|))
  {
    TiledStart(s, all, n, split);
    IssuedTiles(s, all, n, split, groups, view, out);
  }

  lemma NothingKept(b: Buffer, bytes: seq<bv8>, all: seq<Slice>, n: nat, split: nat)
    requires Tiles(b, all, n, split) && |bytes| == b.length
    ensures forall i :: n <= i < |all| ==> Kept(bytes, bytes, all[i])
  {
    forall i | n <= i < |all| ensures Kept(bytes, bytes, all[i]) {
      SlicesDisjoint(b, all, n, split, i, i);
    }
  }

  /** Everything a call with a reservation did to bytes, view and output, in closed form:
      the packets lie end to end at its front, and the groups sent were committed there
      one by one. */
  ghost predicate Wrote(s: Start, r: Result, ps: seq<Packet>, bytes: seq<bv8>, view: Buffer, out: seq<Message>) {
    && s.Holds(ps) && bytes == Splice(s.bytes, s.reserve.start, Payload(ps))
    && Issued(s, SentGroups(r, Group(ps)), view, out)
  }

  /** `write_pending`. The connection is asked for packets while the visit to the
      current path is below its quantum. The packets it produced are all sent, in
      order, as messages of equal segments on one path, unless it failed, which
      costs the batch in progress. The messages' views extend the tiling of the
      buffer, and no slice committed before changes. */
  method WritePending(io: BipBuffer, send: (nat, nat) -> Response, release: nat -> Option<nat>, quantum: nat -> nat,
                      ghost all: seq<Slice>, ghost n: nat, ghost split: nat)
    returns (r: Result, out: seq<Message>, ghost ps: seq<Packet>, ghost room: nat, ghost split': nat,
             ghost reserve: Option<Reservation>)
    requires FitsRoom(send)
    requires Tiles(io.View(), all, n, split) && !io.reserved && io.buffer.Length == io.length
    modifies io.buffer, io`reserved, io`aEnd, io`bEnd, io`commitIdSequence
    ensures old(io.View()).Available().Ok? && room == Min(USIZE_MAX, old(io.View()).Available().value)
    ensures Answers(ps, send, release, quantum, room)
    ensures Delivered(io.buffer[..], out, SentGroups(r, Group(ps)))
    ensures r.Success? ==> Received(io.buffer[..], out, |out|) == Payloads(ps)
    ensures if room == 0 then r == Success(BufferTooShort) && ps == []
            else Stopped(r, ps, send, release, quantum, room)
    ensures !io.reserved && Tiles(io.View(), all + Views(out), n, split')
    ensures forall i :: n <= i < |all| ==> Kept(old(io.buffer[..]), io.buffer[..], all[i])
    ensures old(io.View()).Reserve(USIZE_MAX, false) == Ok((old(io.View()).(reserved := reserve.Some?), reserve))
    ensures reserve.None? ==> out == [] && io.View() == old(io.View()) && io.buffer[..] == old(io.buffer[..])
    ensures reserve.Some? ==>
              Wrote(Start(old(io.buffer[..]), old(io.View()).(reserved := true), reserve.value), r, ps,
                    io.buffer[..], io.View().(reserved := true), out)
  {
    ghost var bytes := io.buffer[..];
    ReserveAttaches(io.View(), all, n, split, USIZE_MAX, false);
    out, ps, room, split', reserve := [], [], 0, split, None;
    var reservation := io.Reserve(USIZE_MAX, false);
    if reservation.value.None? {
      assert all + Views([]) == all;
      NothingKept(io.View(), bytes, all, n, split);
      return Success(BufferTooShort), out, ps, room, split', reserve;
    }
    reserve := reservation.value;
    ghost var s := Start(bytes, io.View(), reservation.value.value);
    r, out, ps, split' := WriteReserved(io, reservation.value.value, send, release, quantum, s, all, n, split);
    room := s.reserve.Len();
    if r.Success? {
      StreamArrives(io.buffer[..], out, ps);
    }
  }

  /** The call once it has its reservation. */
  method WriteReserved(io: BipBuffer, reserve: Reservation, send: (nat, nat) -> Response, release: nat -> Option<nat>,
                       quantum: nat -> nat, ghost s: Start, ghost all: seq<Slice>, ghost n: nat, ghost split: nat)
    returns (r: Result, out: seq<Message>, ghost ps: seq<Packet>, ghost split': nat)
    requires FitsRoom(send) && io.buffer.Length == io.length && s == Start(io.buffer[..], io.View(), reserve)
    requires Tiles(s.view, all, n, split) && Attached(s.view, reserve) && io.reserved
    modifies io.buffer, io`reserved, io`aEnd, io`bEnd, io`commitIdSequence
    ensures Answers(ps, send, release, quantum, reserve.Len()) && Stopped(r, ps, send, release, quantum, reserve.Len())
    ensures Delivered(io.buffer[..], out, SentGroups(r, Group(ps)))
    ensures !io.reserved && Tiles(io.View(), all + Views(out), n, split')
    ensures forall i :: n <= i < |all| ==> Kept(s.bytes, io.buffer[..], all[i])
    ensures Wrote(s, r, ps, io.buffer[..], io.View().(reserved := true), out)
  {
    TilesOrder(s.view, all, n, split);
    r, out, ps := PumpOut(io, reserve, send, release, quantum, s);
    NonEmpty(ps, send, release, quantum, reserve.Len());
    Concluded(s, all, n, split, r, ps, io.buffer[..], io.View(), out);
    split' := SplitAfter(all, split, reserve.region, |out|);
    ghost var view := io.View();
    io.CancelReservation();
    assert io.View().(reserved := true) == view;
  }

  const USIZE_MAX: nat := WORD - 1
}
