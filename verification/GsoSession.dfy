/** `write_pending` as a use of the bip buffer: every call is a careful run of a session,
    so any mix of calls and returned messages keeps the buffer in its phase. */
module GsoSession {
  import opened Basics
  import opened BipModel
  import opened BipImpl
  import opened BipSession
  import opened BipRun
  import opened GsoGrouping
  import W = GsoWrite

  // ----- Runs from any session -----

  /** The careful steps `ops` lead from one session to another. */
  ghost predicate Leads(s: Session, ops: seq<Op>, s': Session)
    decreases |ops|
  {
    if ops == [] then s' == s
    else
      && Expressible(s, ops[0]) && Careful(s, ops[0]) && Step(s, ops[0]).Ok?
      && Leads(Step(s, ops[0]).value, ops[1..], s')
  }

  lemma {:induction false} LeadsOn(s: Session, ops: seq<Op>, s1: Session, op: Op)
    requires Leads(s, ops, s1) && Expressible(s1, op) && Careful(s1, op) && Step(s1, op).Ok?
    ensures Leads(s, ops + [op], Step(s1, op).value)
    decreases |ops|
  {
    if ops == [] {
      assert [op][1..] == [];
    } else {
      LeadsOn(Step(s, ops[0]).value, ops[1..], s1, op);
      assert (ops + [op])[1..] == ops[1..] + [op];
    }
  }

  lemma {:induction false} LeadsKeepsPhase(s: Session, ops: seq<Op>, s': Session)
    requires InPhase(s) && Leads(s, ops, s')
    ensures InPhase(s')
    decreases |ops|
  {
    if ops != [] {
      PhaseStep(s, ops[0]);
      LeadsKeepsPhase(Step(s, ops[0]).value, ops[1..], s');
    }
  }

  /** What holds of every careful run holds of one that goes on like this. */
  lemma {:induction false} LeadsRun(length: nat, ops: seq<Op>, s: Session, more: seq<Op>, s': Session, whole: seq<Op>)
    requires CarefulRun(length, ops) && Execute(length, ops) == Ok(s) && Leads(s, more, s') && whole == ops + more
    ensures CarefulRun(length, whole) && Execute(length, whole) == Ok(s')
    decreases |more|
  {
    if more == [] {
      assert whole == ops;
    } else {
      var op, rest := more[0], more[1..];
      RunExtends(length, ops, s, op);
      assert whole == ops + [op] + rest;
      LeadsRun(length, ops + [op], Step(s, op).value, rest, s', whole);
    }
  }

  // ----- The commits of one call -----

  /** The session before the commits, and where its slices lie. */
  datatype Base = Base(session: Session, start: W.Start, n: nat, split: nat)
  {
    ghost predicate Fits(groups: seq<seq<Packet>>) {
      && W.NonEmptyGroups(groups) && start.reserve.Valid() && W.Size(groups) <= start.reserve.Len()
      && start.reserve.end <= |session.bytes|
    }

    ghost predicate Ready(groups: seq<seq<Packet>>) {
      Fits(groups) && W.Tiled(start, session.all, n, split, start.reserve.start, 0, [])
    }
  }

  /** The session once the first `k` groups are committed. */
  ghost predicate Committed(s: Session, base: Base, groups: seq<seq<Packet>>, k: nat)
    requires k <= |groups|
  {
    var st := base.start;
    var at := st.reserve.start + W.Before(groups, k);
    && s.buf == W.Committed(st.view, st.reserve.region, at, k)
    && s.open == Some(st.reserve.(start := at)) && s.bytes == base.session.bytes
    && s.all == base.session.all + W.Views(W.MessagesUpTo(groups, k, st.reserve.start, st.view.nextCommit))
    && s.returned == base.session.returned
  }

  lemma {:induction false} BeforeGrows(groups: seq<seq<Packet>>, k: nat, l: nat)
    requires k <= l <= |groups|
    ensures W.Before(groups, k) <= W.Before(groups, l)
  {
    if k < l {
      BeforeGrows(groups, k, l - 1);
    }
  }

  /** The rest of the reservation stays attached. */
  lemma StaysAttached(s: Session, base: Base, groups: seq<seq<Packet>>, k: nat)
    requires base.Ready(groups) && k <= |groups| && Committed(s, base, groups, k)
    ensures s.open.Some? && Attached(s.buf, s.open.value)
  {
    var st := base.start;
    var lo, id := st.reserve.start, st.view.nextCommit;
    BeforeGrows(groups, k, |groups|);
    W.MessagesRow(groups, k, lo, id);
    W.RowTiles(st, base.session.all, base.n, base.split, W.Views(W.MessagesUpTo(groups, k, lo, id)),
               lo + W.Before(groups, k));
  }

  /** What a non-empty commit that fits makes of a session. */
  lemma CommitStep(s: Session, len: nat, r: Reservation, c: Slice) returns (s': Session)
    requires s.open == Some(r) && r.Valid() && 0 < len <= r.Len() && r.end <= |s.bytes|
    requires c == Slice(s.buf.nextCommit, r.start, r.start + len)
    ensures Expressible(s, Commit(len)) && Step(s, Commit(len)) == Ok(s')
    ensures s'.buf == s.buf.Commit(r, len).0 && s'.open == Some(r.(start := r.start + len))
    ensures s'.bytes == s.bytes && s'.all == s.all + [c] && s'.returned == s.returned
    ensures s'.first == if s.first.None? then Some(len) else s.first
  {
    s' := Step(s, Commit(len)).value;
  }

  /** The next group fits behind those before it. */
  lemma NextFits(groups: seq<seq<Packet>>, k: nat, len: nat)
    requires W.NonEmptyGroups(groups) && k < |groups| && len == |Payload(groups[k])|
    ensures 0 < len && W.Before(groups, k + 1) == W.Before(groups, k) + len <= W.Size(groups)
  {
    assert W.Full(groups[k]);
    BeforeGrows(groups, k + 1, |groups|);
  }

  lemma OpenRest(s: Session, base: Base, groups: seq<seq<Packet>>, k: nat)
    requires k <= |groups| && Committed(s, base, groups, k)
    ensures s.open == Some(base.start.reserve.(start := base.start.reserve.start + W.Before(groups, k)))
    ensures s.bytes == base.session.bytes
  {
  }

  lemma NextBuffer(s: Session, base: Base, groups: seq<seq<Packet>>, k: nat, r: Reservation, len: nat)
    requires k < |groups| && Committed(s, base, groups, k) && r.Valid() && len <= r.Len()
    requires r == base.start.reserve.(start := base.start.reserve.start + W.Before(groups, k))
    ensures s.buf.nextCommit == base.start.view.nextCommit + k
    ensures s.buf.Commit(r, len).0 == W.Committed(base.start.view, r.region, r.start + len, k + 1)
  {
    W.CommittedStep(base.start.view, base.start.reserve, r.start, k, len);
  }

  lemma CommitNext(s: Session, base: Base, groups: seq<seq<Packet>>, k: nat) returns (op: Op, s': Session)
    requires base.Ready(groups) && k < |groups| && Committed(s, base, groups, k)
    ensures op == Commit(|Payload(groups[k])|) && op.len > 0
    ensures Expressible(s, op) && Careful(s, op) && Step(s, op) == Ok(s') && Committed(s', base, groups, k + 1)
    ensures s.open.Some? && s'.all == s.all + [Slice(s.buf.nextCommit, s.open.value.start, s.open.value.start + op.len)]
    ensures s'.first == (if s.first.None? then Some(op.len) else s.first) && s'.buf.nextCommit == s.buf.nextCommit + 1
  {
    var len, at := |Payload(groups[k])|, base.start.reserve.start + W.Before(groups, k);
    var r := base.start.reserve.(start := at);
    op := Commit(len);
    NextFits(groups, k, len);
    OpenRest(s, base, groups, k);
    StaysAttached(s, base, groups, k);
    NextBuffer(s, base, groups, k, r, len);
    s' := CommitStep(s, len, r, Slice(s.buf.nextCommit, at, at + len));
    NextCommitted(s, s', base, groups, k);
  }

  lemma NextCommitted(s: Session, s': Session, base: Base, groups: seq<seq<Packet>>, k: nat)
    requires k < |groups| && Committed(s, base, groups, k)
    requires var lo, id := base.start.reserve.start, base.start.view.nextCommit;
             var at, next := lo + W.Before(groups, k), lo + W.Before(groups, k + 1);
             && s'.buf == W.Committed(base.start.view, base.start.reserve.region, next, k + 1)
             && s'.open == Some(base.start.reserve.(start := next)) && s'.bytes == s.bytes
             && s'.all == s.all + [Slice(id + k, at, next)] && s'.returned == s.returned
    ensures Committed(s', base, groups, k + 1)
  {
    NextView(base, groups, k);
  }

  lemma NextView(base: Base, groups: seq<seq<Packet>>, k: nat)
    requires k < |groups|
    ensures var lo, id := base.start.reserve.start, base.start.view.nextCommit;
            W.Views(W.MessagesUpTo(groups, k + 1, lo, id))
            == W.Views(W.MessagesUpTo(groups, k, lo, id))
               + [Slice(id + k, lo + W.Before(groups, k), lo + W.Before(groups, k + 1))]
  {
  }

  /** No commit so far was empty: ids count the slices. */
  ghost predicate OnlySlices(s: Session) {
    && s.buf.nextCommit == |s.all| && (forall i :: 0 <= i < |s.all| ==> s.all[i].id == i)
    && s.first != Some(0) && (s.first.None? ==> s.all == [])
  }

  lemma OnlySlicesNext(s: Session, s': Session, c: Slice, len: nat)
    requires OnlySlices(s) && s'.all == s.all + [c] && c.id == s.buf.nextCommit && len > 0
    requires s'.first == (if s.first.None? then Some(len) else s.first) && s'.buf.nextCommit == s.buf.nextCommit + 1
    ensures OnlySlices(s')
  {
  }

  /** All commits of a call, one after the other. */
  lemma {:induction false} AllCommits(from: Session, ops: seq<Op>, s: Session, base: Base, groups: seq<seq<Packet>>,
                                      k: nat)
    returns (ops': seq<Op>, s': Session)
    requires base.Ready(groups) && k <= |groups| && Committed(s, base, groups, k) && Leads(from, ops, s)
    ensures Leads(from, ops', s') && Committed(s', base, groups, |groups|) && (OnlySlices(s) ==> OnlySlices(s'))
    decreases |groups| - k
  {
    ops', s' := ops, s;
    if k < |groups| {
      var op, s1 := CommitNext(s, base, groups, k);
      LeadsOn(from, ops, s, op);
      if OnlySlices(s) {
        OnlySlicesNext(s, s1, s1.all[|s.all|], op.len);
      }
      ops', s' := AllCommits(from, ops + [op], s1, base, groups, k + 1);
    }
  }

  /** In every phase the slices held tile the buffer. */
  lemma PhaseTiles(s: Session) returns (n: nat, split: nat)
    requires InPhase(s)
    ensures Tiles(s.buf, s.all, n, split) && |s.bytes| == s.buf.length && (s.open.None? ==> !s.buf.reserved)
  {
    if s.first.None? {
      n, split := 0, 0;
    } else if s.first.value == 0 {
      n, split := s.freed, s.split;
    } else {
      n, split := 0, |s.all|;
    }
  }

  // ----- A call is a careful run -----

  /** Reserving and writing, before the commits. */
  lemma Opening(s: Session, st: W.Start, data: seq<bv8>, n: nat, split: nat) returns (ops: seq<Op>, s': Session)
    requires Tiles(s.buf, s.all, n, split) && |s.bytes| == s.buf.length && s.open.None? && !s.buf.reserved
    requires s.buf.Reserve(W.USIZE_MAX, false) == Ok((st.view, Some(st.reserve))) && st.bytes == s.bytes
    requires st.reserve.Valid() && |data| <= st.reserve.Len()
    ensures Attached(st.view, st.reserve) && Tiles(st.view, s.all, n, split) && st.reserve.end <= |s.bytes|
    ensures Leads(s, ops, s')
    ensures s' == s.(buf := st.view, open := Some(st.reserve), bytes := Splice(s.bytes, st.reserve.start, data))
  {
    var reserve, write := Reserve(W.USIZE_MAX, false), Write(0, data);
    ReserveAttaches(s.buf, s.all, n, split, W.USIZE_MAX, false);
    TilesOrder(s.buf, s.all, n, split);
    assert Leads(s, [], s);
    LeadsOn(s, [], s, reserve);
    var s1 := Step(s, reserve).value;
    assert s1 == s.(buf := st.view, open := Some(st.reserve));
    LeadsOn(s, [] + [reserve], s1, write);
    ops, s' := [] + [reserve] + [write], Step(s1, write).value;
  }

  lemma NothingCommitted(base: Base, groups: seq<seq<Packet>>)
    requires base.session.buf == base.start.view && base.session.open == Some(base.start.reserve)
    ensures Committed(base.session, base, groups, 0)
  {
    assert W.Views([]) == [];
    assert base.session.all + [] == base.session.all;
  }

  /** The last step gives the reservation back. */
  lemma Closing(from: Session, ops: seq<Op>, s: Session, base: Base, groups: seq<seq<Packet>>, view: Buffer,
                out: seq<W.Message>)
    returns (ops': seq<Op>, s': Session)
    requires Committed(s, base, groups, |groups|) && Leads(from, ops, s) && W.Issued(base.start, groups, view, out)
    ensures Leads(from, ops', s') && s'.buf == view.(reserved := false) && s'.open == None
    ensures s'.bytes == base.session.bytes && s'.all == base.session.all + W.Views(out)
    ensures s'.returned == base.session.returned && (OnlySlices(s) ==> OnlySlices(s'))
  {
    LeadsOn(from, ops, s, DropReservation);
    ops', s' := ops + [DropReservation], Step(s, DropReservation).value;
  }

  /** What a call with a reservation did, as a run of the session. */
  lemma WroteIsRun(s: Session, st: W.Start, r: W.Result, ps: seq<Packet>, bytes: seq<bv8>, view: Buffer,
                   out: seq<W.Message>)
    returns (ops: seq<Op>, s': Session)
    requires InPhase(s) && s.open.None? && st.bytes == s.bytes
    requires s.buf.Reserve(W.USIZE_MAX, false) == Ok((st.view, Some(st.reserve)))
    requires W.Wrote(st, r, ps, bytes, view, out) && forall k :: 0 <= k < |ps| ==> ps[k].payload != []
    ensures Leads(s, ops, s') && s'.buf == view.(reserved := false) && s'.open == None && s'.bytes == bytes
    ensures s'.all == s.all + W.Views(out) && s'.returned == s.returned && (OnlySlices(s) ==> OnlySlices(s'))
  {
    var groups := W.SentGroups(r, Group(ps));
    var n, split := PhaseTiles(s);
    W.SentFacts(st, r, ps, Group(ps));
    ops, s' := Opening(s, st, Payload(ps), n, split);
    var base := Base(s', st, n, split);
    W.TiledStart(st, s.all, n, split);
    NothingCommitted(base, groups);
    ops, s' := AllCommits(s, ops, s', base, groups, 0);
    ops, s' := Closing(s, ops, s', base, groups, view, out);
  }

  // ----- The object -----

  /** Returning a slice panics exactly on a buffer out of step, for the slice with id 1. */
  lemma ReturnPanicsIff(s: Session, i: nat)
    requires InPhase(s) && Expressible(s, DropSlice(i))
    ensures Step(s, DropSlice(i)) == Panic <==> Stuck(s) && s.all[i].id == 1
    ensures Step(s, DropSlice(i)).Ok? ==> InPhase(Step(s, DropSlice(i)).value)
  {
    PhaseStep(s, DropSlice(i));
    if Stuck(s) {
      StuckStep(s, DropSlice(i));
    }
  }

  /** A buffer from which only slices were committed is out of step from the first one on:
      it never gets a byte back, and the return of its second slice panics. */
  lemma NewIsStuck(s: Session)
    requires InPhase(s) && OnlySlices(s) && s.all != []
    ensures Stuck(s) && s.buf.aStart == 0 && s.buf.aEnd > 0 && s.buf.Available() != Ok(s.buf.length)
    ensures |s.all| > 1 && 1 !in s.returned ==> Step(s, DropSlice(1)) == Panic
  {
    TilesOrder(s.buf, s.all, 0, |s.all|);
    if |s.all| > 1 && 1 !in s.returned {
      ReturnPanicsIff(s, 1);
    }
  }

  /** `IO`: the buffer that connections write into, with the history of its use. */
  class IO {
    const buffer: BipBuffer
    ghost var session: Session

    ghost predicate Valid()
      reads this, buffer, buffer.buffer
    {
      && buffer.View() == session.buf && buffer.buffer[..] == session.bytes && buffer.buffer.Length == buffer.length
      && session.open.None? && InPhase(session)
    }

    constructor (size: nat)
      ensures Valid() && session == Start(size) && OnlySlices(session)
      ensures fresh(buffer) && fresh(buffer.buffer)
    {
      buffer := new BipBuffer(size);
      session := Start(size);
      new;
      assert buffer.buffer[..] == session.bytes;
    }

    /** `write_pending`: a careful run of the session, whatever was sent and returned
        before, that commits the views of the messages and nothing else. */
    method WritePending(send: (nat, nat) -> W.Response, release: nat -> Option<nat>, quantum: nat -> nat)
      returns (r: W.Result, out: seq<W.Message>, ghost ps: seq<Packet>, ghost room: nat, ghost ops: seq<Op>)
      requires Valid() && W.FitsRoom(send)
      modifies this`session, buffer.buffer, buffer`reserved, buffer`aEnd, buffer`bEnd, buffer`commitIdSequence
      ensures Valid() && Leads(old(session), ops, session)
      ensures session.all == old(session).all + W.Views(out) && session.returned == old(session).returned
      ensures OnlySlices(old(session)) ==> OnlySlices(session)
      ensures W.Answers(ps, send, release, quantum, room)
      ensures r.Success? ==> W.Received(buffer.buffer[..], out, |out|) == W.Payloads(ps)
    {
      ghost var n, split := PhaseTiles(session);
      ghost var split', reserve;
      ghost var bytes, view := buffer.buffer[..], buffer.View();
      r, out, ps, room, split', reserve := W.WritePending(buffer, send, release, quantum, session.all, n, split);
      W.NonEmpty(ps, send, release, quantum, room);
      ops := [];
      if reserve.Some? {
        var st := W.Start(bytes, view.(reserved := true), reserve.value);
        ops, session := WroteIsRun(session, st, r, ps, buffer.buffer[..], buffer.View().(reserved := true), out);
        LeadsKeepsPhase(old(session), ops, session);
      } else {
        assert W.Views([]) == [] && session.all + [] == session.all;
      }
    }

    /** A message that has been sent is dropped, and gives its view back. */
    method ReturnMessage(view: Slice, ghost i: nat) returns (ok: bool)
      requires Valid() && i < |session.all| && session.all[i] == view && view.id !in session.returned
      modifies this`session, buffer`aStart, buffer`aEnd, buffer`bStart, buffer`bEnd, buffer`decommitNextId,
               buffer`decommitTombstones
      ensures !ok <==> Stuck(old(session)) && view.id == 1
      ensures ok ==> Valid() && Step(old(session), DropSlice(i)) == Ok(session)
      ensures ok && OnlySlices(old(session)) ==> OnlySlices(session)
    {
      ReturnPanicsIff(session, i);
      ok := buffer.Decommit(view);
      if ok {
        session := Step(session, DropSlice(i)).value;
      }
    }
  }
}
