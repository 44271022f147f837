/** A bip buffer in use: a reservation is opened, written through, committed piece by
    piece or dropped, and committed slices are returned in any order. The session keeps
    the history that the theorems speak of. */
module BipSession {
  import opened Basics
  import opened BipModel

  datatype Op =
    | Reserve(request: nat, strict: bool)
    | Write(offset: nat, data: seq<bv8>)
    | Commit(len: nat)
    | DropReservation
    | DropSlice(index: nat)

  /** `all` are the non-empty slices committed so far, `written[i]` the bytes of
      `all[i]` when it was committed, `returned` the ids given back, `split` the first
      slice beyond region A, `first` the length of the very first commit, and `gap` the
      number of slices before the first empty commit after that one. `freed` counts the
      slices before the gap and before the oldest one not returned. */
  datatype Session = Session(buf: Buffer, open: Option<Reservation>, bytes: seq<bv8>,
                             all: seq<Slice>, written: seq<seq<bv8>>, returned: set<nat>,
                             freed: nat, split: nat, first: Option<nat>, gap: Option<nat>)
  {
    /** The slices whose ids are in step. */
    function Limit(): nat {
      if gap.Some? && gap.value < |all| then gap.value else |all|
    }
  }

  function Start(length: nat): Session {
    Session(New(length), None, seq(length, _ => 0), [], [], {}, 0, 0, None, None)
  }

  ghost function Step(s: Session, op: Op): Outcome<Session> {
    match op
    case Reserve(request, strict) =>
      (match s.buf.Reserve(request, strict)
       case Panic => Panic
       case Ok((b, r)) => Ok(s.(buf := b, open := r)))
    case Write(offset, data) =>
      if s.open.Some? && s.open.value.Valid() && offset + |data| <= s.open.value.Len() &&
         s.open.value.end <= |s.bytes|
      then Ok(s.(bytes := Splice(s.bytes, s.open.value.start + offset, data)))
      else Panic
    case Commit(len) =>
      if s.open.None? || !s.open.value.Valid() || s.open.value.end > |s.bytes| then Panic
      else
        var (b, c) := s.buf.Commit(s.open.value, len);
        if c.None? then Ok(s)
        else
          var s' := s.(buf := b, open := Some(s.open.value.(start := s.open.value.start + len)),
                       first := if s.first.None? then Some(len) else s.first,
                       gap := if len == 0 && s.first.Some? && s.gap.None? then Some(|s.all|) else s.gap);
          if len == 0 then Ok(s')
          else Ok(s'.(all := s.all + [c.value], written := s.written + [s.bytes[c.value.start..c.value.end]],
                      split := SplitAfterCommit(s.all, s.split, s.open.value.region)))
    case DropReservation => Ok(s.(buf := s.buf.(reserved := false), open := None))
    case DropSlice(i) =>
      if i >= |s.all| || s.all[i].id in s.returned then Panic
      else
        (match s.buf.Decommit(s.all[i])
         case Panic => Panic
         case Ok(b) =>
           var returned := s.returned + {s.all[i].id};
           var freed := Leading(s.all, returned, 0, s.Limit());
           Ok(s.(buf := b, returned := returned, freed := freed,
                 split := SplitAfterRelease(s.all, s.split, freed))))
  }

  /** What the caller may express: commits and writes go through the open
      reservation and stay inside it, only one is open at a time, and a slice is
      returned once. */
  predicate Expressible(s: Session, op: Op) {
    match op
    case Reserve(_, _) => s.open.None?
    case Write(offset, data) => s.open.Some? && s.open.value.Valid() && offset + |data| <= s.open.value.Len()
    case Commit(len) => s.open.Some? && s.open.value.Valid() && len <= s.open.value.Len()
    case DropReservation => true
    case DropSlice(i) => i < |s.all| && s.all[i].id !in s.returned
  }

  /** A commit goes through a reservation that still continues its region. One that does
      not, because region A was emptied since it was made, may be written through and
      dropped, but not committed. */
  ghost predicate Careful(s: Session, op: Op) {
    match op
    case Commit(len) =>
      s.open.Some? && if len > 0 then Attached(s.buf, s.open.value) else Continues(s.buf, s.open.value)
    case _ => true
  }

  // ----- The three phases of a run -----

  ghost predicate OpenAttached(b: Buffer, open: Option<Reservation>) {
    match open
    case None => !b.reserved
    case Some(r) => b.reserved && Attached(b, r)
  }

  /** The reservation lies outside the slices from `n` on. */
  ghost predicate OpenClear(b: Buffer, all: seq<Slice>, n: nat, open: Option<Reservation>) {
    match open
    case None => !b.reserved
    case Some(r) => b.reserved && r.Valid() && r.end <= b.length && forall i :: n <= i < |all| ==> Apart(all[i], r)
  }

  ghost predicate Apart(c: Slice, r: Reservation) {
    c.end <= r.start || r.end <= c.start
  }

  /** Every slice from `n` on still has the bytes it was committed with. */
  ghost predicate Contents(b: Buffer, bytes: seq<bv8>, all: seq<Slice>, written: seq<seq<bv8>>, n: nat) {
    && |bytes| == b.length && |written| == |all|
    && forall i :: n <= i < |all| ==> Holds(bytes, all[i], written[i])
  }

  ghost predicate Holds(bytes: seq<bv8>, c: Slice, data: seq<bv8>) {
    c.start <= c.end <= |bytes| && bytes[c.start..c.end] == data
  }

  /** The slices before `n` are those in step and returned up to the oldest one that is
      not; the other returned slices have tombstones. */
  ghost predicate Ledger(b: Buffer, all: seq<Slice>, returned: set<nat>, n: nat, g: nat) {
    && n <= g <= |all| && n == Leading(all, returned, 0, g)
    && (forall id :: id in returned ==> id < b.nextCommit)
    && (forall i :: n <= i < |all| ==> (all[i].id in returned <==> all[i].id in b.tombstones))
  }

  /** No commit yet. */
  ghost predicate Fresh(s: Session) {
    match s.first
    case Some(_) => false
    case None =>
      && s.all == [] && s.written == [] && s.returned == {} && s.freed == 0 && s.split == 0
      && s.buf == New(s.buf.length).(reserved := s.open.Some?)
      && |s.bytes| == s.buf.length && s.gap == None
      && OpenAttached(s.buf, s.open)
  }

  /** In order: the slices not yet reclaimable tile the two regions, no memory before
      them is held, ids match up to the gap, and every slice still has its bytes. */
  ghost predicate Healthy(s: Session) {
    match s.first
    case None => false
    case Some(_) =>
      && InOrder(s.buf, s.all, s.freed, s.split, s.Limit())
      && InGap(s)
      && Ledger(s.buf, s.all, s.returned, s.freed, s.Limit())
      && OpenClear(s.buf, s.all, s.freed, s.open)
      && Contents(s.buf, s.bytes, s.all, s.written, s.freed)
  }

  /** The next id to be issued is the one at which releases stop, exactly if there is
      no gap. */
  ghost predicate InGap(s: Session) {
    && (s.gap.None? <==> s.buf.nextCommit == Hole(s.buf, s.freed, s.Limit()))
    && (s.gap.Some? ==> s.gap.value <= |s.all|)
  }

  /** Out of step: the first slice got id 0 while the first release expected is 1. */
  ghost predicate Stuck(s: Session) {
    match s.first
    case None => false
    case Some(_) =>
      && s.buf.nextRelease == 1 && s.buf.aStart == 0 && s.buf.bEnd == 0
      && s.all != [] && s.all[0].id == 0 && s.buf.nextCommit > 0
      && Tiles(s.buf, s.all, 0, |s.all|)
      && OpenAttached(s.buf, s.open)
      && Contents(s.buf, s.bytes, s.all, s.written, 0)
  }

  // ----- Runs -----

  ghost function Execute(length: nat, ops: seq<Op>): Outcome<Session> {
    if ops == [] then Ok(Start(length))
    else
      match Execute(length, ops[..|ops| - 1])
      case Panic => Panic
      case Ok(s) => Step(s, ops[|ops| - 1])
  }

  /** Every step of the run is expressible and careful. */
  ghost predicate CarefulRun(length: nat, ops: seq<Op>) {
    ops == [] ||
    (&& CarefulRun(length, ops[..|ops| - 1])
     && match Execute(length, ops[..|ops| - 1])
        case Panic => true
        case Ok(s) => Expressible(s, ops[|ops| - 1]) && Careful(s, ops[|ops| - 1]))
  }

  /** The phase is decided by the first commit: before it the session is fresh;
      after an empty one it is healthy; after any other one it is stuck. */
  ghost predicate InPhase(s: Session) {
    match s.first
    case None => Fresh(s)
    case Some(len) => if len == 0 then Healthy(s) else Stuck(s)
  }

  /** No slice was committed after an empty commit, the very first commit aside. */
  predicate NoGap(s: Session) {
    s.Limit() == |s.all|
  }
}
