/** Whole runs of a bip buffer: what every step of a session keeps, and what is left
    when everything has been returned. */
module BipRun {
  import opened Basics
  import opened BipModel
  import opened BipSession

  lemma AttachedClear(b: Buffer, all: seq<Slice>, n: nat, split: nat, r: Reservation)
    requires Tiles(b, all, n, split) && Attached(b, r) && b.reserved
    ensures OpenClear(b, all, n, Some(r))
  {
    TilesOrder(b, all, n, split);
    forall i | n <= i < |all| ensures Apart(all[i], r) {
      SlicesDisjoint(b, all, n, split, i, i);
    }
  }

  // ----- What each operation does to the parts -----

  lemma WriteKeepsContents(b: Buffer, bytes: seq<bv8>, all: seq<Slice>, written: seq<seq<bv8>>,
                           n: nat, r: Reservation, at: nat, data: seq<bv8>)
    requires OpenClear(b, all, n, Some(r)) && Contents(b, bytes, all, written, n)
    requires r.start <= at && at + |data| <= r.end
    ensures r.end <= |bytes|
    ensures Contents(b, Splice(bytes, at, data), all, written, n)
  {
    var bytes' := Splice(bytes, at, data);
    forall i | n <= i < |all| ensures Holds(bytes', all[i], written[i]) {
      assert Apart(all[i], r) && Holds(bytes, all[i], written[i]);
      SpliceElsewhere(bytes, at, data, all[i].start, all[i].end);
    }
  }

  lemma {:induction false} LeadingAppend(all: seq<Slice>, c: Slice, returned: set<nat>, n: nat, g: nat, g': nat)
    requires n <= g <= |all| && (g' == g || (g == |all| && g' == g + 1 && c.id !in returned))
    ensures Leading(all + [c], returned, n, g') == Leading(all, returned, n, g)
    decreases g - n
  {
    if n < g {
      LeadingAppend(all, c, returned, n + 1, g, g');
    }
  }

  lemma {:induction false} LeadingAgrees(all: seq<Slice>, r: set<nat>, t: set<nat>, k: nat, n: nat, g: nat)
    requires k <= n <= g <= |all|
    requires forall i :: k <= i < n ==> all[i].id in r
    requires forall i :: n <= i < g ==> (all[i].id in r <==> all[i].id in t)
    ensures Leading(all, r, k, g) == Leading(all, t, n, g)
    decreases g - k
  {
    if k < n {
      LeadingAgrees(all, r, t, k + 1, n, g);
    } else if n < g && all[n].id in r {
      LeadingAgrees(all, r, t, n + 1, n + 1, g);
    }
  }

  lemma CommitContents(b: Buffer, bytes: seq<bv8>, all: seq<Slice>, written: seq<seq<bv8>>, n: nat,
                       c: Slice, b': Buffer)
    requires Contents(b, bytes, all, written, n) && b'.length == b.length
    requires c.start <= c.end <= |bytes|
    ensures Contents(b', bytes, all + [c], written + [bytes[c.start..c.end]], n)
  {
  }

  lemma CommitLedger(b: Buffer, all: seq<Slice>, returned: set<nat>, n: nat, g: nat, c: Slice, b': Buffer, g': nat)
    requires Ledger(b, all, returned, n, g) && c.id == b.nextCommit && (g' == g || (g == |all| && g' == g + 1))
    requires forall id :: id in b.tombstones ==> id < b.nextCommit
    requires b'.nextCommit == b.nextCommit + 1 && b'.tombstones == b.tombstones
    ensures Ledger(b', all + [c], returned, n, g')
  {
    LeadingAppend(all, c, returned, 0, g, g');
  }

  lemma DropLedger(b: Buffer, all: seq<Slice>, n: nat, split: nat, g: nat, returned: set<nat>, i: nat, m: nat,
                   b': Buffer)
    requires InOrder(b, all, n, split, g) && Ledger(b, all, returned, n, g)
    requires n <= i < |all| && m == Leading(all, b.tombstones.Keys + {all[i].id}, n, g)
    requires b' == Released(b.(tombstones := b.tombstones[all[i].id := all[i]]), all, n, split, m)
    ensures Ledger(b', all, returned + {all[i].id}, m, g)
  {
    LeadingAgrees(all, returned + {all[i].id}, b.tombstones.Keys + {all[i].id}, 0, n, g);
  }

  // ----- Healthy steps -----

  /** Whether a reservation is open plays no part in the order and the history. */
  lemma FlagKeeps(s: Session, b': Buffer)
    requires Healthy(s) && b' == s.buf.(reserved := b'.reserved)
    ensures InOrder(b', s.all, s.freed, s.split, s.Limit())
    ensures Ledger(b', s.all, s.returned, s.freed, s.Limit())
    ensures Contents(b', s.bytes, s.all, s.written, s.freed)
  {
  }

  lemma FlagHealthy(s: Session, b': Buffer, open: Option<Reservation>)
    requires Healthy(s) && b' == s.buf.(reserved := b'.reserved) && OpenClear(b', s.all, s.freed, open)
    ensures Healthy(s.(buf := b', open := open))
  {
    FlagKeeps(s, b');
  }

  lemma ReserveHealthy(s: Session, request: nat, strict: bool)
    requires Healthy(s) && s.open.None?
    ensures Step(s, Reserve(request, strict)).Ok? && Healthy(Step(s, Reserve(request, strict)).value)
  {
    ReserveAttaches(s.buf, s.all, s.freed, s.split, request, strict);
    var (b', r) := s.buf.Reserve(request, strict).value;
    if r.Some? {
      FlagKeeps(s, b');
      AttachedClear(b', s.all, s.freed, s.split, r.value);
    }
    FlagHealthy(s, b', r);
  }

  lemma CancelHealthy(s: Session)
    requires Healthy(s)
    ensures Step(s, DropReservation).Ok? && Healthy(Step(s, DropReservation).value)
  {
    FlagHealthy(s, s.buf.(reserved := false), None);
  }

  lemma WriteHealthy(s: Session, offset: nat, data: seq<bv8>)
    requires Healthy(s) && Expressible(s, Write(offset, data))
    ensures Step(s, Write(offset, data)).Ok? && Healthy(Step(s, Write(offset, data)).value)
  {
    var bytes := WrittenBytes(s, offset, data);
    BytesHealthy(s, bytes);
    assert Step(s, Write(offset, data)) == Ok(s.(bytes := bytes));
  }

  lemma WrittenBytes(s: Session, offset: nat, data: seq<bv8>) returns (bytes: seq<bv8>)
    requires Healthy(s) && Expressible(s, Write(offset, data))
    ensures Contents(s.buf, bytes, s.all, s.written, s.freed)
    ensures s.open.value.end <= |s.bytes| && bytes == Splice(s.bytes, s.open.value.start + offset, data)
  {
    var r := s.open.value;
    WriteKeepsContents(s.buf, s.bytes, s.all, s.written, s.freed, r, r.start + offset, data);
    bytes := Splice(s.bytes, r.start + offset, data);
  }

  lemma BytesHealthy(s: Session, bytes: seq<bv8>)
    requires Healthy(s) && Contents(s.buf, bytes, s.all, s.written, s.freed)
    ensures Healthy(s.(bytes := bytes))
  {
  }

  /** The order and the reservation after a non-empty commit. */
  lemma CommitOrder(s: Session, len: nat, b': Buffer, c: Slice)
    requires Healthy(s) && Expressible(s, Commit(len)) && Careful(s, Commit(len)) && len > 0
    requires (b', Some(c)) == s.buf.Commit(s.open.value, len)
    ensures InOrder(b', s.all + [c], s.freed, SplitAfterCommit(s.all, s.split, s.open.value.region),
                    InStepAfter(s.buf, s.freed, s.Limit()))
    ensures c == Slice(s.buf.nextCommit, s.open.value.start, s.open.value.start + len)
  {
    CommitInOrder(s.buf, s.all, s.freed, s.split, s.Limit(), s.open.value, len);
  }

  lemma CommitClear(s: Session, len: nat, b': Buffer, c: Slice)
    requires Healthy(s) && Expressible(s, Commit(len)) && Careful(s, Commit(len)) && len > 0
    requires (b', Some(c)) == s.buf.Commit(s.open.value, len)
    ensures s.open.value.end <= s.buf.length
    ensures OpenClear(b', s.all + [c], s.freed, Some(s.open.value.(start := s.open.value.start + len)))
  {
    var r, split' := s.open.value, SplitAfterCommit(s.all, s.split, s.open.value.region);
    CommitExtends(s.buf, s.all, s.freed, s.split, r, len);
    AttachedClear(b', s.all + [c], s.freed, split', r.(start := r.start + len));
  }

  lemma CommitHistory(s: Session, c: Slice, b': Buffer, g': nat)
    requires Healthy(s) && c.id == s.buf.nextCommit && c.start <= c.end <= s.buf.length
    requires b'.nextCommit == s.buf.nextCommit + 1 && b'.tombstones == s.buf.tombstones && b'.length == s.buf.length
    requires g' == InStepAfter(s.buf, s.freed, s.Limit())
    ensures c.end <= |s.bytes|
    ensures Ledger(b', s.all + [c], s.returned, s.freed, g')
    ensures Contents(b', s.bytes, s.all + [c], s.written + [s.bytes[c.start..c.end]], s.freed)
  {
    CommitLedger(s.buf, s.all, s.returned, s.freed, s.Limit(), c, b', g');
    CommitContents(s.buf, s.bytes, s.all, s.written, s.freed, c, b');
  }

  lemma CommitHealthy(s: Session, len: nat)
    requires Healthy(s) && Expressible(s, Commit(len)) && Careful(s, Commit(len)) && len > 0
    ensures Step(s, Commit(len)).Ok? && Healthy(Step(s, Commit(len)).value)
  {
    var (b', c) := s.buf.Commit(s.open.value, len);
    var g' := InStepAfter(s.buf, s.freed, s.Limit());
    CommitOrder(s, len, b', c.value);
    CommitClear(s, len, b', c.value);
    CommitHistory(s, c.value, b', g');
    CommitAssembled(s, len, b', c.value, g');
  }

  lemma CommitAssembled(s: Session, len: nat, b': Buffer, c: Slice, g': nat)
    requires s.first.Some? && InGap(s) && s.open.Some? && s.open.value.Valid() && 0 < len <= s.open.value.Len()
    requires s.open.value.end <= |s.bytes| && (b', Some(c)) == s.buf.Commit(s.open.value, len) && c.end <= |s.bytes|
    requires g' == InStepAfter(s.buf, s.freed, s.Limit())
    requires InOrder(b', s.all + [c], s.freed, SplitAfterCommit(s.all, s.split, s.open.value.region), g')
    requires OpenClear(b', s.all + [c], s.freed, Some(s.open.value.(start := s.open.value.start + len)))
    requires Ledger(b', s.all + [c], s.returned, s.freed, g')
    requires Contents(b', s.bytes, s.all + [c], s.written + [s.bytes[c.start..c.end]], s.freed)
    ensures Step(s, Commit(len)).Ok? && Healthy(Step(s, Commit(len)).value)
  {
    assert Step(s, Commit(len)).value.Limit() == g';
  }

  lemma EmptyCommitHealthy(s: Session)
    requires Healthy(s) && Expressible(s, Commit(0)) && Careful(s, Commit(0))
    ensures Step(s, Commit(0)).Ok? && Healthy(Step(s, Commit(0)).value)
  {
    EmptyCommit(s.buf, s.all, s.freed, s.split, s.Limit(), s.open.value);
  }

  lemma DropOrder(s: Session, i: nat, m: nat, b': Buffer)
    requires Healthy(s) && Expressible(s, DropSlice(i))
    requires m == Leading(s.all, s.returned + {s.all[i].id}, 0, s.Limit())
    requires s.freed <= m <= |s.all|
    requires b' == Released(s.buf.(tombstones := s.buf.tombstones[s.all[i].id := s.all[i]]), s.all, s.freed, s.split, m)
    ensures s.buf.Decommit(s.all[i]) == Ok(b')
    ensures InOrder(b', s.all, m, SplitAfterRelease(s.all, s.split, m), s.Limit())
    ensures Ledger(b', s.all, s.returned + {s.all[i].id}, m, s.Limit())
  {
    var g := s.Limit();
    NotReclaimed(s, i);
    LeadingAgrees(s.all, s.returned + {s.all[i].id}, s.buf.tombstones.Keys + {s.all[i].id}, 0, s.freed, g);
    DecommitExact(s.buf, s.all, s.freed, s.split, g, i);
    ReleasedInOrder(s.buf, s.all, s.freed, s.split, g, i, m, b');
    DropLedger(s.buf, s.all, s.freed, s.split, g, s.returned, i, m, b');
  }

  /** A slice not yet returned has not been reclaimed. */
  lemma NotReclaimed(s: Session, i: nat)
    requires Healthy(s) && Expressible(s, DropSlice(i))
    ensures s.freed <= i && s.all[i].id !in s.buf.tombstones
    ensures s.freed <= Leading(s.all, s.returned + {s.all[i].id}, 0, s.Limit())
  {
    LeadingGrows(s.all, s.returned, s.returned + {s.all[i].id}, 0, s.Limit());
  }

  lemma {:induction false} LeadingGrows(all: seq<Slice>, r: set<nat>, t: set<nat>, n: nat, g: nat)
    requires n <= g <= |all| && r <= t
    ensures Leading(all, r, n, g) <= Leading(all, t, n, g)
    decreases g - n
  {
    if n < g && all[n].id in r {
      LeadingGrows(all, r, t, n + 1, g);
    }
  }

  lemma Later(b: Buffer, bytes: seq<bv8>, all: seq<Slice>, written: seq<seq<bv8>>, n: nat, m: nat, b': Buffer,
              open: Option<Reservation>)
    requires Contents(b, bytes, all, written, n) && OpenClear(b, all, n, open)
    requires n <= m && b'.length == b.length && b'.reserved == b.reserved
    ensures Contents(b', bytes, all, written, m) && OpenClear(b', all, m, open)
  {
  }

  lemma DropHealthy(s: Session, i: nat)
    requires Healthy(s) && Expressible(s, DropSlice(i))
    ensures Step(s, DropSlice(i)).Ok? && Healthy(Step(s, DropSlice(i)).value)
  {
    var c := s.all[i];
    NotReclaimed(s, i);
    var m := Leading(s.all, s.returned + {c.id}, 0, s.Limit());
    var b' := Released(s.buf.(tombstones := s.buf.tombstones[c.id := c]), s.all, s.freed, s.split, m);
    DropOrder(s, i, m, b');
    Later(s.buf, s.bytes, s.all, s.written, s.freed, m, b', s.open);
    DropAssembled(s, i, m, b');
  }

  lemma DropAssembled(s: Session, i: nat, m: nat, b': Buffer)
    requires s.first.Some? && InGap(s) && i < |s.all| && s.all[i].id !in s.returned && s.freed <= m <= |s.all|
    requires m == Leading(s.all, s.returned + {s.all[i].id}, 0, s.Limit())
    requires b' == Released(s.buf.(tombstones := s.buf.tombstones[s.all[i].id := s.all[i]]), s.all, s.freed, s.split, m)
    requires s.buf.Decommit(s.all[i]) == Ok(b')
    requires InOrder(b', s.all, m, SplitAfterRelease(s.all, s.split, m), s.Limit())
    requires Ledger(b', s.all, s.returned + {s.all[i].id}, m, s.Limit())
    requires Contents(b', s.bytes, s.all, s.written, m) && OpenClear(b', s.all, m, s.open)
    ensures Step(s, DropSlice(i)).Ok? && Healthy(Step(s, DropSlice(i)).value)
  {
  }

  lemma ReservationHealthy(s: Session, op: Op)
    requires Healthy(s) && Expressible(s, op) && (op.Reserve? || op.Write? || op.DropReservation?)
    ensures Step(s, op).Ok? && Healthy(Step(s, op).value)
  {
    match op
    case Reserve(request, strict) => ReserveHealthy(s, request, strict);
    case Write(offset, data) => WriteHealthy(s, offset, data);
    case DropReservation => CancelHealthy(s);
  }

  lemma SliceHealthy(s: Session, op: Op)
    requires Healthy(s) && Expressible(s, op) && Careful(s, op) && (op.Commit? || op.DropSlice?)
    ensures Step(s, op).Ok? && Healthy(Step(s, op).value)
  {
    if op.DropSlice? {
      DropHealthy(s, op.index);
    } else if op.len > 0 {
      CommitHealthy(s, op.len);
    } else {
      EmptyCommitHealthy(s);
    }
  }

  /** Every careful step of a healthy session succeeds and keeps it healthy: the
      slices from the oldest unreclaimed one on tile the two regions, their bytes
      stay as committed, and both panics of the release are unreachable. */
  lemma HealthyStep(s: Session, op: Op)
    requires Healthy(s) && Expressible(s, op) && Careful(s, op)
    ensures Step(s, op).Ok? && Healthy(Step(s, op).value)
  {
    if op.Commit? || op.DropSlice? {
      SliceHealthy(s, op);
    } else {
      ReservationHealthy(s, op);
    }
  }

  // ----- The first commit decides -----

  /** Before the first commit every step keeps the session fresh; an empty first
      commit makes it healthy, any other leaves it stuck. */
  lemma FreshStep(s: Session, op: Op)
    requires Fresh(s) && Expressible(s, op)
    ensures Step(s, op).Ok?
    ensures var s' := Step(s, op).value;
            if op.Commit? then s'.first == Some(op.len) && (if op.len == 0 then Healthy(s') else Stuck(s'))
            else s'.first.None? && Fresh(s')
  {
    match op
    case Reserve(request, strict) => ReserveAttaches(s.buf, s.all, 0, 0, request, strict);
    case Write(offset, data) =>
      AttachedClear(s.buf, s.all, 0, 0, s.open.value);
      WriteKeepsContents(s.buf, s.bytes, s.all, s.written, 0, s.open.value, s.open.value.start + offset, data);
    case Commit(len) =>
      if len > 0 {
        CommitExtends(s.buf, s.all, 0, 0, s.open.value, len);
      }
    case DropReservation =>
    case DropSlice(i) =>
  }

  lemma StuckCommit(s: Session, len: nat)
    requires Stuck(s) && Expressible(s, Commit(len))
    ensures Step(s, Commit(len)).Ok? && Stuck(Step(s, Commit(len)).value)
    ensures s.buf.aEnd <= Step(s, Commit(len)).value.buf.aEnd
  {
    TilesOrder(s.buf, s.all, 0, |s.all|);
    var r := s.open.value;
    if len > 0 {
      var (b', c) := s.buf.Commit(r, len);
      CommitExtends(s.buf, s.all, 0, |s.all|, r, len);
      CommitContents(s.buf, s.bytes, s.all, s.written, 0, c.value, b');
    }
  }

  lemma StuckDrop(s: Session, i: nat)
    requires Stuck(s) && Expressible(s, DropSlice(i))
    ensures Step(s, DropSlice(i)).Panic? <==> s.all[i].id == 1
    ensures Step(s, DropSlice(i)).Ok? ==> Stuck(Step(s, DropSlice(i)).value)
    ensures Step(s, DropSlice(i)).Ok? ==> s.buf.aEnd == Step(s, DropSlice(i)).value.buf.aEnd
  {
    SlicesDisjoint(s.buf, s.all, 0, |s.all|, i, i);
    ChainBounds(s.all, 0, |s.all|, s.buf.aStart, s.buf.aEnd, i, i);
  }

  lemma StuckReserve(s: Session, request: nat, strict: bool)
    requires Stuck(s) && s.open.None?
    ensures Step(s, Reserve(request, strict)).Ok? && Stuck(Step(s, Reserve(request, strict)).value)
    ensures s.buf.aEnd == Step(s, Reserve(request, strict)).value.buf.aEnd
  {
    ReserveAttaches(s.buf, s.all, 0, |s.all|, request, strict);
  }

  lemma StuckWrite(s: Session, offset: nat, data: seq<bv8>)
    requires Stuck(s) && Expressible(s, Write(offset, data))
    ensures Step(s, Write(offset, data)).Ok? && Stuck(Step(s, Write(offset, data)).value)
    ensures s.buf == Step(s, Write(offset, data)).value.buf
  {
    var r := s.open.value;
    AttachedClear(s.buf, s.all, 0, |s.all|, r);
    WriteKeepsContents(s.buf, s.bytes, s.all, s.written, 0, r, r.start + offset, data);
  }

  /** Once stuck, always stuck: region A never loses a byte, whatever is returned,
      and returning the slice with id 1 is the only step that panics. */
  lemma StuckStep(s: Session, op: Op)
    requires Stuck(s) && Expressible(s, op)
    ensures Step(s, op).Panic? <==> op.DropSlice? && s.all[op.index].id == 1
    ensures Step(s, op).Ok? ==> Stuck(Step(s, op).value)
    ensures Step(s, op).Ok? ==> s.buf.aEnd <= Step(s, op).value.buf.aEnd
  {
    match op
    case Reserve(request, strict) => StuckReserve(s, request, strict);
    case Write(offset, data) => StuckWrite(s, offset, data);
    case Commit(len) => StuckCommit(s, len);
    case DropReservation =>
    case DropSlice(i) => StuckDrop(s, i);
  }

  /** In every careful run the first commit decides the phase, and only a stuck
      session panics. */
  lemma {:induction false} RunPhase(length: nat, ops: seq<Op>)
    requires CarefulRun(length, ops)
    ensures match Execute(length, ops)
            case Ok(s) => InPhase(s)
            case Panic => exists k, s :: 0 <= k < |ops| && Execute(length, ops[..k]) == Ok(s) && Stuck(s)
  {
    if ops != [] {
      var n := |ops| - 1;
      RunPhase(length, ops[..n]);
      match Execute(length, ops[..n])
      case Panic =>
        var k, s :| 0 <= k < n && Execute(length, ops[..n][..k]) == Ok(s) && Stuck(s);
        assert ops[..n][..k] == ops[..k];
      case Ok(s) =>
        PhaseStep(s, ops[n]);
    }
  }

  lemma FirstStays(s: Session, op: Op)
    requires s.first.Some? && Step(s, op).Ok?
    ensures Step(s, op).value.first == s.first
    ensures s.gap.Some? ==> Step(s, op).value.gap == s.gap
  {
  }

  lemma PhaseStep(s: Session, op: Op)
    requires InPhase(s) && Expressible(s, op) && Careful(s, op)
    ensures Step(s, op).Ok? ==> InPhase(Step(s, op).value)
    ensures Step(s, op).Panic? ==> Stuck(s)
  {
    if s.first.None? {
      FreshStep(s, op);
    } else {
      if s.first.value == 0 {
        HealthyStep(s, op);
      } else {
        StuckStep(s, op);
      }
      if Step(s, op).Ok? {
        FirstStays(s, op);
      }
    }
  }

  /** A careful run whose slices have all been returned has its whole buffer back exactly
      if its first commit was empty and no slice came after another empty commit; if the
      first was not empty, it does not get one byte of it back. */
  lemma AllDropped(length: nat, ops: seq<Op>, s: Session)
    requires CarefulRun(length, ops) && Execute(length, ops) == Ok(s) && s.all != []
    requires forall i :: 0 <= i < |s.all| ==> s.all[i].id in s.returned
    ensures s.buf.Available() == Ok(s.buf.length) <==> s.first == Some(0) && NoGap(s)
    ensures s.first != Some(0) ==> s.buf.aStart == 0 && s.buf.aEnd > 0
  {
    RunPhase(length, ops);
    if s.first == Some(0) {
      AllReturned(s.buf, s.all, s.freed, s.split, s.Limit());
    } else {
      assert Stuck(s);
      TilesOrder(s.buf, s.all, 0, |s.all|);
    }
  }

  /** In every careful run, slices committed after an empty commit, the very first aside,
      are held for ever, returned or not: they stay in the tiling, and the buffer is
      never whole again. */
  lemma LateSlicesStay(length: nat, ops: seq<Op>, s: Session)
    requires CarefulRun(length, ops) && Execute(length, ops) == Ok(s) && s.first == Some(0) && !NoGap(s)
    ensures s.freed <= s.Limit() < |s.all| && Tiles(s.buf, s.all, s.freed, s.split)
    ensures s.buf.Available() != Ok(s.buf.length)
  {
    RunPhase(length, ops);
    TilesOrder(s.buf, s.all, s.freed, s.split);
  }

  /** As constructed, the buffer panics when two slices are committed and then
      returned, in either order. */
  lemma SecondReturnPanics(length: nat, k: nat, j: nat)
    requires k > 0 && j > 0 && k + j <= length
    ensures var s := Step(Start(length), Reserve(k + j, true)).value;
            var s1 := Step(s, Commit(k)).value;
            var s2 := Step(s1, Commit(j)).value;
            && Step(s2, DropSlice(1)) == Panic
            && Step(s2, DropSlice(0)).Ok? && Step(Step(s2, DropSlice(0)).value, DropSlice(1)) == Panic
  {
    assert Fresh(Start(length));
    FreshStep(Start(length), Reserve(k + j, true));
    var s := Step(Start(length), Reserve(k + j, true)).value;
    FreshStep(s, Commit(k));
    var s1 := Step(s, Commit(k)).value;
    StuckCommit(s1, j);
    var s2 := Step(s1, Commit(j)).value;
    StuckDrop(s2, 1);
    StuckDrop(s2, 0);
    StuckDrop(Step(s2, DropSlice(0)).value, 1);
  }

  // ----- Runs that show the failures -----

  /** One more step of a run. */
  lemma RunExtends(length: nat, ops: seq<Op>, s: Session, op: Op)
    requires Execute(length, ops) == Ok(s)
    ensures Execute(length, ops + [op]) == Step(s, op)
    ensures CarefulRun(length, ops) && Expressible(s, op) && Careful(s, op) ==> CarefulRun(length, ops + [op])
  {
    assert (ops + [op])[..|ops|] == ops;
  }

  /** A reservation from a new buffer, with an empty first commit and one slice of `k`. */
  ghost predicate OneSlice(s: Session, length: nat, k: nat, j: nat) {
    && s.buf == Buffer(length, 0, k, 0, 0, true, 2, 1, map[])
    && s.open == Some(Reservation(k, k + j, A)) && |s.bytes| == length
    && s.all == [Slice(1, 0, k)] && s.returned == {} && s.first == Some(0) && s.gap == None
  }

  lemma StartsWithSlice(length: nat, k: nat, j: nat) returns (s: Session)
    requires k > 0 && j > 0 && k + j <= length
    ensures var ops := [Reserve(k + j, true), Commit(0)] + [Commit(k)];
            CarefulRun(length, ops) && Execute(length, ops) == Ok(s) && OneSlice(s, length, k, j)
  {
    s := Start(length);
    assert Execute(length, []) == Ok(s);
    RunExtends(length, [], s, Reserve(k + j, true));
    s := Step(s, Reserve(k + j, true)).value;
    assert [] + [Reserve(k + j, true)] == [Reserve(k + j, true)];
    RunExtends(length, [Reserve(k + j, true)], s, Commit(0));
    s := Step(s, Commit(0)).value;
    assert [Reserve(k + j, true)] + [Commit(0)] == [Reserve(k + j, true), Commit(0)];
    RunExtends(length, [Reserve(k + j, true), Commit(0)], s, Commit(k));
    s := Step(s, Commit(k)).value;
  }

  /** A run with a gap: a slice is committed after a second empty commit. */
  lemma GapRun(length: nat, k: nat, j: nat) returns (ops: seq<Op>, s: Session)
    requires k > 0 && j > 0 && k + j <= length
    ensures CarefulRun(length, ops) && Execute(length, ops) == Ok(s) && s.first == Some(0) && !NoGap(s)
    ensures |s.all| == 2 && s.returned == {} && s.all[0].id == 1 && s.all[1].id == 3
  {
    ops := [Reserve(k + j, true), Commit(0)] + [Commit(k)];
    s := StartsWithSlice(length, k, j);
    RunExtends(length, ops, s, Commit(0));
    ops, s := ops + [Commit(0)], Step(s, Commit(0)).value;
    RunExtends(length, ops, s, Commit(j));
    ops, s := ops + [Commit(j)], Step(s, Commit(j)).value;
  }

  /** Then everything can be returned without a panic, and the buffer is not whole. */
  lemma GapLeaks(length: nat, k: nat, j: nat) returns (ops: seq<Op>, s: Session)
    requires k > 0 && j > 0 && k + j <= length
    ensures CarefulRun(length, ops) && Execute(length, ops) == Ok(s)
    ensures forall i :: 0 <= i < |s.all| ==> s.all[i].id in s.returned
    ensures s.buf.Available() != Ok(s.buf.length)
  {
    ops, s := GapRun(length, k, j);
    ops, s := ReturnSlice(length, ops, s, 0);
    ops, s := ReturnSlice(length, ops, s, 1);
    LateSlicesStay(length, ops, s);
  }

  lemma ReturnSlice(length: nat, ops: seq<Op>, s: Session, i: nat) returns (ops': seq<Op>, s': Session)
    requires CarefulRun(length, ops) && Execute(length, ops) == Ok(s) && s.first == Some(0)
    requires i < |s.all| && s.all[i].id !in s.returned
    ensures CarefulRun(length, ops') && Execute(length, ops') == Ok(s')
    ensures s'.all == s.all && s'.returned == s.returned + {s.all[i].id} && s'.first == s.first && s'.gap == s.gap
  {
    RunPhase(length, ops);
    DropHealthy(s, i);
    RunExtends(length, ops, s, DropSlice(i));
    ops', s' := ops + [DropSlice(i)], Step(s, DropSlice(i)).value;
  }

  /** A run that empties region A under its reservation, commits and returns: panic. */
  lemma DetachedRunPanics(length: nat, k: nat, j: nat)
    requires k > 0 && j > 0 && k + j <= length
    ensures var ops := [Reserve(k + j, true), Commit(0)] + [Commit(k)] + [DropSlice(0)] + [Commit(j)];
            && Execute(length, ops).Ok? && Expressible(Execute(length, ops).value, DropSlice(1))
            && Execute(length, ops + [DropSlice(1)]) == Panic
  {
    var ops := [Reserve(k + j, true), Commit(0)] + [Commit(k)];
    var s := StartsWithSlice(length, k, j);
    RunExtends(length, ops, s, DropSlice(0));
    var s1 := Detaches(s, length, k, j);
    ops := ops + [DropSlice(0)];
    RunExtends(length, ops, s1, Commit(j));
    var s2 := CommitsDetached(s1, length, k, j);
    ops := ops + [Commit(j)];
    RunExtends(length, ops, s2, DropSlice(1));
  }

  lemma Detaches(s: Session, length: nat, k: nat, j: nat) returns (s': Session)
    requires k > 0 && OneSlice(s, length, k, j)
    ensures Step(s, DropSlice(0)) == Ok(s')
    ensures s'.buf == Buffer(length, 0, 0, 0, 0, true, 2, 2, map[]) && s'.open == s.open && s'.bytes == s.bytes
    ensures s'.all == s.all && s'.returned == {1}
  {
    s' := Step(s, DropSlice(0)).value;
  }

  lemma CommitsDetached(s: Session, length: nat, k: nat, j: nat) returns (s': Session)
    requires k > 0 && j > 0 && k + j <= length == |s.bytes| && s.open == Some(Reservation(k, k + j, A))
    requires s.buf == Buffer(length, 0, 0, 0, 0, true, 2, 2, map[]) && |s.all| == 1 && s.returned == {1}
    ensures Step(s, Commit(j)) == Ok(s') && Expressible(s', DropSlice(1)) && Step(s', DropSlice(1)) == Panic
  {
    s' := Step(s, Commit(j)).value;
    assert s'.all[1] == Slice(2, k, k + j);
    assert s'.buf.Reclaim(s'.all[1]) == Panic;
  }
}
