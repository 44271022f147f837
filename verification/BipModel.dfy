/** The bip buffer as a value: two contiguous regions, one open reservation, and
    release in commit order with tombstones for slices returned early.

    A subtraction below zero panics, as the other panics do. */
module BipModel {
  import opened Basics

  datatype Outcome<T> = Panic | Ok(value: T)

  datatype Region = A | B

  datatype Reservation = Reservation(start: nat, end: nat, region: Region)
  {
    predicate Valid() { start <= end }
    function Len(): nat requires Valid() { end - start }
  }

  datatype Slice = Slice(id: nat, start: nat, end: nat)
  {
    function Len(): nat { if start < end then end - start else 0 }
  }

  /** Tombstones: the min-heap of slices returned early, by id. */
  datatype Buffer = Buffer(length: nat, aStart: nat, aEnd: nat, bStart: nat, bEnd: nat,
                           reserved: bool, nextCommit: nat, nextRelease: nat, tombstones: map<nat, Slice>)
  {
    /** Bytes available to the next reservation. */
    function Available(): Outcome<nat> {
      if bEnd < bStart then Panic
      else if bEnd - bStart > 0 then
        if aStart < bEnd then Panic else Ok(aStart - bEnd)
      else if length < aEnd then Panic
      else Ok(Max(aStart, length - aEnd))
    }

    /** Where a reservation of `request` bytes would start, and in which region. */
    function Place(request: nat): (nat, Region)
      requires Available().Ok?
    {
      if bEnd - bStart > 0 then (bEnd, B)
      else if request <= length - aEnd then (aEnd, A)
      else if length - aEnd >= aStart then (aEnd, A)
      else (0, B)
    }

    function Reserve(request: nat, strict: bool): Outcome<(Buffer, Option<Reservation>)> {
      if reserved || Available().Panic? then Panic
      else
        var available := Available().value;
        var (start, region) := Place(request);
        if available == 0 || (strict && available < request) then Ok((this, None))
        else
          Ok((this.(reserved := true), Some(Reservation(start, start + Min(available, request), region))))
    }

    /** `commit` on a reservation; the caller's reservation then shrinks from the front. */
    function Commit(r: Reservation, len: nat): (Buffer, Option<Slice>)
      requires r.Valid()
    {
      if len > r.Len() then (this, None)
      else
        var end := r.start + len;
        var b := this.(nextCommit := nextCommit + 1);
        (match r.region
         case A => b.(aEnd := end)
         case B => b.(bEnd := end),
         Some(Slice(nextCommit, r.start, end)))
    }

    /** Gives back one slice, expected to be the oldest. */
    function Reclaim(c: Slice): Outcome<Buffer> {
      if c.start == aStart then this.(aStart := aStart + c.Len()).Flip()
      else if c.start == bStart then this.(bStart := bStart + c.Len()).Flip()
      else Panic
    }

    /** When region A is used up, region B becomes region A. */
    function Flip(): Outcome<Buffer> {
      if aEnd < aStart then Panic
      else if aEnd == aStart then Ok(this.(aStart := bStart, aEnd := bEnd, bStart := 0, bEnd := 0))
      else Ok(this)
    }

    ghost function Decommit(c: Slice): Outcome<Buffer> {
      if c.Len() == 0 then Ok(this)
      else if c.id != nextRelease then Ok(this.(tombstones := tombstones[c.id := c]))
      else
        match Reclaim(c)
        case Panic => Panic
        case Ok(b) => b.(nextRelease := nextRelease + 1).Drain()
    }

    /** Reclaims the tombstones whose turn has come. */
    ghost function Drain(): Outcome<Buffer>
      decreases |tombstones|
    {
      if tombstones == map[] then Ok(this)
      else
        var id := Lowest(tombstones.Keys);
        if id < nextRelease then Panic
        else if id != nextRelease then Ok(this)
        else
          match Reclaim(tombstones[id])
          case Panic => Panic
          case Ok(b) => b.(nextRelease := nextRelease + 1, tombstones := Without(tombstones, id)).Drain()
    }
  }

  function Without(m: map<nat, Slice>, id: nat): (r: map<nat, Slice>)
    requires id in m
    ensures |r| < |m|
  {
    assert (m - {id}).Keys == m.Keys - {id};
    m - {id}
  }

  ghost predicate IsLowest(s: set<nat>, x: nat) {
    x in s && forall y :: y in s ==> x <= y
  }

  /** The smallest element: what the min-heap yields. */
  ghost function Lowest(s: set<nat>): (x: nat)
    requires s != {}
    ensures IsLowest(s, x)
  {
    LowestExists(s);
    var x :| IsLowest(s, x);
    x
  }

  lemma {:induction false} LowestExists(s: set<nat>)
    requires s != {}
    ensures exists x :: IsLowest(s, x)
  {
    var y :| y in s;
    if s == {y} {
      assert IsLowest(s, y);
    } else {
      assert s == s - {y} + {y} && s - {y} != {};
      LowestExists(s - {y});
      var z :| IsLowest(s - {y}, z);
      assert IsLowest(s, if y < z then y else z);
    }
  }

  function Min(a: nat, b: nat): nat { if a < b then a else b }
  function Max(a: nat, b: nat): nat { if a > b then a else b }

  /** The bytes of the buffer with `data` written at `at`. */
  function Splice(bytes: seq<bv8>, at: nat, data: seq<bv8>): (r: seq<bv8>)
    requires at + |data| <= |bytes|
    ensures |r| == |bytes|
    ensures forall i :: 0 <= i < |bytes| && !(at <= i < at + |data|) ==> r[i] == bytes[i]
  {
    bytes[..at] + data + bytes[at + |data|..]
  }

  lemma SpliceElsewhere(bytes: seq<bv8>, at: nat, data: seq<bv8>, lo: nat, hi: nat)
    requires at + |data| <= |bytes| && lo <= hi <= |bytes|
    requires hi <= at || at + |data| <= lo
    ensures Splice(bytes, at, data)[lo..hi] == bytes[lo..hi]
  {
  }

  /** `BipBufferInner::new`: issued ids start at 0, the first release expected is 1. */
  function New(length: nat): Buffer {
    Buffer(length, 0, 0, 0, 0, false, 0, 1, map[])
  }

  // ----- Geometry -----
  //
  // `all` is the history of the non-empty slices committed so far, in order; the
  // first `n` of them have been reclaimed, those before `split` lie in region A.

  /** The slices `all[i..j]` are non-empty and lie end to end from `lo` to `hi`. */
  ghost predicate Chain(all: seq<Slice>, i: nat, j: nat, lo: nat, hi: nat) {
    && i <= j <= |all|
    && (forall k :: i <= k < j ==> all[k].start < all[k].end)
    && (forall k, l :: i <= k < j && l == k + 1 && l < j ==> all[k].end == all[l].start)
    && (if i == j then lo == hi else all[i].start == lo && all[j - 1].end == hi)
  }

  /** The unreclaimed slices tile region A and then, from the front of the
      buffer, region B, which never reaches into region A. */
  ghost predicate Tiles(b: Buffer, all: seq<Slice>, n: nat, split: nat) {
    && Chain(all, n, split, b.aStart, b.aEnd)
    && Chain(all, split, |all|, 0, b.bEnd)
    && b.bStart == 0
    && b.aEnd <= b.length
    && (n == split ==> n == |all| && b.aStart == 0)
    && (split < |all| ==> b.bEnd <= b.aStart)
  }

  /** The reservation still continues the region it was made in. */
  ghost predicate Attached(b: Buffer, r: Reservation) {
    && r.Valid()
    && match r.region
       case A => r.start == b.aEnd && r.end <= b.length && b.bEnd == 0
       case B => r.start == b.bEnd && r.end <= b.aStart && b.aStart < b.aEnd
  }

  /** Later slices of a chain lie after earlier ones, and all between its ends. */
  lemma {:induction false} ChainBounds(all: seq<Slice>, i: nat, j: nat, lo: nat, hi: nat, k: nat, l: nat)
    requires Chain(all, i, j, lo, hi) && i <= k <= l < j
    ensures lo <= all[k].start && all[l].end <= hi
    ensures k > i ==> lo < all[k].start
    ensures k < l ==> all[k].end <= all[l].start
    decreases k - i + (j - l), l - k
  {
    if k > i {
      ChainBounds(all, i, j, lo, hi, k - 1, l);
      assert all[k - 1].end == all[k].start;
    } else if l < j - 1 {
      ChainBounds(all, i, j, lo, hi, k, l + 1);
      assert all[l].end == all[l + 1].start;
    }
    if k < l {
      ChainAfter(all, i, j, lo, hi, k, l);
    }
  }

  lemma {:induction false} ChainAfter(all: seq<Slice>, i: nat, j: nat, lo: nat, hi: nat, k: nat, l: nat)
    requires Chain(all, i, j, lo, hi) && i <= k < l < j
    ensures all[k].end <= all[l].start
  {
    assert all[l - 1].end == all[l].start;
    if k < l - 1 {
      ChainAfter(all, i, j, lo, hi, k, l - 1);
    }
  }

  lemma ChainExtend(all: seq<Slice>, i: nat, lo: nat, hi: nat, c: Slice)
    requires Chain(all, i, |all|, lo, hi) && c.start == hi < c.end
    ensures Chain(all + [c], i, |all| + 1, lo, c.end)
  {
  }

  lemma ChainPrefix(all: seq<Slice>, i: nat, j: nat, lo: nat, hi: nat, c: Slice)
    requires Chain(all, i, j, lo, hi)
    ensures Chain(all + [c], i, j, lo, hi)
  {
  }

  lemma ChainOrder(all: seq<Slice>, i: nat, j: nat, lo: nat, hi: nat)
    requires Chain(all, i, j, lo, hi)
    ensures lo <= hi
    ensures i < j ==> lo < hi
  {
    if i < j {
      ChainBounds(all, i, j, lo, hi, i, i);
    }
  }

  lemma TilesOrder(b: Buffer, all: seq<Slice>, n: nat, split: nat)
    requires Tiles(b, all, n, split)
    ensures b.aStart <= b.aEnd <= b.length && b.bEnd <= b.length
    ensures b.aStart == b.aEnd <==> n == |all|
    ensures b.bEnd == 0 <==> split == |all|
    ensures n == |all| ==> b.aStart == b.aEnd == b.bEnd == 0
    ensures b.Available() == Ok(if b.bEnd > 0 then b.aStart - b.bEnd else Max(b.aStart, b.length - b.aEnd))
  {
    ChainOrder(all, n, split, b.aStart, b.aEnd);
    ChainOrder(all, split, |all|, 0, b.bEnd);
  }

  /** Unreclaimed slices lie inside the buffer, are pairwise disjoint and lie
      outside an attached reservation: writing through it changes none of them. */
  lemma SlicesDisjoint(b: Buffer, all: seq<Slice>, n: nat, split: nat, i: nat, j: nat)
    requires Tiles(b, all, n, split) && n <= i <= j < |all|
    ensures all[i].start < all[i].end <= b.length
    ensures i < j ==> all[i].end <= all[j].start || all[j].end <= all[i].start
    ensures forall r: Reservation :: Attached(b, r) ==> all[i].end <= r.start || r.end <= all[i].start
  {
    TilesOrder(b, all, n, split);
    if i < split {
      ChainBounds(all, n, split, b.aStart, b.aEnd, i, if j < split then j else i);
      ChainBounds(all, n, split, b.aStart, b.aEnd, i, i);
      if j >= split {
        ChainBounds(all, split, |all|, 0, b.bEnd, j, j);
      }
    } else {
      ChainBounds(all, split, |all|, 0, b.bEnd, i, j);
      ChainBounds(all, split, |all|, 0, b.bEnd, i, i);
    }
  }

  // ----- Reserve and commit -----

  /** A reservation continues a region, lies outside every live slice, and has
      the requested size when strict and otherwise as much of it as is available;
      none is made exactly when nothing, or strictly not enough, is available. While
      region B is empty, region A is continued exactly if the request fits behind it or
      there is no more space before it. */
  lemma ReserveAttaches(b: Buffer, all: seq<Slice>, n: nat, split: nat, request: nat, strict: bool)
    requires Tiles(b, all, n, split) && !b.reserved
    ensures b.Available().Ok? && b.Reserve(request, strict).Ok?
    ensures var available, (b', r) := b.Available().value, b.Reserve(request, strict).value;
            && (r.None? <==> available == 0 || (strict && available < request))
            && b' == b.(reserved := r.Some?)
            && (r.Some? ==> && Attached(b', r.value)
                            && r.value.Len() == Min(request, available)
                            && (strict ==> r.value.Len() == request))
            && (r.Some? && b.bEnd == 0 ==>
                  (r.value.region == A <==> request <= b.length - b.aEnd || b.aStart <= b.length - b.aEnd))
  {
    TilesOrder(b, all, n, split);
  }

  /** A second reservation panics, and more than was reserved is not committed. */
  lemma Refused(b: Buffer, r: Reservation, request: nat, strict: bool, len: nat)
    requires r.Valid()
    ensures b.reserved ==> b.Reserve(request, strict) == Panic
    ensures b.Commit(r, len).1 == None <==> len > r.end - r.start
    ensures len > r.end - r.start ==> b.Commit(r, len).0 == b
  {
  }

  function SplitAfterCommit(all: seq<Slice>, split: nat, region: Region): nat {
    if region == A then |all| + 1 else split
  }

  /** A non-empty commit through an attached reservation extends the tiling by
      exactly the committed bytes and leaves the rest attached. */
  lemma CommitExtends(b: Buffer, all: seq<Slice>, n: nat, split: nat, r: Reservation, len: nat)
    requires Tiles(b, all, n, split) && Attached(b, r) && 0 < len <= r.Len()
    ensures var (b', c) := b.Commit(r, len);
            && c == Some(Slice(b.nextCommit, r.start, r.start + len))
            && Tiles(b', all + [c.value], n, SplitAfterCommit(all, split, r.region))
            && Attached(b', r.(start := r.start + len))
  {
    var c := Slice(b.nextCommit, r.start, r.start + len);
    if r.region == A {
      ExtendsA(b, all, n, split, r, c, b.Commit(r, len).0);
    } else {
      ExtendsB(b, all, n, split, r, c, b.Commit(r, len).0);
    }
  }

  lemma ExtendsA(b: Buffer, all: seq<Slice>, n: nat, split: nat, r: Reservation, c: Slice, b': Buffer)
    requires Tiles(b, all, n, split) && Attached(b, r) && r.region == A
    requires r.start == c.start < c.end <= r.end && b' == b.(aEnd := c.end, nextCommit := b.nextCommit + 1)
    ensures Tiles(b', all + [c], n, |all| + 1) && Attached(b', r.(start := c.end))
  {
    TilesOrder(b, all, n, split);
    ChainExtend(all, n, b.aStart, b.aEnd, c);
  }

  lemma ExtendsB(b: Buffer, all: seq<Slice>, n: nat, split: nat, r: Reservation, c: Slice, b': Buffer)
    requires Tiles(b, all, n, split) && Attached(b, r) && r.region == B
    requires r.start == c.start < c.end <= r.end && b' == b.(bEnd := c.end, nextCommit := b.nextCommit + 1)
    ensures Tiles(b', all + [c], n, split) && Attached(b', r.(start := c.end))
  {
    TilesOrder(b, all, n, split);
    ChainPrefix(all, n, split, b.aStart, b.aEnd, c);
    ChainExtend(all, split, 0, b.bEnd, c);
  }

  // ----- Release -----

  /** The slices before `split` lie in region A, after a release up to `m`. */
  function SplitAfterRelease(all: seq<Slice>, split: nat, m: nat): nat {
    if m < split then split else |all|
  }

  /** The buffer after the slices before `m` are reclaimed: region A starts at the
      oldest slice left, region B takes its place once A is used up, and the
      tombstones of reclaimed slices are gone. */
  function Released(b: Buffer, all: seq<Slice>, n: nat, split: nat, m: nat): Buffer
    requires n <= m <= |all|
  {
    var next := b.nextRelease + (m - n);
    b.(aStart := if m < |all| then all[m].start else 0,
       aEnd := if m < split then b.aEnd else if m < |all| then b.bEnd else 0,
       bEnd := if m < split then b.bEnd else 0,
       nextRelease := next,
       tombstones := map id | id in b.tombstones && id >= next :: b.tombstones[id])
  }

  /** A release keeps the tiling of the slices it leaves. */
  lemma ReleasedTiles(b: Buffer, all: seq<Slice>, n: nat, split: nat, m: nat)
    requires Tiles(b, all, n, split) && n <= m <= |all|
    ensures Tiles(Released(b, all, n, split, m), all, m, SplitAfterRelease(all, split, m))
  {
    TilesOrder(b, all, n, split);
    if m < split {
      ChainBounds(all, n, split, b.aStart, b.aEnd, m, m);
      ChainOrder(all, split, |all|, 0, b.bEnd);
    }
  }

  /** Reclaiming the oldest slice. */
  lemma ReclaimOldest(b: Buffer, all: seq<Slice>, n: nat, split: nat, next: nat, ts: map<nat, Slice>)
    requires Tiles(b, all, n, split) && n < |all|
    requires next == b.nextRelease + 1 && ts == map id | id in b.tombstones && id >= next :: b.tombstones[id]
    ensures b.Reclaim(all[n]).Ok?
    ensures b.Reclaim(all[n]).value.(nextRelease := next, tombstones := ts) == Released(b, all, n, split, n + 1)
  {
    TilesOrder(b, all, n, split);
    ChainBounds(all, n, split, b.aStart, b.aEnd, n, n);
    if n + 1 < split {
      ChainBounds(all, n, split, b.aStart, b.aEnd, n, n + 1);
      assert all[n].end == all[n + 1].start;
    }
  }

  /** Releases compose. */
  lemma ReleasedMore(b: Buffer, all: seq<Slice>, n: nat, split: nat, m: nat)
    requires n < m <= |all| && split <= |all|
    ensures Released(Released(b, all, n, split, n + 1), all, n + 1, SplitAfterRelease(all, split, n + 1), m)
            == Released(b, all, n, split, m)
  {
  }

  /** The id at which releases stop, if the first `g` slices are in step: the next one
      to be issued, or one that went to an empty commit. */
  function Hole(b: Buffer, n: nat, g: nat): int { b.nextRelease - n + g }

  /** Ids grow; the first `g` slices, and no later one, carry those from the next
      expected release up to the hole. */
  ghost predicate Aligned(b: Buffer, all: seq<Slice>, n: nat, g: nat) {
    && n <= g <= |all| && n <= b.nextRelease && Hole(b, n, g) <= b.nextCommit
    && (forall i :: 0 <= i < g ==> all[i].id == b.nextRelease - n + i)
    && (forall i :: g <= i < |all| ==> Hole(b, n, g) < all[i].id < b.nextCommit)
    && (forall i, j :: g <= i < j < |all| ==> all[i].id < all[j].id)
  }

  /** Tombstones are unreclaimed slices. */
  ghost predicate Buried(b: Buffer, all: seq<Slice>, n: nat, g: nat) {
    && (forall id :: id in b.tombstones ==> b.nextRelease <= id < b.nextCommit && id != Hole(b, n, g))
    && (forall i :: n <= i < |all| && all[i].id in b.tombstones ==> b.tombstones[all[i].id] == all[i])
  }

  lemma ReleasedIds(b: Buffer, all: seq<Slice>, n: nat, split: nat, m: nat, g: nat)
    requires Aligned(b, all, n, g) && Buried(b, all, n, g) && n <= m <= g
    ensures Aligned(Released(b, all, n, split, m), all, m, g) && Buried(Released(b, all, n, split, m), all, m, g)
  {
  }

  /** Counting from `n`, how far the first `g` slices have all been returned. */
  function Leading(all: seq<Slice>, returned: set<nat>, n: nat, g: nat): (m: nat)
    requires n <= g <= |all|
    ensures n <= m <= g
    ensures forall i :: n <= i < m ==> all[i].id in returned
    ensures m < g ==> all[m].id !in returned
    decreases g - n
  {
    if n == g || all[n].id !in returned then n else Leading(all, returned, n + 1, g)
  }

  lemma DrainStep(b: Buffer, all: seq<Slice>, n: nat, split: nat, g: nat)
    requires Tiles(b, all, n, split) && Aligned(b, all, n, g) && Buried(b, all, n, g)
    requires b.nextRelease in b.tombstones
    ensures n < g && b.Drain() == Released(b, all, n, split, n + 1).Drain()
  {
    assert n < g;
    assert Lowest(b.tombstones.Keys) == b.nextRelease;
    var ts := Without(b.tombstones, b.nextRelease);
    assert all[n].id == b.nextRelease;
    ReclaimOldest(b, all, n, split, b.nextRelease + 1, ts);
  }

  /** One turn of the drain loop. */
  lemma DrainTurn(b: Buffer, id: nat)
    requires b.tombstones != map[] && id == Lowest(b.tombstones.Keys)
    ensures id < b.nextRelease ==> b.Drain() == Panic
    ensures id > b.nextRelease ==> b.Drain() == Ok(b)
    ensures id == b.nextRelease ==>
              b.Drain() == match b.Reclaim(b.tombstones[id])
                           case Panic => Panic
                           case Ok(b1) =>
                             b1.(nextRelease := b1.nextRelease + 1, tombstones := Without(b.tombstones, id)).Drain()
  {
  }

  /** The order of popping a tombstone and reclaiming it does not matter. */
  lemma PopThenReclaim(b: Buffer, ts: map<nat, Slice>, c: Slice)
    ensures b.(tombstones := ts).Reclaim(c) ==
            match b.Reclaim(c) case Panic => Panic case Ok(b1) => Ok(b1.(tombstones := ts))
  {
  }

  lemma DrainStops(b: Buffer)
    requires forall id :: id in b.tombstones ==> id > b.nextRelease
    ensures b.Drain() == Ok(b)
  {
    assert b.tombstones != map[] ==> Lowest(b.tombstones.Keys) in b.tombstones;
  }

  lemma ReleasedNone(b: Buffer, all: seq<Slice>, n: nat, split: nat)
    requires Tiles(b, all, n, split) && forall id :: id in b.tombstones ==> id >= b.nextRelease
    ensures Released(b, all, n, split, n) == b
  {
    TilesOrder(b, all, n, split);
    assert (map id | id in b.tombstones && id >= b.nextRelease :: b.tombstones[id]) == b.tombstones;
  }

  /** Draining never panics, and reclaims exactly the leading buried slices. */
  lemma {:induction false} DrainExact(b: Buffer, all: seq<Slice>, n: nat, split: nat, g: nat, returned: set<nat>)
    requires Tiles(b, all, n, split) && Aligned(b, all, n, g) && Buried(b, all, n, g)
    requires forall i :: n <= i < g ==> (all[i].id in returned <==> all[i].id in b.tombstones)
    ensures b.Drain() == Ok(Released(b, all, n, split, Leading(all, returned, n, g)))
    decreases g - n
  {
    if b.nextRelease in b.tombstones {
      DrainStep(b, all, n, split, g);
      ReleasedTiles(b, all, n, split, n + 1);
      ReleasedIds(b, all, n, split, n + 1, g);
      var b1 := Released(b, all, n, split, n + 1);
      StillReturned(b, all, n, split, g, returned);
      DrainExact(b1, all, n + 1, SplitAfterRelease(all, split, n + 1), g, returned);
      ReleasedMore(b, all, n, split, Leading(all, returned, n + 1, g));
    } else {
      DrainStops(b);
      ReleasedNone(b, all, n, split);
      StopsHere(b, all, n, g, returned);
    }
  }

  lemma StillReturned(b: Buffer, all: seq<Slice>, n: nat, split: nat, g: nat, returned: set<nat>)
    requires Aligned(b, all, n, g) && n < g && b.nextRelease in b.tombstones
    requires forall i :: n <= i < g ==> (all[i].id in returned <==> all[i].id in b.tombstones)
    ensures forall i :: n + 1 <= i < g ==>
              (all[i].id in returned <==> all[i].id in Released(b, all, n, split, n + 1).tombstones)
    ensures Leading(all, returned, n, g) == Leading(all, returned, n + 1, g)
  {
    assert all[n].id == b.nextRelease;
  }

  lemma StopsHere(b: Buffer, all: seq<Slice>, n: nat, g: nat, returned: set<nat>)
    requires Aligned(b, all, n, g) && b.nextRelease !in b.tombstones
    requires forall i :: n <= i < g ==> (all[i].id in returned <==> all[i].id in b.tombstones)
    ensures Leading(all, returned, n, g) == n
  {
    assert n < g ==> all[n].id == b.nextRelease;
  }

  /** A buffer in release order: what every release keeps. */
  ghost predicate InOrder(b: Buffer, all: seq<Slice>, n: nat, split: nat, g: nat) {
    && Tiles(b, all, n, split) && Aligned(b, all, n, g) && Buried(b, all, n, g)
    && b.nextRelease !in b.tombstones
  }

  /** Returning an unreclaimed slice, in any order, never panics and reclaims exactly
      the slices in step before the oldest one not yet returned. */
  lemma DecommitExact(b: Buffer, all: seq<Slice>, n: nat, split: nat, g: nat, i: nat)
    requires InOrder(b, all, n, split, g) && n <= i < |all| && all[i].id !in b.tombstones
    ensures var c := all[i];
            var m := Leading(all, b.tombstones.Keys + {c.id}, n, g);
            b.Decommit(c) == Ok(Released(b.(tombstones := b.tombstones[c.id := c]), all, n, split, m))
  {
    var c := all[i];
    var b0 := b.(tombstones := b.tombstones[c.id := c]);
    SlicesDisjoint(b, all, n, split, i, i);
    if i == n < g {
      DecommitOldest(b, all, n, split, g, b0);
    } else {
      assert c.id > b.nextRelease;
      ReleasedNone(b0, all, n, split);
    }
  }

  lemma DecommitOldest(b: Buffer, all: seq<Slice>, n: nat, split: nat, g: nat, b0: Buffer)
    requires InOrder(b, all, n, split, g) && n < g && all[n].Len() > 0
    requires b0 == b.(tombstones := b.tombstones[all[n].id := all[n]])
    ensures var m := Leading(all, b.tombstones.Keys + {all[n].id}, n, g);
            b.Decommit(all[n]) == Ok(Released(b0, all, n, split, m))
  {
    var returned := b.tombstones.Keys + {all[n].id};
    assert all[n].id == b.nextRelease;
    DecommitIsDrain(b, all[n], b0);
    BuryKeeps(b, all, n, g, n, b0);
    assert Tiles(b0, all, n, split);
    assert b0.tombstones.Keys == returned;
    DrainExact(b0, all, n, split, g, returned);
  }

  /** Returning the expected slice does what burying it and then draining would. */
  lemma DecommitIsDrain(b: Buffer, c: Slice, b0: Buffer)
    requires c.id == b.nextRelease && c.Len() > 0 && b0 == b.(tombstones := b.tombstones[c.id := c])
    requires forall id :: id in b.tombstones ==> id > b.nextRelease
    ensures b.Decommit(c) == b0.Drain()
  {
    BuriedOnTop(b.tombstones, c.id, c, b0.tombstones);
    DrainTurn(b0, c.id);
    PopThenReclaim(b, b0.tombstones, c);
    match b.Reclaim(c) {
      case Panic =>
      case Ok(b1) => ReclaimKeeps(b, c, b1);
    }
  }

  lemma ReclaimKeeps(b: Buffer, c: Slice, b1: Buffer)
    requires b.Reclaim(c) == Ok(b1)
    ensures b1.nextRelease == b.nextRelease && b1.tombstones == b.tombstones
  {
  }

  lemma BuriedOnTop(ts: map<nat, Slice>, id: nat, c: Slice, more: map<nat, Slice>)
    requires more == ts[id := c] && forall k :: k in ts ==> k > id
    ensures id in more.Keys && Lowest(more.Keys) == id && Without(more, id) == ts
  {
    assert id in more.Keys;
    assert Lowest(more.Keys) in more.Keys;
  }

  /** After the release the buffer is in order again, and the next expected release is
      the smallest id in step not yet returned, or the hole. */
  lemma ReleasedInOrder(b: Buffer, all: seq<Slice>, n: nat, split: nat, g: nat, i: nat, m: nat, b': Buffer)
    requires InOrder(b, all, n, split, g) && n <= i < |all|
    requires m == Leading(all, b.tombstones.Keys + {all[i].id}, n, g)
    requires b' == Released(b.(tombstones := b.tombstones[all[i].id := all[i]]), all, n, split, m)
    ensures InOrder(b', all, m, SplitAfterRelease(all, split, m), g)
    ensures b'.nextRelease == if m < g then all[m].id else Hole(b, n, g)
  {
    var b0 := b.(tombstones := b.tombstones[all[i].id := all[i]]);
    BuryKeeps(b, all, n, g, i, b0);
    ReleasedOrder(b0, all, n, split, g, m, b', b.tombstones.Keys + {all[i].id});
  }

  lemma ReleasedOrder(b: Buffer, all: seq<Slice>, n: nat, split: nat, g: nat, m: nat, b': Buffer, returned: set<nat>)
    requires Tiles(b, all, n, split) && Aligned(b, all, n, g) && Buried(b, all, n, g)
    requires b.tombstones.Keys == returned && m == Leading(all, returned, n, g)
    requires b' == Released(b, all, n, split, m)
    ensures InOrder(b', all, m, SplitAfterRelease(all, split, m), g)
    ensures b'.nextRelease == if m < g then all[m].id else Hole(b, n, g)
  {
    ReleasedTiles(b, all, n, split, m);
    ReleasedIds(b, all, n, split, m, g);
    ReleasedTop(b, all, n, split, g, m, returned);
  }

  lemma ReleasedTop(b: Buffer, all: seq<Slice>, n: nat, split: nat, g: nat, m: nat, returned: set<nat>)
    requires Aligned(b, all, n, g) && Buried(b, all, n, g)
    requires b.tombstones.Keys == returned && m == Leading(all, returned, n, g)
    ensures var b' := Released(b, all, n, split, m);
            b'.nextRelease !in b'.tombstones && b'.nextRelease == if m < g then all[m].id else Hole(b, n, g)
  {
  }

  lemma BuryKeeps(b: Buffer, all: seq<Slice>, n: nat, g: nat, i: nat, b0: Buffer)
    requires Aligned(b, all, n, g) && Buried(b, all, n, g) && n <= i < |all|
    requires b0 == b.(tombstones := b.tombstones[all[i].id := all[i]])
    ensures Aligned(b0, all, n, g) && Buried(b0, all, n, g)
  {
    IdsDistinct(b, all, n, g, i);
  }

  lemma IdsDistinct(b: Buffer, all: seq<Slice>, n: nat, g: nat, i: nat)
    requires Aligned(b, all, n, g) && n <= i < |all|
    ensures forall k :: 0 <= k < |all| && k != i ==> all[k].id != all[i].id
    ensures b.nextRelease <= all[i].id < b.nextCommit && all[i].id != Hole(b, n, g)
  {
  }

  /** How many slices are in step after a non-empty commit. */
  function InStepAfter(b: Buffer, n: nat, g: nat): nat {
    if Hole(b, n, g) == b.nextCommit then g + 1 else g
  }

  /** A non-empty commit takes the next id and keeps the order; its slice is in step
      exactly if no empty commit came before. */
  lemma CommitInOrder(b: Buffer, all: seq<Slice>, n: nat, split: nat, g: nat, r: Reservation, len: nat)
    requires InOrder(b, all, n, split, g) && Attached(b, r) && 0 < len <= r.Len()
    ensures var (b', c) := b.Commit(r, len);
            && c == Some(Slice(b.nextCommit, r.start, r.start + len))
            && InOrder(b', all + [c.value], n, SplitAfterCommit(all, split, r.region), InStepAfter(b, n, g))
            && Attached(b', r.(start := r.start + len))
  {
    CommitExtends(b, all, n, split, r, len);
    var (b', c) := b.Commit(r, len);
    CommitIds(b, all, n, g, b', c.value);
  }

  lemma CommitIds(b: Buffer, all: seq<Slice>, n: nat, g: nat, b': Buffer, c: Slice)
    requires Aligned(b, all, n, g) && Buried(b, all, n, g) && c.id == b.nextCommit
    requires b'.nextCommit == b.nextCommit + 1 && b'.nextRelease == b.nextRelease && b'.tombstones == b.tombstones
    ensures Aligned(b', all + [c], n, InStepAfter(b, n, g)) && Buried(b', all + [c], n, InStepAfter(b, n, g))
  {
    assert g < |all| ==> Hole(b, n, g) < all[g].id;
  }

  /** The reservation starts where its region ends. */
  predicate Continues(b: Buffer, r: Reservation) {
    match r.region
    case A => r.start == b.aEnd
    case B => r.start == b.bEnd
  }

  /** An empty commit there only uses up an id. */
  lemma EmptyCommit(b: Buffer, all: seq<Slice>, n: nat, split: nat, g: nat, r: Reservation)
    requires InOrder(b, all, n, split, g) && r.Valid() && Continues(b, r)
    ensures b.Commit(r, 0) == (b.(nextCommit := b.nextCommit + 1), Some(Slice(b.nextCommit, r.start, r.start)))
    ensures InOrder(b.(nextCommit := b.nextCommit + 1), all, n, split, g)
  {
  }

  /** Returning an empty slice changes nothing: its id is never released. */
  lemma EmptyReturn(b: Buffer, c: Slice)
    requires c.start == c.end
    ensures b.Decommit(c) == Ok(b)
  {
  }

  /** Once every slice has been returned, the slices in step have been reclaimed, and the
      whole buffer is free again exactly if that is all of them. */
  lemma AllReturned(b: Buffer, all: seq<Slice>, n: nat, split: nat, g: nat)
    requires InOrder(b, all, n, split, g)
    requires forall i :: n <= i < |all| ==> all[i].id in b.tombstones
    ensures n == g
    ensures b.Available() == Ok(b.length) <==> g == |all|
    ensures g == |all| ==> b.aStart == b.aEnd == b.bStart == b.bEnd == 0
  {
    OldestOutstanding(b, all, n, split, g);
    TilesOrder(b, all, n, split);
  }

  lemma OldestOutstanding(b: Buffer, all: seq<Slice>, n: nat, split: nat, g: nat)
    requires InOrder(b, all, n, split, g)
    ensures n < g ==> all[n].id !in b.tombstones
  {
  }

  // ----- The uses it does not survive -----

  /** A release keeps an open reservation attached exactly when region A is left
      non-empty. */
  lemma ReleaseAttachedIff(b: Buffer, all: seq<Slice>, n: nat, split: nat, m: nat, r: Reservation, ts: map<nat, Slice>)
    requires Tiles(b, all, n, split) && Attached(b, r) && n < |all| && n <= m <= |all|
    ensures Attached(Released(b.(tombstones := ts), all, n, split, m), r) <==> m < split
  {
    TilesOrder(b, all, n, split);
    ChainBounds(all, n, split, b.aStart, b.aEnd, n, n);
    if m < split {
      ChainBounds(all, n, split, b.aStart, b.aEnd, m, m);
    }
  }

  /** A commit through a detached reservation leaves no tiling of the slices that are
      still held, whatever the regions; only an empty one at the front of the buffer
      does no harm. */
  lemma DetachedCommitBreaks(b: Buffer, all: seq<Slice>, n: nat, split: nat, m: nat, r: Reservation,
                             ts: map<nat, Slice>, len: nat, sp: nat)
    requires Tiles(b, all, n, split) && Attached(b, r) && n < |all| && split <= m <= |all| && len <= r.Len()
    ensures var (b', c) := Released(b.(tombstones := ts), all, n, split, m).Commit(r, len);
            && c.Some?
            && (len > 0 ==> !Tiles(b', all + [c.value], m, sp))
            && (len == 0 && r.start > 0 ==> !Tiles(b', all, m, sp))
            && (len == 0 && r.start == 0 ==> Tiles(b', all, m, |all|))
  {
    TilesOrder(b, all, n, split);
    ChainBounds(all, n, split, b.aStart, b.aEnd, n, n);
    if m < |all| {
      ChainBounds(all, split, |all|, 0, b.bEnd, m, m);
    }
    var (b', c) := Released(b.(tombstones := ts), all, n, split, m).Commit(r, len);
    var now := if len > 0 then all + [c.value] else all;
    if Tiles(b', now, m, sp) {
      TilesOrder(b', now, m, sp);
    }
  }

  /** Gives back slices one after the other. */
  function ReclaimAll(b: Buffer, cs: seq<Slice>): Outcome<Buffer>
    decreases |cs|
  {
    if cs == [] then Ok(b)
    else match b.Reclaim(cs[0])
         case Panic => Panic
         case Ok(b1) => ReclaimAll(b1, cs[1..])
  }

  /** And the slice committed this way cannot be given back: when its turn comes, after
      the slices still held before it, the release panics. */
  lemma DetachedReturnPanics(b: Buffer, all: seq<Slice>, n: nat, split: nat, m: nat, r: Reservation,
                             ts: map<nat, Slice>, len: nat)
    requires Tiles(b, all, n, split) && Attached(b, r) && n < |all| && split <= m <= |all| && 0 < len <= r.Len()
    ensures var (b', c) := Released(b.(tombstones := ts), all, n, split, m).Commit(r, len);
            c.Some? && ReclaimAll(b', all[m..] + [c.value]) == Panic
  {
    TilesOrder(b, all, n, split);
    var (b', c) := Released(b.(tombstones := ts), all, n, split, m).Commit(r, len);
    if m < |all| {
      ChainBounds(all, split, |all|, 0, b.bEnd, m, m);
      FlippedPanics(b', all, m, c.value);
    } else {
      assert all[m..] + [c.value] == [c.value];
      assert b'.Reclaim(c.value) == Panic;
    }
  }

  /** Region A gives way to a region B that starts before the slice. */
  lemma {:induction false} FlippedPanics(b: Buffer, all: seq<Slice>, m: nat, c: Slice)
    requires m < |all| && Chain(all, m, |all|, b.aStart, b.aEnd) && b.bStart == 0 < c.start && b.bEnd == c.end
    ensures ReclaimAll(b, all[m..] + [c]) == Panic
    decreases |all| - m
  {
    var cs := all[m..] + [c];
    assert cs[0] == all[m] && cs[1..] == all[m + 1..] + [c];
    ChainBounds(all, m, |all|, b.aStart, b.aEnd, m, m);
    if m + 1 < |all| {
      assert all[m].end == all[m + 1].start;
      ChainBounds(all, m, |all|, b.aStart, b.aEnd, m, m + 1);
      FlippedPanics(b.(aStart := all[m].end), all, m + 1, c);
    } else {
      assert cs[1..] == [c];
    }
  }
}
