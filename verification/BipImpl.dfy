/** The bip buffer as the object the program updates in place. Each method does
    to the view what the operation of the same name on `Buffer` does, and reports
    a panic exactly when that operation panics. */
module BipImpl {
  import opened Basics
  import opened BipModel

  class BipBuffer {
    const buffer: array<bv8>
    const length: nat
    var aStart: nat
    var aEnd: nat
    var bStart: nat
    var bEnd: nat
    var reserved: bool
    var commitIdSequence: nat
    var decommitNextId: nat
    var decommitTombstones: map<nat, Slice>

    ghost function View(): Buffer
      reads this
    {
      Buffer(length, aStart, aEnd, bStart, bEnd, reserved, commitIdSequence, decommitNextId, decommitTombstones)
    }

    constructor (length: nat)
      ensures View() == New(length) && fresh(buffer) && buffer.Length == length
      ensures forall i :: 0 <= i < length ==> buffer[i] == 0
    {
      buffer := new bv8[length](_ => 0);
      this.length := length;
      aStart, aEnd, bStart, bEnd := 0, 0, 0, 0;
      reserved := false;
      commitIdSequence, decommitNextId := 0, 1;
      decommitTombstones := map[];
    }

    method Reserve(request: nat, strict: bool) returns (r: Outcome<Option<Reservation>>)
      modifies this`reserved
      ensures match old(View()).Reserve(request, strict)
              case Panic => r.Panic? && View() == old(View())
              case Ok((b, reservation)) => r == Ok(reservation) && View() == b
    {
      if reserved {
        return Panic;
      }
      var reserveStart, available, region;
      if bEnd < bStart {
        return Panic;
      } else if bEnd - bStart > 0 {
        if aStart < bEnd {
          return Panic;
        }
        reserveStart, available, region := bEnd, aStart - bEnd, B;
      } else {
        if length < aEnd {
          return Panic;
        }
        var spaceBeforeA, spaceAfterA := aStart, length - aEnd;
        available := Max(spaceBeforeA, spaceAfterA);
        if request <= spaceAfterA || spaceAfterA >= spaceBeforeA {
          reserveStart, region := aEnd, A;
        } else {
          reserveStart, region := 0, B;
        }
      }
      if available == 0 || (strict && available < request) {
        return Ok(None);
      }
      reserved := true;
      return Ok(Some(Reservation(reserveStart, reserveStart + Min(available, request), region)));
    }

    method Commit(r: Reservation, len: nat) returns (c: Option<Slice>)
      requires r.Valid()
      modifies this`aEnd, this`bEnd, this`commitIdSequence
      ensures (View(), c) == old(View()).Commit(r, len)
    {
      if len > r.Len() {
        return None;
      }
      var id := commitIdSequence;
      commitIdSequence := commitIdSequence + 1;
      var end := r.start + len;
      match r.region {
        case A => aEnd := end;
        case B => bEnd := end;
      }
      return Some(Slice(id, r.start, end));
    }

    /** Writes through the reservation, as its mutable slice allows. */
    method Write(r: Reservation, offset: nat, data: seq<bv8>)
      requires r.Valid() && offset + |data| <= r.Len() && r.end <= buffer.Length
      modifies buffer
      ensures buffer[..] == Splice(old(buffer[..]), r.start + offset, data)
    {
      for k := 0 to |data|
        invariant forall i :: 0 <= i < k ==> buffer[r.start + offset + i] == data[i]
        invariant forall i :: 0 <= i < buffer.Length && !(r.start + offset <= i < r.start + offset + k) ==>
                    buffer[i] == old(buffer[i])
      {
        buffer[r.start + offset + k] := data[k];
      }
    }

    /** Dropping a reservation cancels what is left of it. */
    method CancelReservation()
      modifies this`reserved
      ensures View() == old(View()).(reserved := false)
    {
      reserved := false;
    }

    method DecommitSingle(value: Slice) returns (ok: bool)
      modifies this`aStart, this`aEnd, this`bStart, this`bEnd
      ensures match old(View()).Reclaim(value)
              case Panic => !ok
              case Ok(b) => ok && View() == b
    {
      if value.start == aStart {
        aStart := aStart + value.Len();
      } else if value.start == bStart {
        bStart := bStart + value.Len();
      } else {
        return false;
      }
      if aEnd < aStart {
        return false;
      }
      if aEnd - aStart == 0 {
        aStart, aEnd := bStart, bEnd;
        bStart, bEnd := 0, 0;
      }
      return true;
    }

    method Decommit(value: Slice) returns (ok: bool)
      modifies this`aStart, this`aEnd, this`bStart, this`bEnd, this`decommitNextId, this`decommitTombstones
      ensures match old(View()).Decommit(value)
              case Panic => !ok
              case Ok(b) => ok && View() == b
    {
      if value.Len() == 0 {
        return true;
      }
      if value.id != decommitNextId {
        decommitTombstones := decommitTombstones[value.id := value];
        return true;
      }
      ok := DecommitSingle(value);
      if !ok {
        return;
      }
      decommitNextId := decommitNextId + 1;
      ok := DrainTombstones();
    }

    /** The loop of `decommit`: reclaims the tombstones whose turn has come. */
    method DrainTombstones() returns (ok: bool)
      modifies this`aStart, this`aEnd, this`bStart, this`bEnd, this`decommitNextId, this`decommitTombstones
      ensures match old(View()).Drain()
              case Panic => !ok
              case Ok(b) => ok && View() == b
    {
      ghost var v := View();
      ghost var result := v.Drain();
      ok := true;
      while decommitTombstones != map[]
        invariant ok && v == View() && v.Drain() == result
        decreases |decommitTombstones|
      {
        var id := Peek(decommitTombstones);
        DrainTurn(v, id);
        if id != decommitNextId {
          return id > decommitNextId;
        }
        ok := ReleaseTombstone(id);
        if !ok {
          return;
        }
        v := View();
      }
    }

    /** Pops the tombstone on top of the heap and reclaims its slice. */
    method ReleaseTombstone(id: nat) returns (ok: bool)
      requires id in decommitTombstones
      modifies this`aStart, this`aEnd, this`bStart, this`bEnd, this`decommitNextId, this`decommitTombstones
      ensures match old(View()).Reclaim(old(decommitTombstones)[id])
              case Panic => !ok
              case Ok(b) =>
                ok && View() == b.(nextRelease := b.nextRelease + 1, tombstones := Without(old(decommitTombstones), id))
    {
      var tombstone := decommitTombstones[id];
      PopThenReclaim(View(), Without(decommitTombstones, id), tombstone);
      decommitTombstones := Without(decommitTombstones, id);
      ok := DecommitSingle(tombstone);
      if ok {
        decommitNextId := decommitNextId + 1;
      }
    }
  }

  /** The id on top of the min-heap. */
  method Peek(heap: map<nat, Slice>) returns (id: nat)
    requires heap != map[]
    ensures id == Lowest(heap.Keys)
  {
    ghost var low := Lowest(heap.Keys);
    assert low in heap && forall i :: i in heap ==> low <= i;
    id :| id in heap && forall i :: i in heap ==> id <= i;
  }
}
