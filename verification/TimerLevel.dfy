/** One level of the wheel: a ring of buckets whose cursor advances one bucket a
    tick. `Ring` is the level as a value; its meaning is a map from absolute
    positions (epoch times ring size, plus bucket index) to event lists. */
module TimerLevel {
  import opened TimerArithmetic

  datatype LevelKey = LevelKey(bucketIndex: nat, elementIndex: nat, epoch: nat)
  {
    function Position(size: nat): nat {
      Times(epoch, size) + bucketIndex
    }
  }

  datatype Ring<T> = Ring(buckets: seq<seq<T>>, index: nat, epoch: nat)
  {
    predicate Valid() {
      index < |buckets|
    }

    /** Absolute position of the cursor: how often this level has ticked. */
    function Position(): nat {
      Times(epoch, |buckets|) + index
    }

    /** Whether an absolute position still lies ahead, within one turn. */
    predicate Covers(p: nat) {
      Position() <= p < Position() + |buckets|
    }

    /** The bucket a covered position sits in. */
    function BucketOf(p: nat): (b: nat)
      requires Valid() && Covers(p)
      ensures b < |buckets|
    {
      var b := index + (p - Position());
      if b < |buckets| then b else b - |buckets|
    }

    /** Events waiting at an absolute position. */
    function At(p: nat): seq<T>
      requires Valid()
    {
      if Covers(p) then buckets[BucketOf(p)] else []
    }

    function Schedule(event: T, ticks: nat): (Ring<T>, LevelKey)
      requires Valid()
    {
      var b := Mask(index + ticks, |buckets|);
      var keyEpoch := if b < index then epoch + 1 else epoch;
      (this.(buckets := buckets[b := buckets[b] + [event]]), LevelKey(b, |buckets[b]|, keyEpoch))
    }

    /** Detaches the current bucket and advances the cursor. */
    function Tick(): (Ring<T>, seq<T>)
      requires Valid()
    {
      var i := Mask(index + 1, |buckets|);
      (Ring(buckets[index := []], i, if i == 0 then epoch + 1 else epoch), buckets[index])
    }

    function Cancel(key: LevelKey, default: T): Ring<T>
      requires Valid() && key.bucketIndex < |buckets|
    {
      if key.epoch < epoch then this
      else if key.epoch == epoch && key.bucketIndex < index then this
      else
        var elements := buckets[key.bucketIndex];
        if key.elementIndex < |elements| then
          this.(buckets := buckets[key.bucketIndex := elements[key.elementIndex := default]])
        else this
    }
  }

  function EmptyRing<T>(size: nat): (r: Ring<T>)
    requires size > 0
    ensures r.Valid() && |r.buckets| == size && r.Position() == 0
    ensures forall p: nat :: r.At(p) == []
  {
    Ring(seq(size, _ => []), 0, 0)
  }

  // ----- Refinement: rings as maps from absolute positions -----

  /** Epoch and bucket index are determined by the position they stand for. */
  lemma PositionInjective(k: LevelKey, l: LevelKey, size: nat)
    requires k.bucketIndex < size && l.bucketIndex < size
    requires k.Position(size) == l.Position(size)
    ensures k.epoch == l.epoch && k.bucketIndex == l.bucketIndex
  {
    EpochsApart(k.epoch, l.epoch, size);
    EpochsApart(l.epoch, k.epoch, size);
  }

  lemma EpochsApart(a: nat, b: nat, size: nat)
    ensures a < b ==> Times(a, size) + size <= Times(b, size)
    ensures a + 1 < b ==> Times(a, size) + size + size <= Times(b, size)
  {
    if a + 1 < b {
      TimesGrows(a + 2, b, size);
    }
  }

  lemma {:induction false} MaskOfIndex(index: nat, ticks: nat, size: nat)
    requires index < size
    ensures var b := index + Mask(ticks, size);
            Mask(index + ticks, size) == if b < size then b else b - size
  {
    if ticks >= size {
      MaskOfIndex(index, ticks - size, size);
    }
  }

  lemma ScheduleKey<T>(r: Ring<T>, event: T, ticks: nat)
    requires r.Valid()
    ensures var key := r.Schedule(event, ticks).1;
            var p := r.Position() + Mask(ticks, |r.buckets|);
            && key.bucketIndex < |r.buckets|
            && key.Position(|r.buckets|) == p
            && r.Covers(p) && r.BucketOf(p) == key.bucketIndex
            && key.elementIndex == |r.At(p)|
  {
    var key := r.Schedule(event, ticks).1;
    var m := Mask(ticks, |r.buckets|);
    MaskOfIndex(r.index, ticks, |r.buckets|);
    if r.index + m < |r.buckets| {
      assert key.bucketIndex == r.index + m && key.epoch == r.epoch;
    } else {
      assert key.bucketIndex == r.index + m - |r.buckets| && key.epoch == r.epoch + 1;
    }
  }

  lemma BucketsDiffer<T>(r: Ring<T>, p: nat, q: nat)
    requires r.Valid() && r.Covers(p) && r.Covers(q) && p != q
    ensures r.BucketOf(p) != r.BucketOf(q)
  {
  }

  /** A schedule appends to the position `ticks` (modulo the ring size) ahead,
      the returned key names that position and the new element, and no other
      position changes. */
  lemma ScheduleAppends<T>(r: Ring<T>, event: T, ticks: nat)
    requires r.Valid()
    ensures var (r', key) := r.Schedule(event, ticks);
            var p := r.Position() + Mask(ticks, |r.buckets|);
            && r'.Valid() && r'.Position() == r.Position() && |r'.buckets| == |r.buckets|
            && key.bucketIndex < |r.buckets|
            && key.Position(|r.buckets|) == p
            && key.elementIndex == |r.At(p)|
            && r'.At(p) == r.At(p) + [event]
            && forall q: nat :: q != p ==> r'.At(q) == r.At(q)
  {
    var (r', key) := r.Schedule(event, ticks);
    var p := r.Position() + Mask(ticks, |r.buckets|);
    ScheduleKey(r, event, ticks);
    forall q: nat | q != p ensures r'.At(q) == r.At(q) {
      if r.Covers(q) {
        BucketsDiffer(r, p, q);
      }
    }
  }

  /** A tick hands out the list at the cursor's position and moves the cursor one
      position on; every later position keeps its list. */
  lemma TickAdvances<T>(r: Ring<T>)
    requires r.Valid()
    ensures var (r', fired) := r.Tick();
            && r'.Valid() && r'.Position() == r.Position() + 1 && |r'.buckets| == |r.buckets|
            && fired == r.At(r.Position())
            && forall q: nat :: q > r.Position() ==> r'.At(q) == r.At(q)
  {
    MaskOfIndex(r.index, 1, |r.buckets|);
  }

  /** Cancelling a key whose position has passed changes nothing, even when its
      bucket has been reused; otherwise exactly the named element becomes the
      default. */
  lemma CancelExact<T>(r: Ring<T>, key: LevelKey, default: T)
    requires r.Valid() && key.bucketIndex < |r.buckets|
    requires key.Position(|r.buckets|) < r.Position() + |r.buckets|
    ensures var r' := r.Cancel(key, default);
            var p := key.Position(|r.buckets|);
            && r'.Valid() && r'.Position() == r.Position() && |r'.buckets| == |r.buckets|
            && (p < r.Position() ==> r' == r)
            && (p >= r.Position() ==>
                  && r'.At(p) == (if key.elementIndex < |r.At(p)|
                                  then r.At(p)[key.elementIndex := default] else r.At(p))
                  && forall q: nat :: q != p ==> r'.At(q) == r.At(q))
  {
    EpochsApart(key.epoch, r.epoch, |r.buckets|);
    EpochsApart(r.epoch, key.epoch, |r.buckets|);
  }

  /** The level itself: a bucket array updated in place. */
  class Level<T> {
    const buckets: array<seq<T>>
    var index: nat
    var epoch: nat

    ghost predicate Valid()
      reads this, buckets
    {
      index < buckets.Length
    }

    ghost function View(): (r: Ring<T>)
      reads this, buckets
      ensures Valid() == r.Valid()
    {
      Ring(buckets[..], index, epoch)
    }

    constructor (size: nat)
      requires size > 0
      ensures Valid() && View() == EmptyRing(size)
      ensures fresh(buckets)
    {
      buckets := new seq<T>[size](_ => []);
      index, epoch := 0, 0;
    }

    method Schedule(event: T, ticks: nat) returns (key: LevelKey)
      requires Valid()
      modifies buckets
      ensures Valid() && (View(), key) == old(View()).Schedule(event, ticks)
    {
      var bucketIndex := Mask(index + ticks, buckets.Length);
      var keyEpoch := epoch + if bucketIndex < index then 1 else 0;
      var elementIndex := |buckets[bucketIndex]|;
      buckets[bucketIndex] := buckets[bucketIndex] + [event];
      key := LevelKey(bucketIndex, elementIndex, keyEpoch);
    }

    method Tick() returns (fired: seq<T>)
      requires Valid()
      modifies this, buckets
      ensures Valid() && (View(), fired) == old(View()).Tick()
    {
      fired := buckets[index];
      buckets[index] := [];
      index := Mask(index + 1, buckets.Length);
      epoch := epoch + if index == 0 then 1 else 0;
    }

    method Cancel(key: LevelKey, default: T)
      requires Valid() && key.bucketIndex < buckets.Length
      modifies buckets
      ensures Valid() && View() == old(View()).Cancel(key, default)
    {
      if key.epoch < epoch {
        return;
      }
      if key.epoch == epoch {
        if key.bucketIndex < index {
          return;
        }
      }
      var elements := buckets[key.bucketIndex];
      if key.elementIndex < |elements| {
        buckets[key.bucketIndex] := elements[key.elementIndex := default];
      }
    }
  }
}
