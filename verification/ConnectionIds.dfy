/** Connection IDs: up to twenty bytes in a fixed array, and the two ways to make one. */
module ConnectionIds {
  import opened Basics

  const MAX_CID_LEN: nat := 20

  datatype ConnectionId = ConnectionId(bytes: Bytes, len: nat)
  {
    predicate Valid() { |bytes| == MAX_CID_LEN && len <= MAX_CID_LEN }

    function AsSlice(): Bytes
      requires Valid()
    {
      bytes[..len]
    }

    /** Equality of the parts in use: what lies behind them does not matter. */
    predicate Equals(that: ConnectionId)
      requires Valid() && that.Valid()
    {
      len == that.len && bytes[..len] == that.bytes[..that.len]
    }
  }

  lemma EqualsIffSlices(a: ConnectionId, b: ConnectionId)
    requires a.Valid() && b.Valid()
    ensures a.Equals(b) <==> a.AsSlice() == b.AsSlice()
  {
    if a.AsSlice() == b.AsSlice() {
      assert |a.AsSlice()| == |b.AsSlice()|;
    }
  }

  /** `try_from_slice`: anything that fits. */
  method TryFromSlice(slice: Bytes) returns (r: Option<ConnectionId>)
    ensures r.Some? <==> |slice| <= MAX_CID_LEN
    ensures r.Some? ==> r.value.Valid() && r.value.AsSlice() == slice
  {
    if |slice| > MAX_CID_LEN {
      return None;
    }
    return Some(ConnectionId(slice + seq(MAX_CID_LEN - |slice|, _ => 0), |slice|));
  }

  /** `try_from_iter`: unlike the slice form, and unlike its documentation, it refuses
      an iterator of exactly twenty bytes, because it stops before seeing its end. */
  method TryFromIter(items: Bytes) returns (r: Option<ConnectionId>)
    ensures r.Some? <==> |items| < MAX_CID_LEN
    ensures r.Some? ==> r.value.Valid() && r.value.AsSlice() == items
  {
    var arr: Bytes := seq(MAX_CID_LEN, _ => 0);
    var mark := 0;
    while mark < MAX_CID_LEN
      invariant mark <= MAX_CID_LEN == |arr| && mark <= |items|
      invariant arr[..mark] == items[..mark]
    {
      if mark < |items| {
        arr := arr[mark := items[mark]];
        mark := mark + 1;
      } else {
        return Some(ConnectionId(arr, mark));
      }
    }
    return None;
  }
}
