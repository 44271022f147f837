/** The bytes of padded tokens and of the associated data they are bound to. */
module TokenFormat {
  import opened Basics
  import opened ConnectionIds

  datatype IpAddr = V4(octets: Bytes) | V6(octets: Bytes)
  {
    predicate Valid() { if V4? then |octets| == 4 else |octets| == 16 }
  }

  datatype TokenKind = Retry | Identity

  function Zeros(n: nat): (z: Bytes)
    ensures |z| == n && forall i :: 0 <= i < n ==> z[i] == 0
  {
    seq(n, _ => 0)
  }

  // ----- Big-endian numbers -----

  function ToBe(v: nat, n: nat): (b: Bytes)
    ensures |b| == n
  {
    if n == 0 then [] else ToBe(v / 256, n - 1) + [v % 256]
  }

  function FromBe(b: Bytes): nat {
    if b == [] then 0 else 256 * FromBe(b[..|b| - 1]) + b[|b| - 1]
  }

  function Pow256(n: nat): (p: nat)
    ensures p > 0
  {
    if n == 0 then 1 else 256 * Pow256(n - 1)
  }

  lemma {:induction false} BeRoundTrip(v: nat, n: nat)
    requires v < Pow256(n)
    ensures FromBe(ToBe(v, n)) == v
  {
    if n > 0 {
      BeRoundTrip(v / 256, n - 1);
      assert ToBe(v, n)[..n - 1] == ToBe(v / 256, n - 1);
    }
  }

  /** The most significant byte comes first. */
  lemma {:induction false} ToBeAt(v: nat, n: nat, i: nat)
    requires i < n
    ensures ToBe(v, n)[i] == Digit(v, n - 1 - i)
  {
    if i < n - 1 {
      ToBeAt(v / 256, n - 1, i);
    }
  }

  /** Byte `k` of a number, the least significant being byte 0. */
  function Digit(v: nat, k: nat): Byte {
    if k == 0 then v % 256 else Digit(v / 256, k - 1)
  }

  lemma Pow256Of8()
    ensures Pow256(8) == WORD
  {
    assert Pow256(4) == 0x1_0000_0000;
  }

  // ----- Times -----

  const NANOS: nat := 1_000_000

  /** Milliseconds since the epoch of a time in nanoseconds: none before the epoch, or
      beyond 64 bits. */
  function ToMillis(time: int): (r: Option<nat>)
    ensures r.Some? <==> 0 <= time < WORD * NANOS
    ensures r.Some? ==> r.value < WORD && r.value * NANOS <= time < r.value * NANOS + NANOS
  {
    if time < 0 then None
    else if time / NANOS < WORD then Some(time / NANOS)
    else None
  }

  function MillisOrZero(time: int): (n: nat)
    ensures n < WORD
    ensures 0 <= time < WORD * NANOS ==> n * NANOS <= time < n * NANOS + NANOS
    ensures !(0 <= time < WORD * NANOS) ==> n == 0
  {
    match ToMillis(time) case Some(n) => n case None => 0
  }

  function ToSystime(millis: nat): int { millis * NANOS }

  /** The expiry a token carries is the time asked for, cut to whole milliseconds; a time
      that 64 bits of milliseconds cannot tell becomes the epoch. */
  lemma Expiry(time: int)
    ensures ToSystime(MillisOrZero(time)) == if 0 <= time < WORD * NANOS then time - time % NANOS else 0
  {
    if 0 <= time < WORD * NANOS {
      var n := MillisOrZero(time);
      assert time == n * NANOS + (time - n * NANOS);
      DivisionUnique(time, NANOS, n, time - n * NANOS);
    }
  }

  // ----- Associated data -----

  function Kind(kind: TokenKind): Byte {
    match kind case Retry => 0 case Identity => 255
  }

  /** Bytes filled up with zeros to a width, and the number of zeros. */
  function Padded(b: Bytes, width: nat): (r: Bytes)
    requires |b| <= width < 256
    ensures |r| == width + 1
  {
    b + Zeros(width - |b|) + [width - |b|]
  }

  function RetryData(ip: IpAddr, scid: Bytes, dcid: Bytes): Bytes
    requires ip.Valid() && |scid| <= MAX_CID_LEN
  {
    [Kind(Retry)] + Padded(ip.octets, 16) + Padded(scid, MAX_CID_LEN) + dcid
  }

  function IdentityData(ip: IpAddr): Bytes {
    [Kind(Identity)] + ip.octets
  }

  lemma PaddedInjective(a: Bytes, b: Bytes, width: nat)
    requires |a| <= width < 256 && |b| <= width && Padded(a, width) == Padded(b, width)
    ensures a == b
  {
    assert Padded(a, width)[width] == width - |a| && Padded(b, width)[width] == width - |b|;
    assert a == Padded(a, width)[..|a|] && b == Padded(b, width)[..|b|];
  }

  lemma FieldsSplit(k: Bytes, a: Bytes, b: Bytes, c: Bytes, k': Bytes, a': Bytes, b': Bytes, c': Bytes)
    requires k + a + b + c == k' + a' + b' + c' && |k| == |k'| && |a| == |a'| && |b| == |b'|
    ensures k == k' && a == a' && b == b' && c == c'
  {
    var s, t := k + a + b + c, k' + a' + b' + c';
    assert s[..|k|] == k && t[..|k|] == k';
    assert s[|k|..|k| + |a|] == a && t[|k|..|k| + |a|] == a';
    assert s[|k| + |a|..|k| + |a| + |b|] == b && t[|k| + |a|..|k| + |a| + |b|] == b';
    assert s[|k| + |a| + |b|..] == c && t[|k| + |a| + |b|..] == c';
  }

  /** Different addresses or connection IDs give different data: no byte can move from
      one field to the next. */
  lemma RetryDataInjective(ip: IpAddr, scid: Bytes, dcid: Bytes, ip': IpAddr, scid': Bytes, dcid': Bytes)
    requires ip.Valid() && ip'.Valid() && |scid| <= MAX_CID_LEN && |scid'| <= MAX_CID_LEN
    ensures RetryData(ip, scid, dcid) == RetryData(ip', scid', dcid') <==> ip == ip' && scid == scid' && dcid == dcid'
  {
    if RetryData(ip, scid, dcid) == RetryData(ip', scid', dcid') {
      FieldsSplit([Kind(Retry)], Padded(ip.octets, 16), Padded(scid, MAX_CID_LEN), dcid,
                  [Kind(Retry)], Padded(ip'.octets, 16), Padded(scid', MAX_CID_LEN), dcid');
      PaddedInjective(ip.octets, ip'.octets, 16);
      PaddedInjective(scid, scid', MAX_CID_LEN);
    }
  }

  /** Where the fields of the data lie. */
  lemma RetryDataLayout(ip: IpAddr, scid: Bytes, dcid: Bytes, d: Bytes, n: nat, m: nat)
    requires ip.Valid() && |scid| <= MAX_CID_LEN && n == |ip.octets| && m == |scid|
    requires d == RetryData(ip, scid, dcid)
    ensures |d| == 39 + |dcid| && d[0] == 0
    ensures d[1..1 + n] == ip.octets && (forall i :: 1 + n <= i < 17 ==> d[i] == 0) && d[17] == 16 - n
    ensures d[18..18 + m] == scid && (forall i :: 18 + m <= i < 38 ==> d[i] == 0) && d[38] == 20 - m
    ensures d[39..] == dcid
  {
    var a, b := Padded(ip.octets, 16), Padded(scid, MAX_CID_LEN);
    assert d == [Kind(Retry)] + a + b + dcid;
    assert forall i :: 0 <= i < 17 ==> d[1 + i] == a[i];
    assert forall i :: 0 <= i < 21 ==> d[18 + i] == b[i];
  }

  lemma IdentityDataInjective(ip: IpAddr, ip': IpAddr)
    requires ip.Valid() && ip'.Valid()
    ensures IdentityData(ip) == IdentityData(ip') <==> ip == ip'
  {
    if IdentityData(ip) == IdentityData(ip') {
      assert IdentityData(ip)[1..] == ip.octets && IdentityData(ip')[1..] == ip'.octets;
    }
  }

  lemma KindsDisjoint(ip: IpAddr, ip': IpAddr, scid: Bytes, dcid: Bytes)
    requires ip'.Valid() && |scid| <= MAX_CID_LEN
    ensures IdentityData(ip) != RetryData(ip', scid, dcid)
  {
    assert IdentityData(ip)[0] == 255 && RetryData(ip', scid, dcid)[0] == 0;
  }

  // ----- Plaintext -----

  const MILLIS_LEN: nat := 8

  const PLAIN_LEN: nat := 29

  /** The plaintext of a token: a connection ID, empty in an identity token, then
      random padding, its length and the expiry. */
  function Plain(dcid: Bytes, padding: Bytes, millis: nat): (r: Bytes)
    requires |dcid| + |padding| == MAX_CID_LEN
    ensures |r| == PLAIN_LEN && r[..|dcid|] == dcid && r[|dcid|..MAX_CID_LEN] == padding
    ensures r[MAX_CID_LEN] == |padding| && r[MAX_CID_LEN + 1..] == ToBe(millis, MILLIS_LEN)
  {
    dcid + padding + [|padding|] + ToBe(millis, MILLIS_LEN)
  }

  /** The connection ID and the expiry a plaintext holds, if it is one. */
  function ReadMillis(b: Bytes): Option<(Bytes, nat)> {
    var n := |b| - MILLIS_LEN;
    if n < 0 then None else Some((b[..n], FromBe(b[n..])))
  }

  function ReadPadding(b: Bytes): Option<Bytes> {
    var n := |b| - 1;
    if n < 0 || n < b[n] then None else Some(b[..n - b[n]])
  }

  lemma PlainRoundTrip(dcid: Bytes, padding: Bytes, millis: nat)
    requires |dcid| + |padding| == MAX_CID_LEN && millis < WORD
    ensures var r := ReadMillis(Plain(dcid, padding, millis));
            r.Some? && r.value.1 == millis && ReadPadding(r.value.0) == Some(dcid)
  {
    Pow256Of8();
    BeRoundTrip(millis, MILLIS_LEN);
    var b, front := Plain(dcid, padding, millis), dcid + padding + [|padding|];
    assert b[..MAX_CID_LEN + 1] == front && b[MAX_CID_LEN + 1..] == ToBe(millis, MILLIS_LEN);
    assert front[MAX_CID_LEN] == |padding| && front[..|dcid|] == dcid;
  }

  // ----- Reading in place -----

  /** `drain_millis`: takes eight bytes off the end. */
  method DrainMillis(token: Bytes) returns (r: Option<nat>, rest: Bytes)
    ensures match ReadMillis(token)
            case None => r == None && rest == token
            case Some((front, millis)) => r == Some(millis) && rest == front
  {
    rest := token;
    if |rest| < MILLIS_LEN {
      return None, rest;
    }
    var arr: Bytes := Zeros(MILLIS_LEN);
    for i := MILLIS_LEN downto 0
      invariant |rest| == |token| - MILLIS_LEN + i && |arr| == MILLIS_LEN
      invariant rest == token[..|rest|] && arr[i..] == token[|rest|..]
    {
      arr := arr[i := rest[|rest| - 1]];
      rest := rest[..|rest| - 1];
    }
    assert arr[0..] == arr;
    r := Some(FromBe(arr));
  }

  /** `drain_padding`: takes a length off the end and then as many bytes. */
  method DrainPadding(token: Bytes) returns (ok: bool, rest: Bytes)
    ensures match ReadPadding(token)
            case None => !ok
            case Some(front) => ok && rest == front
  {
    rest := token;
    if |rest| == 0 {
      return false, rest;
    }
    var length := rest[|rest| - 1];
    rest := rest[..|rest| - 1];
    if |rest| < length {
      return false, rest;
    }
    for i := 0 to length
      invariant |rest| == |token| - 1 - i && rest == token[..|rest|]
    {
      rest := rest[..|rest| - 1];
    }
    ok := true;
  }
}
