/** Retry and identity tokens: generation and verification. */
module PaddedTokens {
  import opened Basics
  import opened ConnectionIds
  import opened AeadKeys
  import opened TokenFormat

  datatype Token = RetryToken(originalDcid: Bytes, expiresAt: int) | IdentityToken(expiresAt: int)

  datatype Verdict = Accepted(token: Token) | Expired(kind: TokenKind, expiresAt: int) | Invalid

  // ----- What verification answers -----

  function ExtractRetry(plain: Bytes, now: int): Verdict {
    match ReadMillis(plain)
    case None => Invalid
    case Some((front, millis)) =>
      if ToSystime(millis) < now then Expired(Retry, ToSystime(millis))
      else
        match ReadPadding(front)
        case None => Invalid
        case Some(dcid) =>
          if |dcid| < MAX_CID_LEN then Accepted(RetryToken(dcid, ToSystime(millis))) else Invalid
  }

  function ExtractIdentity(plain: Bytes, now: int): Verdict {
    match ReadMillis(plain)
    case None => Invalid
    case Some((front, millis)) =>
      if ToSystime(millis) < now then Expired(Identity, ToSystime(millis))
      else if ReadPadding(front) == Some([]) then Accepted(IdentityToken(ToSystime(millis)))
      else Invalid
  }

  function VerifyRetry(a: Scheme, keys: seq<Key>, ip: IpAddr, scid: Bytes, dcid: Bytes, token: Bytes, now: int): Verdict
    requires ip.Valid() && |scid| <= MAX_CID_LEN
  {
    match FirstUnpack(a, keys, RetryData(ip, scid, dcid), token)
    case None => Invalid
    case Some(plain) => ExtractRetry(plain, now)
  }

  function VerifyIdentity(a: Scheme, keys: seq<Key>, ip: IpAddr, token: Bytes, now: int): Verdict {
    match FirstUnpack(a, keys, IdentityData(ip), token)
    case None => Invalid
    case Some(plain) => ExtractIdentity(plain, now)
  }

  /** An identity token first, and otherwise a retry token. */
  function Verify(a: Scheme, keys: seq<Key>, ip: IpAddr, scid: Bytes, dcid: Bytes, token: Bytes, now: int): Verdict
    requires ip.Valid()
  {
    if token == [] || |scid| > MAX_CID_LEN || |dcid| > MAX_CID_LEN then Invalid
    else
      var r := VerifyIdentity(a, keys, ip, token, now);
      if r != Invalid then r else VerifyRetry(a, keys, ip, scid, dcid, token, now)
  }

  // ----- What generation produces -----

  /** A retry token for the client at `ip` with source ID `scid`, that sent `original`
      and is told `newScid`. */
  function MakeRetry(a: Scheme, key: Key, nonce: Bytes, ip: IpAddr, scid: Bytes, original: Bytes, newScid: Bytes,
                     expiresAt: int, padding: Bytes): Bytes
    requires ip.Valid() && |scid| <= MAX_CID_LEN && |original| + |padding| == MAX_CID_LEN
  {
    Pack(a, key, nonce, RetryData(ip, scid, newScid), Plain(original, padding, MillisOrZero(expiresAt)))
  }

  function MakeIdentity(a: Scheme, key: Key, nonce: Bytes, ip: IpAddr, expiresAt: int, padding: Bytes): Bytes
    requires |padding| == MAX_CID_LEN
  {
    Pack(a, key, nonce, IdentityData(ip), Plain([], padding, MillisOrZero(expiresAt)))
  }

  /** The AEAD keeps its promise for this token and the data a verification tries. */
  ghost predicate Sealed(a: Scheme, keys: seq<Key>, key: Key, nonce: Bytes, data: Bytes, plain: Bytes,
                         ip: IpAddr, scid: Bytes, dcid: Bytes)
    requires ip.Valid()
  {
    && |nonce| == a.nonceLen
    && Binds(a, keys, key, nonce, data, plain, IdentityData(ip))
    && (|scid| <= MAX_CID_LEN ==> Binds(a, keys, key, nonce, data, plain, RetryData(ip, scid, dcid)))
  }

  /** A retry token is accepted exactly by who still has its key, for the same address
      and connection IDs, until its expiry in whole milliseconds; it then yields the
      original connection ID, unless that has all twenty bytes. */
  lemma RetryVerifies(a: Scheme, keys: seq<Key>, key: Key, nonce: Bytes, ip: IpAddr, scid: Bytes, original: Bytes,
                      newScid: Bytes, expiresAt: int, padding: Bytes,
                      ip': IpAddr, scid': Bytes, dcid': Bytes, now: int)
    requires ip.Valid() && ip'.Valid() && |scid| <= MAX_CID_LEN && |newScid| <= MAX_CID_LEN
    requires |original| + |padding| == MAX_CID_LEN
    requires Sealed(a, keys, key, nonce, RetryData(ip, scid, newScid),
                    Plain(original, padding, MillisOrZero(expiresAt)), ip', scid', dcid')
    ensures var expiry := if 0 <= expiresAt < WORD * NANOS then expiresAt - expiresAt % NANOS else 0;
            Verify(a, keys, ip', scid', dcid',
                   MakeRetry(a, key, nonce, ip, scid, original, newScid, expiresAt, padding), now)
            == if key !in keys || ip' != ip || scid' != scid || dcid' != newScid then Invalid
               else if expiry < now then Expired(Retry, expiry)
               else if |original| == MAX_CID_LEN then Invalid
               else Accepted(RetryToken(original, expiry))
  {
    Expiry(expiresAt);
    var millis := MillisOrZero(expiresAt);
    var plain, data := Plain(original, padding, millis), RetryData(ip, scid, newScid);
    KindsDisjoint(ip', ip, scid, newScid);
    PackedOpens(a, keys, key, nonce, data, plain, IdentityData(ip'));
    PlainRoundTrip(original, padding, millis);
    if |scid'| <= MAX_CID_LEN {
      RetryDataInjective(ip, scid, newScid, ip', scid', dcid');
      PackedOpens(a, keys, key, nonce, data, plain, RetryData(ip', scid', dcid'));
    }
  }

  /** An identity token is accepted exactly by who still has its key, for the same
      address, until its expiry, whatever connection IDs come with it. */
  lemma IdentityVerifies(a: Scheme, keys: seq<Key>, key: Key, nonce: Bytes, ip: IpAddr, expiresAt: int, padding: Bytes,
                         ip': IpAddr, scid': Bytes, dcid': Bytes, now: int)
    requires ip.Valid() && ip'.Valid() && |padding| == MAX_CID_LEN
    requires Sealed(a, keys, key, nonce, IdentityData(ip), Plain([], padding, MillisOrZero(expiresAt)),
                    ip', scid', dcid')
    ensures var expiry := if 0 <= expiresAt < WORD * NANOS then expiresAt - expiresAt % NANOS else 0;
            Verify(a, keys, ip', scid', dcid', MakeIdentity(a, key, nonce, ip, expiresAt, padding), now)
            == if key !in keys || ip' != ip || |scid'| > MAX_CID_LEN || |dcid'| > MAX_CID_LEN then Invalid
               else if expiry < now then Expired(Identity, expiry)
               else Accepted(IdentityToken(expiry))
  {
    Expiry(expiresAt);
    var millis := MillisOrZero(expiresAt);
    var plain, data := Plain([], padding, millis), IdentityData(ip);
    IdentityDataInjective(ip, ip');
    PackedOpens(a, keys, key, nonce, data, plain, IdentityData(ip'));
    PlainRoundTrip([], padding, millis);
    if |scid'| <= MAX_CID_LEN {
      KindsDisjoint(ip, ip', scid', dcid');
      PackedOpens(a, keys, key, nonce, data, plain, RetryData(ip', scid', dcid'));
    }
  }

  /** All tokens have the same length, so it tells nothing about their kind or content. */
  lemma SameLength(a: Scheme, keys: seq<Key>, key: Key, nonce: Bytes, ip: IpAddr, scid: Bytes, original: Bytes,
                   newScid: Bytes, expiresAt: int, padding: Bytes,
                   key': Key, nonce': Bytes, ip': IpAddr, expiresAt': int, padding': Bytes, tried: Bytes)
    requires ip.Valid() && |scid| <= MAX_CID_LEN && |original| + |padding| == MAX_CID_LEN == |padding'|
    requires |nonce| == a.nonceLen == |nonce'|
    requires Binds(a, keys, key, nonce, RetryData(ip, scid, newScid),
                   Plain(original, padding, MillisOrZero(expiresAt)), tried)
    requires Binds(a, keys, key', nonce', IdentityData(ip'), Plain([], padding', MillisOrZero(expiresAt')), tried)
    ensures |MakeRetry(a, key, nonce, ip, scid, original, newScid, expiresAt, padding)|
         == |MakeIdentity(a, key', nonce', ip', expiresAt', padding')| == PLAIN_LEN + a.tagLen + a.nonceLen
  {
  }

  // ----- The generator as it runs -----

  class PaddedTokenGenerator {
    const plaintextBuffer: ByteVec
    const associatedDataBuffer: ByteVec
    const reserveBuffer: ByteVec
    const aead: Aead

    ghost predicate Valid()
      reads this, aead
    {
      && plaintextBuffer != associatedDataBuffer && plaintextBuffer != reserveBuffer
      && associatedDataBuffer != reserveBuffer && aead.ciphers != []
    }

    constructor (aead: Aead)
      requires aead.ciphers != []
      ensures Valid() && this.aead == aead
      ensures fresh(plaintextBuffer) && fresh(associatedDataBuffer) && fresh(reserveBuffer)
    {
      plaintextBuffer := new ByteVec();
      associatedDataBuffer := new ByteVec();
      reserveBuffer := new ByteVec();
      this.aead := aead;
    }

    method WritePadding(length: Byte, padding: Bytes, out: ByteVec)
      requires |padding| == length
      modifies out
      ensures out.data == old(out.data) + padding + [length]
    {
      out.data := out.data + padding;
      out.data := out.data + [length];
    }

    method WriteRetryAssociatedData(ip: IpAddr, scid: Bytes, dcid: Bytes)
      requires ip.Valid() && |scid| <= MAX_CID_LEN
      modifies associatedDataBuffer
      ensures associatedDataBuffer.data == RetryData(ip, scid, dcid)
    {
      var buf := associatedDataBuffer;
      buf.data := [];
      buf.data := buf.data + [Kind(Retry)];
      buf.data := buf.data + ip.octets;
      WritePadding(16 - |ip.octets|, Zeros(16 - |ip.octets|), buf);
      assert buf.data == [Kind(Retry)] + Padded(ip.octets, 16);
      buf.data := buf.data + scid;
      WritePadding(MAX_CID_LEN - |scid|, Zeros(MAX_CID_LEN - |scid|), buf);
      assert buf.data == [Kind(Retry)] + Padded(ip.octets, 16) + Padded(scid, MAX_CID_LEN);
      buf.data := buf.data + dcid;
    }

    method WriteIdentityAssociatedData(ip: IpAddr)
      modifies associatedDataBuffer
      ensures associatedDataBuffer.data == IdentityData(ip)
    {
      var buf := associatedDataBuffer;
      buf.data := [];
      buf.data := buf.data + [Kind(Identity)];
      buf.data := buf.data + ip.octets;
    }

    method WritePlaintextData(dcid: Bytes, expiresAt: int, padding: Bytes)
      requires |dcid| + |padding| == MAX_CID_LEN
      modifies plaintextBuffer
      ensures plaintextBuffer.data == Plain(dcid, padding, MillisOrZero(expiresAt))
    {
      var buf := plaintextBuffer;
      buf.data := [];
      buf.data := buf.data + dcid;
      WritePadding(MAX_CID_LEN - |dcid|, padding, buf);
      buf.data := buf.data + ToBe(MillisOrZero(expiresAt), MILLIS_LEN);
    }

    /** `generate_retry_token`; nonce and padding are random. */
    method GenerateRetryToken(ip: IpAddr, scid: Bytes, original: Bytes, newScid: Bytes, expiresAt: int,
                              nonce: Bytes, padding: Bytes)
      returns (token: Option<Bytes>)
      requires Valid() && ip.Valid() && (|original| <= MAX_CID_LEN ==> |original| + |padding| == MAX_CID_LEN)
      modifies plaintextBuffer, associatedDataBuffer, aead`ciphers, aead`revision
      ensures Valid()
      ensures token.None? <==> |scid| > MAX_CID_LEN || |original| > MAX_CID_LEN || |newScid| > MAX_CID_LEN
      ensures token.Some? ==> aead.ciphers == old(aead.Current())
      ensures token.Some? ==>
                token.value == MakeRetry(aead.scheme, aead.ciphers[0], nonce, ip, scid, original, newScid, expiresAt,
                                         padding)
    {
      if |scid| > MAX_CID_LEN || |original| > MAX_CID_LEN || |newScid| > MAX_CID_LEN {
        return None;
      }
      WriteRetryAssociatedData(ip, scid, newScid);
      WritePlaintextData(original, expiresAt, padding);
      aead.EncryptAndPack(associatedDataBuffer.data, plaintextBuffer, nonce);
      return Some(plaintextBuffer.data);
    }

    method GenerateIdentityToken(ip: IpAddr, expiresAt: int, nonce: Bytes, padding: Bytes) returns (token: Bytes)
      requires Valid() && |padding| == MAX_CID_LEN
      modifies plaintextBuffer, associatedDataBuffer, aead`ciphers, aead`revision
      ensures Valid() && aead.ciphers == old(aead.Current()) && aead.ciphers != []
      ensures token == MakeIdentity(aead.scheme, aead.ciphers[0], nonce, ip, expiresAt, padding)
    {
      WriteIdentityAssociatedData(ip);
      WritePlaintextData([], expiresAt, padding);
      aead.EncryptAndPack(associatedDataBuffer.data, plaintextBuffer, nonce);
      return plaintextBuffer.data;
    }

    method ExtractRetryData(now: int) returns (r: Verdict)
      modifies plaintextBuffer
      ensures r == ExtractRetry(old(plaintextBuffer.data), now)
    {
      var buf := plaintextBuffer;
      var millis;
      millis, buf.data := DrainMillis(buf.data);
      if millis.None? {
        return Invalid;
      }
      var expiresAt := ToSystime(millis.value);
      if expiresAt < now {
        return Expired(Retry, expiresAt);
      }
      var ok;
      ok, buf.data := DrainPadding(buf.data);
      if !ok {
        return Invalid;
      }
      var cid := TryFromIter(buf.data);
      buf.data := [];
      if cid.None? {
        return Invalid;
      }
      return Accepted(RetryToken(cid.value.AsSlice(), expiresAt));
    }

    method ExtractIdentityData(now: int) returns (r: Verdict)
      modifies plaintextBuffer
      ensures r == ExtractIdentity(old(plaintextBuffer.data), now)
    {
      var buf := plaintextBuffer;
      var millis;
      millis, buf.data := DrainMillis(buf.data);
      if millis.None? {
        return Invalid;
      }
      var expiresAt := ToSystime(millis.value);
      if expiresAt < now {
        return Expired(Identity, expiresAt);
      }
      var ok;
      ok, buf.data := DrainPadding(buf.data);
      if !ok || buf.data != [] {
        return Invalid;
      }
      return Accepted(IdentityToken(expiresAt));
    }

    method VerifyRetryToken(ip: IpAddr, scid: Bytes, dcid: Bytes, now: int) returns (r: Verdict)
      requires Valid() && ip.Valid() && |scid| <= MAX_CID_LEN
      modifies plaintextBuffer, associatedDataBuffer, reserveBuffer, aead`ciphers, aead`revision
      ensures Valid() && aead.ciphers == old(aead.Current()) == aead.Current()
      ensures r == VerifyRetry(aead.scheme, aead.ciphers, ip, scid, dcid, old(plaintextBuffer.data), now)
    {
      reserveBuffer.data := [];
      WriteRetryAssociatedData(ip, scid, dcid);
      var ok := aead.UnpackAndDecrypt(associatedDataBuffer.data, plaintextBuffer, reserveBuffer);
      if !ok {
        return Invalid;
      }
      r := ExtractRetryData(now);
    }

    method VerifyIdentityToken(ip: IpAddr, now: int) returns (r: Verdict)
      requires Valid()
      modifies plaintextBuffer, associatedDataBuffer, reserveBuffer, aead`ciphers, aead`revision
      ensures Valid() && aead.ciphers == old(aead.Current()) == aead.Current()
      ensures r == VerifyIdentity(aead.scheme, aead.ciphers, ip, old(plaintextBuffer.data), now)
    {
      reserveBuffer.data := [];
      WriteIdentityAssociatedData(ip);
      var ok := aead.UnpackAndDecrypt(associatedDataBuffer.data, plaintextBuffer, reserveBuffer);
      if !ok {
        return Invalid;
      }
      r := ExtractIdentityData(now);
    }

    /** `verify_token`. */
    method VerifyToken(ip: IpAddr, scid: Bytes, dcid: Bytes, token: Bytes, now: int) returns (r: Verdict)
      requires Valid() && ip.Valid()
      modifies plaintextBuffer, associatedDataBuffer, reserveBuffer, aead`ciphers, aead`revision
      ensures Valid()
      ensures r == Verify(aead.scheme, old(aead.Current()), ip, scid, dcid, token, now)
    {
      if token == [] || |scid| > MAX_CID_LEN || |dcid| > MAX_CID_LEN {
        return Invalid;
      }
      plaintextBuffer.data := [];
      plaintextBuffer.data := plaintextBuffer.data + token;
      assert plaintextBuffer.data == token;
      r := VerifyIdentityToken(ip, now);
      if r != Invalid {
        return;
      }
      plaintextBuffer.data := [];
      plaintextBuffer.data := plaintextBuffer.data + token;
      r := VerifyRetryToken(ip, scid, dcid, now);
    }
  }
}
