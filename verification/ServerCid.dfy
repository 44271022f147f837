/** Server connection IDs: a first octet in the clear, then the server ID, an
    optional core ID and random bits, enciphered. A connection ID is its bits,
    most significant first, eight to a byte. */
module ServerCid {
  import opened Basics
  import opened FourPass

  datatype Result<T> = Ok(value: T) | Invalid

  datatype Cipher = Cipher(enc: Block -> Block, dec: Block -> Block)

  datatype Meta = Meta(serverId: nat, coreId: Option<nat>)

  const MAX_CID_BITS: nat := 160

  /** The bits up to the end of the byte. */
  function Fill(n: nat): (r: nat)
    ensures r < 8 && (n + r) % 8 == 0
  {
    (8 - n % 8) % 8
  }

  datatype Config = Config(firstOctet: nat, serverId: nat, coreId: nat,
                           serverBits: nat, coreBits: nat, entropyBits: nat)
  {
    /** What the constructor asserts. */
    predicate Valid() { 8 <= serverBits <= 32 && coreBits <= 16 && entropyBits >= 32 }

    function Offset(): nat { 8 + serverBits + coreBits }

    /** Random bits asked for, as far as the longest connection ID has room. */
    function Entropy(): (n: nat)
      requires Valid()
      ensures 32 <= n <= entropyBits && Offset() + n <= MAX_CID_BITS
      ensures n < entropyBits ==> Offset() + n == MAX_CID_BITS
    {
      var room := MAX_CID_BITS - Offset();
      if entropyBits < room then entropyBits else room
    }

    function Plain(entropy: Bits): Bits {
      ToBits(firstOctet, 8) + ToBits(serverId, serverBits) + ToBits(coreId, coreBits) + entropy
      + Zeros(Fill(Offset() + |entropy|))
    }
  }

  /** What is behind the first octet, enciphered: as one block if it is one. */
  function Mix(k: Cipher, body: Bits, passes: nat): (r: Bits)
    requires |body| <= 256
    ensures |r| == |body|
  {
    if |body| == 128 then k.enc(body) else Encrypt(k.enc, |body| / 8 + 1, body, passes)
  }

  function Unmix(k: Cipher, body: Bits, passes: nat): (r: Bits)
    requires |body| <= 256
    ensures |r| == |body|
  {
    if |body| == 128 then k.dec(body) else Decrypt(k.enc, |body| / 8 + 1, body, passes)
  }

  function Encipher(k: Cipher, cid: Bits, passes: nat): (r: Bits)
    requires 8 <= |cid| <= 264
    ensures |r| == |cid|
  {
    cid[..8] + Mix(k, cid[8..], passes)
  }

  function Decipher(k: Cipher, cid: Bits, passes: nat): (r: Bits)
    requires 8 <= |cid| <= 264
    ensures |r| == |cid|
  {
    cid[..8] + Unmix(k, cid[8..], passes)
  }

  function Parse(c: Config, cid: Bits): (r: Result<Meta>)
    ensures r.Invalid? <==> |cid| < c.Offset()
  {
    if |cid| < 8 || |cid| - 8 < c.serverBits + c.coreBits then Invalid
    else
      var body := cid[8..];
      Ok(Meta(FromBits(body[..c.serverBits]),
              if c.coreBits > 0 then Some(FromBits(body[c.serverBits..c.serverBits + c.coreBits])) else None))
  }

  lemma UnmixMix(k: Cipher, body: Bits, passes: nat)
    requires |body| <= 256
    requires |body| == 128 ==> forall b: Block :: k.dec(k.enc(b)) == b
    ensures Unmix(k, Mix(k, body, passes), passes) == body
  {
    if |body| != 128 {
      PassesInverse(k.enc, |body| / 8 + 1, body, passes);
    }
  }

  lemma Behind(a: Bits, b: Bits)
    ensures (a + b)[..|a|] == a && (a + b)[|a|..] == b
  {
  }

  /** Deciphering undoes enciphering; the block cipher has to be invertible only
      where it is used as one. */
  lemma DecipherEncipher(k: Cipher, cid: Bits, passes: nat)
    requires 8 <= |cid| <= 264
    requires |cid| == 136 ==> forall b: Block :: k.dec(k.enc(b)) == b
    ensures Decipher(k, Encipher(k, cid, passes), passes) == cid
    ensures Encipher(k, cid, passes)[..8] == cid[..8]
  {
    UnmixMix(k, cid[8..], passes);
    Behind(cid[..8], Mix(k, cid[8..], passes));
  }

  lemma Fields(a: Bits, b: Bits, c: Bits, d: Bits, e: Bits)
    ensures (a + b + c + d + e)[..|a|] == a
    ensures (a + b + c + d + e)[|a|..][..|b|] == b
    ensures (a + b + c + d + e)[|a|..][|b|..|b| + |c|] == c
    ensures (a + b + c + d + e)[|a| + |b| + |c|..][..|d|] == d
  {
    assert a + b + c + d + e == a + (b + (c + (d + e)));
    Behind(a, b + (c + (d + e)));
    Behind(b, c + (d + e));
    assert (b + (c + (d + e)))[|b|..|b| + |c|] == (b + (c + (d + e)))[|b|..][..|c|];
    Behind(c, d + e);
  }

  lemma PlainParts(c: Config, entropy: Bits)
    ensures var plain := c.Plain(entropy);
            && |plain| == c.Offset() + |entropy| + Fill(c.Offset() + |entropy|)
            && plain[..8] == ToBits(c.firstOctet, 8)
            && plain[8..][..c.serverBits] == ToBits(c.serverId, c.serverBits)
            && plain[8..][c.serverBits..c.serverBits + c.coreBits] == ToBits(c.coreId, c.coreBits)
            && plain[c.Offset()..][..|entropy|] == entropy
            && (forall i :: c.Offset() + |entropy| <= i < |plain| ==> !plain[i])
  {
    Fields(ToBits(c.firstOctet, 8), ToBits(c.serverId, c.serverBits), ToBits(c.coreId, c.coreBits), entropy,
           Zeros(Fill(c.Offset() + |entropy|)));
  }

  /** The fields come back reduced to the bits they were given. */
  lemma ParsePlain(c: Config, entropy: Bits)
    ensures Parse(c, c.Plain(entropy))
         == Ok(Meta(c.serverId % Pow2(c.serverBits),
                    if c.coreBits == 0 then None else Some(c.coreId % Pow2(c.coreBits))))
  {
    PlainParts(c, entropy);
    StoreLoad(c.serverId, c.serverBits);
    StoreLoad(c.coreId, c.coreBits);
  }

  lemma PlainLength(c: Config, entropy: Bits)
    requires c.Valid() && |entropy| == c.Entropy()
    ensures |c.Plain(entropy)| % 8 == 0 && 48 <= |c.Plain(entropy)| <= MAX_CID_BITS
    ensures |c.Plain(entropy)| - 8 < c.Offset() + |entropy|
  {
    var n := c.Offset() + |entropy|;
    RoundUp(n, Fill(n));
    assert |c.Plain(entropy)| == n + Fill(n);
  }

  lemma RoundUp(n: nat, r: nat)
    requires n <= MAX_CID_BITS && r < 8 && (n + r) % 8 == 0
    ensures n + r <= MAX_CID_BITS
  {
  }

  /** What is behind the first octet goes out as one block enciphered, or else by the
      equations of the four passes. */
  lemma Mixed(k: Cipher, body: Bits, passes: nat)
    requires |body| <= 256 && passes == 4
    ensures |body| == 128 ==> Mix(k, body, passes) == k.enc(body)
    ensures var len := |body| / 8 + 1;
            var left0, right0 := body[..|body| / 2], body[|body| / 2..];
            var right1 := NewRight(k.enc, len, left0, right0, 1);
            var left1 := NewLeft(k.enc, len, left0, right1, 2);
            var right2 := NewRight(k.enc, len, left1, right1, 3);
            var left2 := NewLeft(k.enc, len, left1, right2, 4);
            |body| != 128 ==> Mix(k, body, passes) == left2 + right2
  {
    FourPasses(k.enc, |body| / 8 + 1, body, passes);
  }

  /** And the first octet goes out as it is. */
  lemma Enciphered(k: Cipher, cid: Bits, passes: nat)
    requires 8 <= |cid| <= 264
    ensures Encipher(k, cid, passes)[..8] == cid[..8]
    ensures Encipher(k, cid, passes)[8..] == Mix(k, cid[8..], passes)
  {
    Behind(cid[..8], Mix(k, cid[8..], passes));
  }

  /** The routing information survives the trip, whatever the random bits; the first
      octet stays readable on the wire, and the length is that of the fields,
      rounded up to a byte. */
  lemma RoundTrip(c: Config, k: Cipher, entropy: Bits, passes: nat)
    requires c.Valid() && |entropy| == c.Entropy()
    requires |c.Plain(entropy)| == 136 ==> forall b: Block :: k.dec(k.enc(b)) == b
    ensures 8 <= |c.Plain(entropy)| <= MAX_CID_BITS
    ensures var cid := Encipher(k, c.Plain(entropy), passes);
            && |cid| == |c.Plain(entropy)|
            && cid[..8] == ToBits(c.firstOctet, 8)
            && Parse(c, Decipher(k, cid, passes))
               == Ok(Meta(c.serverId % Pow2(c.serverBits),
                          if c.coreBits == 0 then None else Some(c.coreId % Pow2(c.coreBits))))
  {
    PlainLength(c, entropy);
    DecipherEncipher(k, c.Plain(entropy), passes);
    PlainParts(c, entropy);
    ParsePlain(c, entropy);
  }

  // ----- The length announced, and validation -----

  /** `cid_len`, in bytes; it leaves out the first octet. */
  function CidLen(c: Config): nat {
    var bytes := (c.serverBits + c.coreBits + c.entropyBits + 7) / 8;
    if bytes < 20 then bytes else 20
  }

  /** `validate`. */
  predicate Validates(c: Config, cid: Bits) {
    && |cid| == 8 * CidLen(c)
    && match Parse(c, cid)
       case Invalid => false
       case Ok(meta) => meta.serverId == c.serverId && (c.coreBits > 0 ==> meta.coreId == Some(c.coreId))
  }

  /** Validation as its caller uses it: of the ID as it came, or deciphered. */
  predicate Admits(c: Config, k: Cipher, cid: Bits, passes: nat)
    requires 8 <= |cid| <= 264
  {
    Validates(c, cid) || Validates(c, Decipher(k, cid, passes))
  }

  /** The IDs generated have the length announced exactly if their fields fill the
      longest ID; otherwise they have one byte more. */
  lemma LengthAnnounced(c: Config, entropy: Bits)
    requires c.Valid() && |entropy| == c.Entropy()
    ensures var n, fields := |c.Plain(entropy)|, c.serverBits + c.coreBits + c.entropyBits;
            && (n == 8 * CidLen(c) <==> fields > MAX_CID_BITS - 8)
            && (fields <= MAX_CID_BITS - 8 ==> n == 8 * (CidLen(c) + 1))
  {
    PlainParts(c, entropy);
    PlainLength(c, entropy);
  }

  lemma {:induction false} FromBitsBound(b: Bits)
    ensures FromBits(b) < Pow2(|b|)
  {
    if b != [] {
      FromBitsBound(b[..|b| - 1]);
    }
  }

  /** The configured numbers fit their fields. */
  predicate NumbersFit(c: Config) {
    c.serverId < Pow2(c.serverBits) && (c.coreBits > 0 ==> c.coreId < Pow2(c.coreBits))
  }

  lemma ValidOnlyFitting(c: Config, cid: Bits)
    requires Validates(c, cid)
    ensures NumbersFit(c)
  {
    var body := cid[8..];
    FromBitsBound(body[..c.serverBits]);
    FromBitsBound(body[c.serverBits..c.serverBits + c.coreBits]);
  }

  /** A generated ID should always be admitted. It is exactly if its fields fill the
      longest ID and the configured numbers fit theirs. */
  lemma OwnAdmittedIff(c: Config, k: Cipher, entropy: Bits, passes: nat)
    requires c.Valid() && |entropy| == c.Entropy()
    requires |c.Plain(entropy)| == 136 ==> forall b: Block :: k.dec(k.enc(b)) == b
    ensures 8 <= |c.Plain(entropy)| <= MAX_CID_BITS
    ensures Admits(c, k, Encipher(k, c.Plain(entropy), passes), passes)
       <==> c.serverBits + c.coreBits + c.entropyBits > MAX_CID_BITS - 8 && NumbersFit(c)
  {
    RoundTrip(c, k, entropy, passes);
    LengthAnnounced(c, entropy);
    var cid := Encipher(k, c.Plain(entropy), passes);
    if Validates(c, cid) {
      ValidOnlyFitting(c, cid);
    }
    if Validates(c, Decipher(k, cid, passes)) {
      ValidOnlyFitting(c, Decipher(k, cid, passes));
    }
    if NumbersFit(c) {
      SmallRemainder(c.serverId, Pow2(c.serverBits));
      if c.coreBits > 0 {
        SmallRemainder(c.coreId, Pow2(c.coreBits));
      }
    }
  }

  lemma SmallRemainder(v: nat, m: nat)
    requires v < m
    ensures v % m == v
  {
  }

  /** The configuration of the documentation's example, 16 bits each for server and
      core and 38 random ones: every ID it generates is refused. */
  lemma ExampleRefused(c: Config, k: Cipher, entropy: Bits, passes: nat)
    requires c.serverBits == 16 && c.coreBits == 16 && c.entropyBits == 38 && |entropy| == 38
    ensures 8 <= |c.Plain(entropy)| <= MAX_CID_BITS
    ensures !Admits(c, k, Encipher(k, c.Plain(entropy), passes), passes)
  {
    PlainParts(c, entropy);
    OwnAdmittedIff(c, k, entropy, passes);
  }

  // ----- The generator as it runs -----

  /** Stores a field behind those already there. */
  method Store(full: array<bool>, offset: nat, field: Bits, ghost done: Bits)
    requires |done| == offset && offset + |field| <= full.Length
    requires full[..] == done + Zeros(full.Length - offset)
    modifies full
    ensures full[..] == done + field + Zeros(full.Length - offset - |field|)
  {
    CopyInto(full, offset, field);
  }

  method Trim(full: array<bool>, length: nat, ghost done: Bits) returns (cid: array<bool>)
    requires |done| <= length <= full.Length && full[..] == done + Zeros(full.Length - |done|)
    ensures fresh(cid) && cid[..] == done + Zeros(length - |done|)
  {
    cid := new bool[length](i requires 0 <= i < length reads full => full[i]);
    assert cid[..] == full[..][..length];
  }

  /** `build_cid`, with the random bits as a parameter. */
  method BuildCid(c: Config, entropy: Bits) returns (cid: array<bool>)
    requires c.Valid() && |entropy| == c.Entropy()
    ensures fresh(cid) && cid[..] == c.Plain(entropy)
  {
    PlainLength(c, entropy);
    PlainParts(c, entropy);
    var full := new bool[MAX_CID_BITS](_ => false);
    ghost var first, server := ToBits(c.firstOctet, 8), ToBits(c.serverId, c.serverBits);
    ghost var core := ToBits(c.coreId, c.coreBits);
    Store(full, 0, ToBits(c.firstOctet, 8), []);
    var offset := 8;
    Store(full, offset, ToBits(c.serverId, c.serverBits), first);
    offset := offset + c.serverBits;
    if c.coreBits != 0 {
      Store(full, offset, ToBits(c.coreId, c.coreBits), first + server);
      offset := offset + c.coreBits;
    }
    Store(full, offset, entropy, first + server + core);
    offset := offset + |entropy|;
    cid := Trim(full, offset + Fill(offset), first + server + core + entropy);
  }

  method Generate(c: Config, k: Cipher, entropy: Bits) returns (cid: array<bool>)
    requires c.Valid() && |entropy| == c.Entropy()
    ensures fresh(cid) && 8 <= |c.Plain(entropy)| <= MAX_CID_BITS
    ensures cid[..] == Encipher(k, c.Plain(entropy), 4)
  {
    PlainLength(c, entropy);
    cid := BuildCid(c, entropy);
    EncipherInPlace(k, cid);
  }

  method EncipherInPlace(k: Cipher, cid: array<bool>)
    requires 8 <= cid.Length <= 264
    modifies cid
    ensures cid[..] == Encipher(k, old(cid[..]), 4)
  {
    assert !Odd(4);
    EncipherPasses(k, cid, 4);
  }

  lemma EncipherParts(k: Cipher, cid: Bits, mixed: Bits, passes: nat)
    requires 8 <= |cid| <= 264 && mixed == Mix(k, cid[8..], passes)
    ensures Encipher(k, cid, passes) == cid[..8] + mixed
  {
  }

  lemma DecipherParts(k: Cipher, cid: Bits, mixed: Bits, passes: nat)
    requires 8 <= |cid| <= 264 && mixed == Unmix(k, cid[8..], passes)
    ensures Decipher(k, cid, passes) == cid[..8] + mixed
  {
  }

  method EncipherPasses(k: Cipher, cid: array<bool>, passes: nat)
    requires 8 <= cid.Length <= 264 && !Odd(passes)
    modifies cid
    ensures cid[..] == Encipher(k, old(cid[..]), passes)
  {
    var body := cid[8..];
    ghost var before := cid[..];
    assert before[..8] == cid[..8] && before[8..] == body;
    if cid.Length == 136 {
      CopyInto(cid, 8, k.enc(body));
      EncipherParts(k, before, k.enc(body), passes);
    } else {
      var cidLen := |body| / 8 + 1;
      EncryptPasses(k.enc, cid, 8, cidLen, passes);
      EncipherParts(k, before, Encrypt(k.enc, cidLen, body, passes), passes);
    }
  }

  /** `decrypt`; an empty connection ID makes it panic. */
  method DecipherInPlace(k: Cipher, cid: array<bool>) returns (ok: bool)
    requires cid.Length == 0 || 8 <= cid.Length <= 264
    modifies cid
    ensures ok <==> cid.Length > 0
    ensures ok ==> cid[..] == Decipher(k, old(cid[..]), 4)
  {
    if cid.Length == 0 {
      return false;
    }
    assert !Odd(4);
    DecipherPasses(k, cid, 4);
    return true;
  }

  method DecipherPasses(k: Cipher, cid: array<bool>, passes: nat)
    requires 8 <= cid.Length <= 264 && !Odd(passes)
    modifies cid
    ensures cid[..] == Decipher(k, old(cid[..]), passes)
  {
    var body := cid[8..];
    ghost var before := cid[..];
    assert before[..8] == cid[..8] && before[8..] == body;
    if cid.Length == 136 {
      CopyInto(cid, 8, k.dec(body));
      DecipherParts(k, before, k.dec(body), passes);
    } else {
      var cidLen := |body| / 8 + 1;
      DecryptPasses(k.enc, cid, 8, cidLen, passes);
      DecipherParts(k, before, Decrypt(k.enc, cidLen, body, passes), passes);
    }
  }
}
