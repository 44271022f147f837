/** Authenticated encryption with key rotation. The cipher itself is a parameter. */
module AeadKeys {
  import opened Basics

  type Key = Bytes

  /** An AEAD algorithm: `seal` appends the tag, `unseal` checks it, and `dirt` is what
      a failed attempt leaves in the buffer. */
  datatype Scheme = Scheme(tagLen: nat, nonceLen: nat,
                           seal: (Key, Bytes, Bytes, Bytes) -> Bytes,
                           unseal: (Key, Bytes, Bytes, Bytes) -> Option<Bytes>,
                           dirt: (Key, Bytes, Bytes, Bytes) -> Bytes)

  /** What an AEAD promises of one sealed text: of the keys tried and with the
      associated data `tried`, it can be unsealed exactly with the sealing key, if the
      associated data is the sealed one. (No fixed-size tag can promise it of all
      keys and data at once, so it is asked for only of those in play.) */
  ghost predicate Binds(a: Scheme, keys: seq<Key>, key: Key, nonce: Bytes, ad: Bytes, plain: Bytes, tried: Bytes) {
    && |a.seal(key, nonce, ad, plain)| == |plain| + a.tagLen
    && forall i :: 0 <= i < |keys| ==>
         a.unseal(keys[i], nonce, tried, a.seal(key, nonce, ad, plain))
         == if keys[i] == key && tried == ad then Some(plain) else None
  }

  /** A sealed text with its nonce behind. */
  function Pack(a: Scheme, key: Key, nonce: Bytes, ad: Bytes, plain: Bytes): (r: Bytes)
    ensures |nonce| <= |r| && r[|r| - |nonce|..] == nonce
    ensures r[..|r| - |nonce|] == a.seal(key, nonce, ad, plain)
  {
    a.seal(key, nonce, ad, plain) + nonce
  }

  /** What one key makes of a packed text. */
  function Unpack(a: Scheme, key: Key, ad: Bytes, packed: Bytes): (r: Option<Bytes>)
    ensures |packed| < a.tagLen + a.nonceLen ==> r == None
  {
    if |packed| < a.tagLen + a.nonceLen then None
    else
      var n := |packed| - a.nonceLen;
      a.unseal(key, packed[n..], ad, packed[..n])
  }

  /** What the first key to open a packed text makes of it. */
  function FirstUnpack(a: Scheme, keys: seq<Key>, ad: Bytes, packed: Bytes): Option<Bytes> {
    if keys == [] then None
    else
      var r := Unpack(a, keys[0], ad, packed);
      if r.Some? then r else FirstUnpack(a, keys[1..], ad, packed)
  }

  ghost predicate Opens(a: Scheme, keys: seq<Key>, ad: Bytes, packed: Bytes, i: nat) {
    && i < |keys| && Unpack(a, keys[i], ad, packed).Some?
    && forall j :: 0 <= j < i ==> Unpack(a, keys[j], ad, packed) == None
  }

  /** It is that of the first key that opens, and nothing exactly if none does. */
  lemma {:induction false} FirstUnpackIff(a: Scheme, keys: seq<Key>, ad: Bytes, packed: Bytes)
    ensures FirstUnpack(a, keys, ad, packed) == None <==>
            forall i :: 0 <= i < |keys| ==> Unpack(a, keys[i], ad, packed) == None
    ensures forall i: nat :: Opens(a, keys, ad, packed, i) ==>
              FirstUnpack(a, keys, ad, packed) == Unpack(a, keys[i], ad, packed)
  {
    FirstUnpackFrom(a, keys, ad, packed, 0);
    assert keys[0..] == keys;
  }

  lemma {:induction false} FirstUnpackFrom(a: Scheme, keys: seq<Key>, ad: Bytes, packed: Bytes, k: nat)
    requires k <= |keys|
    ensures FirstUnpack(a, keys[k..], ad, packed) == None <==>
            forall i :: k <= i < |keys| ==> Unpack(a, keys[i], ad, packed) == None
    ensures forall i: nat :: k <= i && Opens(a, keys, ad, packed, i) ==>
              FirstUnpack(a, keys[k..], ad, packed) == Unpack(a, keys[i], ad, packed)
    decreases |keys| - k
  {
    if k < |keys| {
      FirstUnpackFrom(a, keys, ad, packed, k + 1);
      assert keys[k..][1..] == keys[k + 1..];
    }
  }

  /** A packed text opens under a list of keys exactly if it holds the sealing key and
      the associated data is the same, wherever in the list the key is. */
  lemma {:induction false} PackedOpens(a: Scheme, keys: seq<Key>, key: Key, nonce: Bytes, ad: Bytes, plain: Bytes,
                                       tried: Bytes)
    requires Binds(a, keys, key, nonce, ad, plain, tried) && |nonce| == a.nonceLen
    ensures FirstUnpack(a, keys, tried, Pack(a, key, nonce, ad, plain))
         == if key in keys && tried == ad then Some(plain) else None
  {
    PackedOpensFrom(a, keys, key, nonce, ad, plain, tried, 0);
    assert keys[0..] == keys;
  }

  lemma {:induction false} PackedOpensFrom(a: Scheme, keys: seq<Key>, key: Key, nonce: Bytes, ad: Bytes, plain: Bytes,
                                           tried: Bytes, k: nat)
    requires Binds(a, keys, key, nonce, ad, plain, tried) && |nonce| == a.nonceLen && k <= |keys|
    ensures FirstUnpack(a, keys[k..], tried, Pack(a, key, nonce, ad, plain))
         == if key in keys[k..] && tried == ad then Some(plain) else None
    decreases |keys| - k
  {
    if k < |keys| {
      var packed, n := Pack(a, key, nonce, ad, plain), |a.seal(key, nonce, ad, plain)|;
      assert packed[n..] == nonce && packed[..n] == a.seal(key, nonce, ad, plain);
      PackedOpensFrom(a, keys, key, nonce, ad, plain, tried, k + 1);
      assert keys[k..][1..] == keys[k + 1..];
      assert key in keys[k..] <==> key == keys[k] || key in keys[k + 1..];
    }
  }

  // ----- The cached ciphers -----

  /** A mutable byte vector. */
  class ByteVec {
    var data: Bytes

    constructor ()
      ensures data == []
    {
      data := [];
    }
  }

  class KeyStore {
    var active: Key
    var passive: seq<Key>
    var revision: nat

    constructor (active: Key, passive: seq<Key>, revision: nat)
      ensures Keys() == [active] + passive && this.revision == revision
    {
      this.active, this.passive, this.revision := active, passive, revision;
    }

    /** The keys in the order they are tried. */
    ghost function Keys(): seq<Key>
      reads this
    {
      [active] + passive
    }
  }

  class Aead {
    const scheme: Scheme
    const keyStore: KeyStore
    var ciphers: seq<Key>
    var revision: nat

    /** The keys the next call uses. */
    ghost function Current(): seq<Key>
      reads this, keyStore
    {
      if revision != keyStore.revision then keyStore.Keys() else ciphers
    }

    constructor (scheme: Scheme, keyStore: KeyStore)
      ensures this.scheme == scheme && this.keyStore == keyStore
      ensures ciphers == keyStore.Keys() && revision == keyStore.revision
    {
      this.scheme, this.keyStore := scheme, keyStore;
      ciphers, revision := [], 0;
      new;
      UpdateCiphers();
    }

    method UpdateCiphers()
      modifies this`ciphers, this`revision
      ensures ciphers == keyStore.Keys() == [keyStore.active] + keyStore.passive && revision == keyStore.revision
    {
      ciphers := [];
      ciphers := ciphers + [keyStore.active];
      ciphers := ciphers + keyStore.passive;
      revision := keyStore.revision;
    }

    method CompareAndUpdateCiphers()
      modifies this`ciphers, this`revision
      ensures ciphers == old(Current()) == Current() && revision == keyStore.revision
    {
      if revision != keyStore.revision {
        UpdateCiphers();
      }
    }

    /** One attempt: on failure the vector may hold anything. */
    method TryUnpack(key: Key, ad: Bytes, text: ByteVec) returns (ok: bool)
      modifies text
      ensures var r := Unpack(scheme, key, ad, old(text.data));
              ok == r.Some? && (ok ==> text.data == r.value)
    {
      if |text.data| < scheme.tagLen + scheme.nonceLen {
        return false;
      }
      var n := |text.data| - scheme.nonceLen;
      var nonce := text.data[n..];
      text.data := text.data[..n];
      match scheme.unseal(key, nonce, ad, text.data) {
        case Some(plain) =>
          text.data := plain;
          return true;
        case None =>
          text.data := scheme.dirt(key, nonce, ad, text.data);
          return false;
      }
    }

    /** `unpack_and_decrypt`: the keys are tried in order on the original text, which
        is restored between attempts and, when every key fails, at the end. */
    method UnpackAndDecrypt(ad: Bytes, text: ByteVec, fallback: ByteVec) returns (ok: bool)
      requires text != fallback
      modifies this`ciphers, this`revision, text, fallback
      ensures ciphers == old(Current()) && revision == keyStore.revision
      ensures var r := FirstUnpack(scheme, old(Current()), ad, old(text.data));
              ok == r.Some? && text.data == (if ok then r.value else old(text.data))
      ensures fallback.data == []
    {
      CompareAndUpdateCiphers();
      fallback.data := text.data;
      for i := 0 to |ciphers|
        invariant ciphers == old(Current()) && revision == keyStore.revision
        invariant text.data == fallback.data == old(text.data)
        invariant FirstUnpack(scheme, ciphers, ad, old(text.data))
               == FirstUnpack(scheme, ciphers[i..], ad, old(text.data))
      {
        assert ciphers[i..][1..] == ciphers[i + 1..];
        var opens := TryUnpack(ciphers[i], ad, text);
        if opens {
          fallback.data := [];
          return true;
        }
        text.data := fallback.data;
      }
      fallback.data := [];
      return false;
    }

    /** `encrypt_and_pack`, with the nonce as a parameter: always under the active key. */
    method EncryptAndPack(ad: Bytes, text: ByteVec, nonce: Bytes)
      requires ciphers != []
      modifies this`ciphers, this`revision, text
      ensures ciphers == old(Current()) && revision == keyStore.revision
      ensures text.data == Pack(scheme, old(Current())[0], nonce, ad, old(text.data))
    {
      CompareAndUpdateCiphers();
      text.data := scheme.seal(ciphers[0], nonce, ad, text.data);
      text.data := text.data + nonce;
    }
  }

  // ----- Rotation over a run -----

  /** The key store as the calls find it, one after the other. */
  datatype Store = Store(keys: seq<Key>, revision: nat)

  /** The ciphers call `i` uses, the first call being the constructor. */
  function Used(calls: seq<Store>, i: nat): seq<Key>
    requires i < |calls|
  {
    if i == 0 || calls[i - 1].revision != calls[i].revision then calls[i].keys else Used(calls, i - 1)
  }

  /** From one call to the next, the keys do not change without the revision. */
  ghost predicate Announced(calls: seq<Store>) {
    forall i, j :: 0 <= i && j == i + 1 && j < |calls| ==> Announces(calls[i], calls[j])
  }

  ghost predicate Announces(s: Store, t: Store) {
    s.revision == t.revision ==> s.keys == t.keys
  }

  ghost predicate AlwaysCurrent(calls: seq<Store>) {
    forall i :: 0 <= i < |calls| ==> Used(calls, i) == calls[i].keys
  }

  /** Every call uses the keys in the store exactly if every change is announced. */
  lemma AlwaysCurrentIff(calls: seq<Store>)
    ensures AlwaysCurrent(calls) <==> Announced(calls)
  {
    if AlwaysCurrent(calls) {
      forall i, j | 0 <= i && j == i + 1 && j < |calls| ensures Announces(calls[i], calls[j]) {
        assert Used(calls, i) == calls[i].keys && Used(calls, j) == calls[j].keys;
      }
    }
    if Announced(calls) {
      forall i | 0 <= i < |calls| ensures Used(calls, i) == calls[i].keys {
        UsedCurrent(calls, i);
      }
    }
  }

  lemma {:induction false} UsedCurrent(calls: seq<Store>, i: nat)
    requires i < |calls| && Announced(calls)
    ensures Used(calls, i) == calls[i].keys
  {
    if i > 0 {
      UsedCurrent(calls, i - 1);
      assert Announces(calls[i - 1], calls[i]);
    }
  }

  /** The run is that of an `Aead`: what the next call uses is its `Current` keys. */
  lemma UsedIsCurrent(calls: seq<Store>, i: nat, aead: Aead)
    requires i + 1 < |calls|
    requires aead.ciphers == Used(calls, i) && aead.revision == calls[i].revision
    requires aead.keyStore.Keys() == calls[i + 1].keys && aead.keyStore.revision == calls[i + 1].revision
    ensures aead.Current() == Used(calls, i + 1)
  {
  }
}
