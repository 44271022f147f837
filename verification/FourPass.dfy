/** The four-pass Feistel cipher over a bit string of any length up to two blocks.

    Bytes are their bits, most significant first. The block cipher is any function
    from blocks to blocks. */
module FourPass {
  import opened Basics

  type Bits = seq<bool>

  type Block = b: Bits | |b| == 128 witness seq(128, _ => false)

  function Zeros(n: nat): (z: Bits)
    ensures |z| == n && forall i :: 0 <= i < n ==> !z[i]
  {
    seq(n, _ => false)
  }

  function Xor(a: Bits, b: Bits): (r: Bits)
    requires |a| == |b|
    ensures |r| == |a| && forall i :: 0 <= i < |a| ==> r[i] == (a[i] != b[i])
  {
    seq(|a|, i requires 0 <= i < |a| => a[i] != b[i])
  }

  lemma XorTwice(a: Bits, b: Bits)
    requires |a| == |b|
    ensures Xor(Xor(a, b), b) == a
  {
  }

  // ----- Numbers as bits -----

  /** The `n` low bits of a number, most significant first (`store_be`). */
  function ToBits(v: nat, n: nat): (r: Bits)
    ensures |r| == n
  {
    if n == 0 then [] else ToBits(v / 2, n - 1) + [v % 2 == 1]
  }

  /** `load_be`. */
  function FromBits(b: Bits): nat {
    if b == [] then 0 else 2 * FromBits(b[..|b| - 1]) + (if b[|b| - 1] then 1 else 0)
  }

  lemma ModHalf(v: nat, m: nat)
    requires m > 0
    ensures v % (2 * m) == 2 * ((v / 2) % m) + v % 2
  {
    var q, r := (v / 2) / m, (v / 2) % m;
    assert v == 2 * (q * m + r) + v % 2;
    assert 2 * (q * m) == q * (2 * m);
    DivisionUnique(v, 2 * m, q, 2 * r + v % 2);
  }

  /** Reading back what was stored gives the number modulo the width. */
  lemma {:induction false} StoreLoad(v: nat, n: nat)
    ensures FromBits(ToBits(v, n)) == v % Pow2(n)
  {
    if n > 0 {
      StoreLoad(v / 2, n - 1);
      ModHalf(v, Pow2(n - 1));
      assert ToBits(v, n)[..n - 1] == ToBits(v / 2, n - 1);
    }
  }

  // ----- The cipher on the two halves -----

  /** The left half at the top of a block, with the length in its last byte and the
      round in the byte before (`expand_left`, which combines them bitwise). */
  function ExpandLeft(b: Block, len: nat, round: nat): Block {
    b[..112] + Or(b[112..120], ToBits(round, 8)) + Or(b[120..], ToBits(len, 8))
  }

  function Or(a: Bits, b: Bits): (r: Bits)
    requires |a| == |b|
    ensures |r| == |a| && forall i :: 0 <= i < |a| ==> r[i] == (a[i] || b[i])
  {
    seq(|a|, i requires 0 <= i < |a| => a[i] || b[i])
  }

  /** The right half at the bottom of a block, with the length in its first byte and
      the round in its second (`expand_right`, which overwrites). */
  function ExpandRight(b: Block, len: nat, round: nat): Block {
    ToBits(len, 8) + ToBits(round, 8) + b[16..]
  }

  /** `n` bits of the enciphered left half, to be mixed into the right half. */
  function FromLeft(enc: Block -> Block, l: Bits, n: nat, len: nat, round: nat): (r: Bits)
    requires |l| <= 128 && n <= 128
    ensures |r| == n
  {
    enc(ExpandLeft(PadLeft(l), len, round))[128 - n..]
  }

  function FromRight(enc: Block -> Block, r: Bits, n: nat, len: nat, round: nat): (l: Bits)
    requires |r| <= 128 && n <= 128
    ensures |l| == n
  {
    enc(ExpandRight(PadRight(r), len, round))[..n]
  }

  function PadLeft(l: Bits): Block
    requires |l| <= 128
  {
    l + Zeros(128 - |l|)
  }

  function PadRight(r: Bits): Block
    requires |r| <= 128
  {
    Zeros(128 - |r|) + r
  }

  datatype Halves = Halves(left: Bits, right: Bits)
  {
    predicate Fit() { |left| <= 128 && |right| <= 128 }

    function Len(): nat { |left| + |right| }
  }

  predicate Odd(i: nat) { i > 0 && !Odd(i - 1) }

  /** Round `i` of the cipher: odd rounds change the right half, even rounds the left.
      `len` is the length in bytes of the whole connection ID. */
  function Round(enc: Block -> Block, len: nat, h: Halves, i: nat): (h': Halves)
    requires h.Fit()
    ensures h'.Fit() && |h'.left| == |h.left| && |h'.right| == |h.right|
  {
    if Odd(i) then h.(right := Xor(h.right, FromLeft(enc, h.left, |h.right|, len, i)))
    else h.(left := Xor(h.left, FromRight(enc, h.right, |h.left|, len, i)))
  }

  /** The rounds `1..k` in order. */
  function Rounds(enc: Block -> Block, len: nat, h: Halves, k: nat): (h': Halves)
    requires h.Fit()
    ensures h'.Fit() && |h'.left| == |h.left| && |h'.right| == |h.right|
  {
    if k == 0 then h else Round(enc, len, Rounds(enc, len, h, k - 1), k)
  }

  /** The rounds `k..1`, in reverse. */
  function Unrounds(enc: Block -> Block, len: nat, h: Halves, k: nat): (h': Halves)
    requires h.Fit()
    ensures h'.Fit() && |h'.left| == |h.left| && |h'.right| == |h.right|
    decreases k
  {
    if k == 0 then h else Unrounds(enc, len, Round(enc, len, h, k), k - 1)
  }

  /** Every round undoes itself, whatever the block cipher. */
  lemma RoundTwice(enc: Block -> Block, len: nat, h: Halves, i: nat)
    requires h.Fit()
    ensures Round(enc, len, Round(enc, len, h, i), i) == h
  {
    if Odd(i) {
      XorTwice(h.right, FromLeft(enc, h.left, |h.right|, len, i));
    } else {
      XorTwice(h.left, FromRight(enc, h.right, |h.left|, len, i));
    }
  }

  lemma {:induction false} RoundsThenBack(enc: Block -> Block, len: nat, h: Halves, k: nat)
    requires h.Fit()
    ensures Unrounds(enc, len, Rounds(enc, len, h, k), k) == h
  {
    if k > 0 {
      var m := Rounds(enc, len, h, k - 1);
      RoundTwice(enc, len, m, k);
      RoundsThenBack(enc, len, h, k - 1);
    }
  }

  lemma {:induction false} BackThenRounds(enc: Block -> Block, len: nat, h: Halves, k: nat)
    requires h.Fit()
    ensures Rounds(enc, len, Unrounds(enc, len, h, k), k) == h
    decreases k
  {
    if k > 0 {
      var m := Round(enc, len, h, k);
      BackThenRounds(enc, len, m, k - 1);
      var first := Unrounds(enc, len, m, k - 1);
      assert Unrounds(enc, len, h, k) == first && Rounds(enc, len, first, k) == Round(enc, len, m, k);
      RoundTwice(enc, len, h, k);
    }
  }

  function Split(b: Bits): (h: Halves)
    ensures |b| <= 256 ==> h.Fit()
    ensures h.left + h.right == b && |h.left| == |b| / 2
  {
    Halves(b[..|b| / 2], b[|b| / 2..])
  }

  function Whole(h: Halves): Bits { h.left + h.right }

  function Encrypt(enc: Block -> Block, len: nat, b: Bits, passes: nat): (r: Bits)
    requires |b| <= 256
    ensures |r| == |b|
  {
    Whole(Rounds(enc, len, Split(b), passes))
  }

  function Decrypt(enc: Block -> Block, len: nat, b: Bits, passes: nat): (r: Bits)
    requires |b| <= 256
    ensures |r| == |b|
  {
    Whole(Unrounds(enc, len, Split(b), passes))
  }

  lemma SplitWhole(h: Halves)
    requires |h.left| == h.Len() / 2
    ensures Split(Whole(h)) == h
  {
  }

  /** For any block function, any length and any number of passes, decryption and
      encryption undo each other. */
  lemma PassesInverse(enc: Block -> Block, len: nat, b: Bits, passes: nat)
    requires |b| <= 256
    ensures Decrypt(enc, len, Encrypt(enc, len, b, passes), passes) == b
    ensures Encrypt(enc, len, Decrypt(enc, len, b, passes), passes) == b
  {
    var h := Split(b);
    RoundsThenBack(enc, len, h, passes);
    BackThenRounds(enc, len, h, passes);
    SplitWhole(Rounds(enc, len, h, passes));
    SplitWhole(Unrounds(enc, len, h, passes));
  }

  // ----- The equations of the cipher -----

  /** Bit `k` of a number, the least significant being bit 0. */
  predicate Bit(v: nat, k: nat) {
    if k == 0 then v % 2 == 1 else Bit(v / 2, k - 1)
  }

  lemma {:induction false} ToBitsAt(v: nat, n: nat, i: nat)
    requires i < n
    ensures ToBits(v, n)[i] == Bit(v, n - 1 - i)
  {
    if i < n - 1 {
      ToBitsAt(v / 2, n - 1, i);
    }
  }

  /** The block an odd pass enciphers, bit by bit: the left half first, combined with the
      pass in the last byte but one and the length in the last. */
  function LeftBlock(left: Bits, len: nat, pass: nat): Block {
    seq(128, k requires 0 <= k < 128 =>
          || (k < |left| && left[k])
          || (112 <= k < 120 && Bit(pass, 119 - k))
          || (120 <= k && Bit(len, 127 - k)))
  }

  /** The block an even pass enciphers: the length, the pass, and the right half last. */
  function RightBlock(right: Bits, len: nat, pass: nat): Block {
    seq(128, k requires 0 <= k < 128 =>
          if k < 8 then Bit(len, 7 - k)
          else if k < 16 then Bit(pass, 15 - k)
          else 128 - |right| <= k && right[k - (128 - |right|)])
  }

  lemma ExpandsLeft(left: Bits, len: nat, pass: nat)
    requires |left| <= 128
    ensures ExpandLeft(PadLeft(left), len, pass) == LeftBlock(left, len, pass)
  {
    var b := PadLeft(left);
    forall k | 0 <= k < 128 ensures ExpandLeft(b, len, pass)[k] == LeftBlock(left, len, pass)[k] {
      if 112 <= k < 120 {
        ToBitsAt(pass, 8, k - 112);
      } else if 120 <= k {
        ToBitsAt(len, 8, k - 120);
      }
    }
  }

  lemma ExpandsRight(right: Bits, len: nat, pass: nat)
    requires |right| <= 128
    ensures ExpandRight(PadRight(right), len, pass) == RightBlock(right, len, pass)
  {
    var b := PadRight(right);
    forall k | 0 <= k < 128 ensures ExpandRight(b, len, pass)[k] == RightBlock(right, len, pass)[k] {
      if k < 8 {
        ToBitsAt(len, 8, k);
      } else if k < 16 {
        ToBitsAt(pass, 8, k - 8);
      }
    }
  }

  /** The right half changed by the last bits of the block made of the left half,
      enciphered. */
  function NewRight(enc: Block -> Block, len: nat, left: Bits, right: Bits, pass: nat): (r: Bits)
    requires |right| <= 128
    ensures |r| == |right|
    ensures var x := enc(LeftBlock(left, len, pass));
            forall k :: 0 <= k < |right| ==> r[k] == (right[k] != x[128 - |right| + k])
  {
    Xor(right, enc(LeftBlock(left, len, pass))[128 - |right|..])
  }

  /** The left half changed by the first bits of the block made of the right half,
      enciphered. */
  function NewLeft(enc: Block -> Block, len: nat, left: Bits, right: Bits, pass: nat): (l: Bits)
    requires |left| <= 128
    ensures |l| == |left|
    ensures var x := enc(RightBlock(right, len, pass));
            forall k :: 0 <= k < |left| ==> l[k] == (left[k] != x[k])
  {
    Xor(left, enc(RightBlock(right, len, pass))[..|left|])
  }

  /** Odd rounds are those with an odd number. */
  lemma {:induction false} OddIsOdd(i: nat)
    ensures Odd(i) <==> i % 2 == 1
  {
    if i > 0 {
      OddIsOdd(i - 1);
    }
  }

  lemma OddChanges(enc: Block -> Block, len: nat, h: Halves, i: nat)
    requires h.Fit() && Odd(i)
    ensures Round(enc, len, h, i) == Halves(h.left, NewRight(enc, len, h.left, h.right, i))
  {
    ExpandsLeft(h.left, len, i);
  }

  lemma EvenChanges(enc: Block -> Block, len: nat, h: Halves, i: nat)
    requires h.Fit() && !Odd(i)
    ensures Round(enc, len, h, i) == Halves(NewLeft(enc, len, h.left, h.right, i), h.right)
  {
    ExpandsRight(h.right, len, i);
  }

  /** A round changes one half only: the right one if its number is odd. */
  lemma RoundChanges(enc: Block -> Block, len: nat, h: Halves, i: nat)
    requires h.Fit()
    ensures i % 2 == 1 ==> Round(enc, len, h, i) == Halves(h.left, NewRight(enc, len, h.left, h.right, i))
    ensures i % 2 == 0 ==> Round(enc, len, h, i) == Halves(NewLeft(enc, len, h.left, h.right, i), h.right)
  {
    OddIsOdd(i);
    if Odd(i) {
      OddChanges(enc, len, h, i);
    } else {
      EvenChanges(enc, len, h, i);
    }
  }

  lemma RoundsNext(enc: Block -> Block, len: nat, h: Halves, k: nat)
    requires h.Fit()
    ensures Rounds(enc, len, h, 0) == h
    ensures Rounds(enc, len, h, k + 1) == Round(enc, len, Rounds(enc, len, h, k), k + 1)
  {
  }

  lemma SameHalves(h: Halves, left: Bits, right: Bits)
    requires Whole(h) == left + right && |h.left| == |left|
    ensures h == Halves(left, right)
  {
    assert Whole(h)[..|left|] == h.left && Whole(h)[|left|..] == h.right;
  }

  lemma RoundsChange(enc: Block -> Block, len: nat, start: Halves, i: nat, h: Halves, h': Halves)
    requires start.Fit() && h == Rounds(enc, len, start, i) && h' == Rounds(enc, len, start, i + 1)
    ensures i % 2 == 0 ==> h' == Halves(h.left, NewRight(enc, len, h.left, h.right, i + 1))
    ensures i % 2 == 1 ==> h' == Halves(NewLeft(enc, len, h.left, h.right, i + 1), h.right)
  {
    RoundsNext(enc, len, start, i);
    RoundChanges(enc, len, h, i + 1);
  }

  /** What one more pass makes of a text with halves `left` and `right`. */
  lemma NextPass(enc: Block -> Block, len: nat, b: Bits, i: nat, left: Bits, right: Bits)
    requires |b| <= 256 && |left| == |b| / 2 && Encrypt(enc, len, b, i) == left + right
    ensures |left| <= 128 && |right| <= 128
    ensures i % 2 == 0 ==> Encrypt(enc, len, b, i + 1) == left + NewRight(enc, len, left, right, i + 1)
    ensures i % 2 == 1 ==> Encrypt(enc, len, b, i + 1) == NewLeft(enc, len, left, right, i + 1) + right
  {
    var h, h' := Rounds(enc, len, Split(b), i), Rounds(enc, len, Split(b), i + 1);
    SameHalves(h, left, right);
    RoundsChange(enc, len, Split(b), i, h, h');
    assert Encrypt(enc, len, b, i + 1) == h'.left + h'.right;
  }

  /** The equations of four-pass encryption in draft-ietf-quic-load-balancers: the text
      is cut in the middle, and the halves change in turn. */
  lemma FourPasses(enc: Block -> Block, len: nat, b: Bits, passes: nat)
    requires |b| <= 256 && passes == 4
    ensures var left0, right0 := b[..|b| / 2], b[|b| / 2..];
            var right1 := NewRight(enc, len, left0, right0, 1);
            var left1 := NewLeft(enc, len, left0, right1, 2);
            var right2 := NewRight(enc, len, left1, right1, 3);
            var left2 := NewLeft(enc, len, left1, right2, 4);
            Encrypt(enc, len, b, passes) == left2 + right2
  {
    var h0 := Split(b);
    var h1 := Rounds(enc, len, h0, passes - 3);
    var h2 := Rounds(enc, len, h0, passes - 2);
    var h3 := Rounds(enc, len, h0, passes - 1);
    RoundsNext(enc, len, h0, passes - 4);
    RoundsNext(enc, len, h0, passes - 3);
    RoundsNext(enc, len, h0, passes - 2);
    RoundsNext(enc, len, h0, passes - 1);
    RoundChanges(enc, len, h0, 1);
    RoundChanges(enc, len, h1, 2);
    RoundChanges(enc, len, h2, 3);
    RoundChanges(enc, len, h3, 4);
  }

  // ----- The cipher as it runs, on whole blocks and in place -----

  function TruncateLeft(b: Block, n: nat): Block
    requires n <= 128
  {
    b[..n] + Zeros(128 - n)
  }

  function TruncateRight(b: Block, n: nat): Block
    requires n <= 128
  {
    Zeros(128 - n) + b[128 - n..]
  }

  lemma MixLeft(l: Bits, b: Block)
    requires |l| <= 128
    ensures Xor(PadLeft(l), TruncateLeft(b, |l|)) == PadLeft(Xor(l, b[..|l|]))
  {
  }

  lemma MixRight(r: Bits, b: Block)
    requires |r| <= 128
    ensures Xor(PadRight(r), TruncateRight(b, |r|)) == PadRight(Xor(r, b[128 - |r|..]))
  {
  }

  /** Blocks that hold the two halves. */
  datatype Blocks = Blocks(left: Block, right: Block)

  function Padded(h: Halves): Blocks
    requires h.Fit()
  {
    Blocks(PadLeft(h.left), PadRight(h.right))
  }

  /** A round on the blocks that hold the halves. */
  lemma OddBlocks(enc: Block -> Block, len: nat, h: Halves, i: nat, x: Block)
    requires h.Fit() && Odd(i) && x == enc(ExpandLeft(PadLeft(h.left), len, i))
    ensures Padded(Round(enc, len, h, i))
         == Blocks(PadLeft(h.left), Xor(PadRight(h.right), TruncateRight(x, |h.right|)))
  {
    OddRight(enc, len, h, i, x, Xor(h.right, x[128 - |h.right|..]));
    MixRight(h.right, x);
  }

  lemma OddRight(enc: Block -> Block, len: nat, h: Halves, i: nat, x: Block, right: Bits)
    requires h.Fit() && Odd(i) && x == enc(ExpandLeft(PadLeft(h.left), len, i))
    requires right == Xor(h.right, x[128 - |h.right|..])
    ensures Round(enc, len, h, i) == Halves(h.left, right)
  {
  }

  lemma EvenBlocks(enc: Block -> Block, len: nat, h: Halves, i: nat, x: Block)
    requires h.Fit() && !Odd(i) && x == enc(ExpandRight(PadRight(h.right), len, i))
    ensures Padded(Round(enc, len, h, i))
         == Blocks(Xor(PadLeft(h.left), TruncateLeft(x, |h.left|)), PadRight(h.right))
  {
    MixLeft(h.left, x);
  }

  method OddRound(enc: Block -> Block, b: Blocks, rightBits: nat, cidLen: nat, index: nat, ghost h: Halves)
    returns (b': Blocks)
    requires h.Fit() && b == Padded(h) && rightBits == |h.right| && Odd(index)
    ensures b' == Padded(Round(enc, cidLen, h, index))
  {
    var temp := b.left;
    temp := ExpandLeft(temp, cidLen, index);
    temp := enc(temp);
    OddBlocks(enc, cidLen, h, index, temp);
    temp := TruncateRight(temp, rightBits);
    b' := b.(right := Xor(b.right, temp));
  }

  method EvenRound(enc: Block -> Block, b: Blocks, leftBits: nat, cidLen: nat, index: nat, ghost h: Halves)
    returns (b': Blocks)
    requires h.Fit() && b == Padded(h) && leftBits == |h.left| && !Odd(index)
    ensures b' == Padded(Round(enc, cidLen, h, index))
  {
    var temp := b.right;
    temp := ExpandRight(temp, cidLen, index);
    temp := enc(temp);
    EvenBlocks(enc, cidLen, h, index, temp);
    temp := TruncateLeft(temp, leftBits);
    b' := b.(left := Xor(b.left, temp));
  }

  method CopyInto(a: array<bool>, at: nat, bits: Bits)
    requires at + |bits| <= a.Length
    modifies a
    ensures a[..] == old(a[..])[..at] + bits + old(a[..])[at + |bits|..]
  {
    for k := 0 to |bits|
      invariant forall i :: 0 <= i < k ==> a[at + i] == bits[i]
      invariant forall i :: 0 <= i < a.Length && !(at <= i < at + k) ==> a[i] == old(a[i])
    {
      a[at + k] := bits[k];
    }
  }

  method ForwardRounds(enc: Block -> Block, b0: Blocks, leftBits: nat, rightBits: nat, cidLen: nat, count: nat,
                       ghost h: Halves)
    returns (b: Blocks)
    requires h.Fit() && b0 == Padded(h) && |h.left| == leftBits && |h.right| == rightBits && !Odd(count)
    ensures b == Padded(Rounds(enc, cidLen, h, count))
  {
    b := b0;
    var index := 0;
    while index < count
      invariant index <= count && !Odd(index)
      invariant b == Padded(Rounds(enc, cidLen, h, index))
    {
      ghost var even := Rounds(enc, cidLen, h, index);
      RoundsNext(enc, cidLen, h, index);
      index := index + 1;
      b := OddRound(enc, b, rightBits, cidLen, index, even);
      ghost var odd := Rounds(enc, cidLen, h, index);
      RoundsNext(enc, cidLen, h, index);
      index := index + 1;
      b := EvenRound(enc, b, leftBits, cidLen, index, odd);
    }
  }

  method BackwardRounds(enc: Block -> Block, b0: Blocks, leftBits: nat, rightBits: nat, cidLen: nat, count: nat,
                        ghost h0: Halves)
    returns (b: Blocks)
    requires h0.Fit() && b0 == Padded(h0) && |h0.left| == leftBits && |h0.right| == rightBits && !Odd(count)
    ensures b == Padded(Unrounds(enc, cidLen, h0, count))
  {
    b := b0;
    ghost var h := h0;
    var index: nat := count;
    while index > 0
      invariant index <= count && !Odd(index)
      invariant |h.left| == leftBits && |h.right| == rightBits && b == Padded(h)
      invariant Unrounds(enc, cidLen, h, index) == Unrounds(enc, cidLen, h0, count)
    {
      b := EvenRound(enc, b, leftBits, cidLen, index, h);
      h := Round(enc, cidLen, h, index);
      index := index - 1;
      b := OddRound(enc, b, rightBits, cidLen, index, h);
      h := Round(enc, cidLen, h, index);
      index := index - 1;
    }
  }

  /** Takes the halves out of the text behind `from`. */
  method TakeOut(text: array<bool>, from: nat, leftBits: nat) returns (b: Blocks)
    requires from <= text.Length <= from + 256 && leftBits == (text.Length - from) / 2
    ensures var h := Split(text[from..]);
            h.Fit() && |h.left| == leftBits && |h.right| == text.Length - from - leftBits && b == Padded(h)
  {
    ghost var h := Split(text[from..]);
    assert h.left == text[from..from + leftBits] && h.right == text[from + leftBits..];
    b := Blocks(PadLeft(text[from..from + leftBits]), PadRight(text[from + leftBits..]));
  }

  /** Writes the halves back over the text they came from. */
  method PutBack(text: array<bool>, from: nat, b: Blocks, leftBits: nat, rightBits: nat, ghost h: Halves)
    requires h.Fit() && b == Padded(h) && leftBits == |h.left| && rightBits == |h.right|
    requires text.Length == from + leftBits + rightBits
    modifies text
    ensures text[..] == old(text[..from]) + Whole(h)
  {
    CopyInto(text, from, b.left[..leftBits]);
    CopyInto(text, from + leftBits, b.right[128 - rightBits..]);
    assert b.left[..leftBits] == h.left && b.right[128 - rightBits..] == h.right;
  }

  /** `encrypt_four_pass` on the part of the text behind `from`, for any even number
      of passes. */
  method EncryptPasses(enc: Block -> Block, text: array<bool>, from: nat, cidLen: nat, count: nat)
    requires from <= text.Length <= from + 256 && !Odd(count)
    modifies text
    ensures text[..] == old(text[..from]) + Encrypt(enc, cidLen, old(text[from..]), count)
  {
    var bits := text.Length - from;
    if bits == 0 {
      return;
    }
    var leftBits := bits / 2;
    ghost var h := Split(text[from..]);
    var b := TakeOut(text, from, leftBits);
    b := ForwardRounds(enc, b, leftBits, bits - leftBits, cidLen, count, h);
    PutBack(text, from, b, leftBits, bits - leftBits, Rounds(enc, cidLen, h, count));
  }

  method DecryptPasses(enc: Block -> Block, text: array<bool>, from: nat, cidLen: nat, count: nat)
    requires from <= text.Length <= from + 256 && !Odd(count)
    modifies text
    ensures text[..] == old(text[..from]) + Decrypt(enc, cidLen, old(text[from..]), count)
  {
    var bits := text.Length - from;
    if bits == 0 {
      return;
    }
    var leftBits := bits / 2;
    ghost var h := Split(text[from..]);
    var b := TakeOut(text, from, leftBits);
    b := BackwardRounds(enc, b, leftBits, bits - leftBits, cidLen, count, h);
    PutBack(text, from, b, leftBits, bits - leftBits, Unrounds(enc, cidLen, h, count));
  }
}
