/** Shared by the components: optional values, bytes, powers of two and division. */
module Basics {

  datatype Option<T> = None | Some(value: T)

  type Byte = b: int | 0 <= b < 256

  type Bytes = seq<Byte>

  function Pow2(n: nat): (r: nat)
    ensures r > 0
  {
    if n == 0 then 1 else 2 * Pow2(n - 1)
  }

  /** Quotient and remainder are determined by what they are for. */
  lemma DivisionUnique(v: nat, m: nat, q: nat, r: nat)
    requires v == q * m + r && r < m
    ensures v / m == q && v % m == r
  {
    var q', r' := v / m, v % m;
    assert v == q' * m + r';
    assert (q - q') * m == r' - r;
    Multiple(q - q', m);
  }

  lemma Multiple(d: int, m: nat)
    ensures d >= 1 ==> d * m >= m
    ensures d <= -1 ==> d * m + m <= 0
  {
    if d >= 1 {
      assert d * m >= 1 * m;
    } else if d <= -1 {
      assert d * m <= -1 * m;
    }
  }

  /** Number of values of a 64-bit word: `usize` and `u64`. */
  const WORD: nat := 0x1_0000_0000_0000_0000

  /** `usize::wrapping_add(t, 1)`. */
  function WrappingInc(t: nat): (r: nat)
    requires t < WORD
    ensures r < WORD
  {
    if t + 1 == WORD then 0 else t + 1
  }

  /** A wrapping counter holds the count modulo its size. */
  lemma WrappingCount(n: nat)
    ensures WrappingInc(n % WORD) == (n + 1) % WORD
  {
    NextRemainder(n, WORD);
  }

  lemma NextRemainder(n: nat, size: nat)
    requires size > 1
    ensures (n + 1) % size == if n % size + 1 == size then 0 else n % size + 1
  {
    var q, r := n / size, n % size;
    assert n == q * size + r;
    if r + 1 == size {
      assert n + 1 == (q + 1) * size + 0;
      DivisionUnique(n + 1, size, q + 1, 0);
    } else {
      DivisionUnique(n + 1, size, q, r + 1);
    }
  }

  /** Wrapped counts agree exactly if the counts differ by whole turns. */
  lemma WrappedEqual(a: nat, b: nat, size: nat)
    requires size > 0 && a <= b
    ensures a % size == b % size <==> (b - a) % size == 0
  {
    if a % size == b % size {
      WholeTurns(a, b, size, a / size, b / size, a % size);
    }
    if (b - a) % size == 0 {
      SameTurn(a, b, size, a / size, (b - a) / size, a % size);
    }
  }

  lemma WholeTurns(a: nat, b: nat, size: nat, q: nat, p: nat, r: nat)
    requires size > 0 && a <= b && a == q * size + r && b == p * size + r
    ensures (b - a) % size == 0
  {
    var d := p - q;
    assert b - a == d * size;
    Multiple(d, size);
    DivisionUnique(b - a, size, d, 0);
  }

  lemma SameTurn(a: nat, b: nat, size: nat, q: nat, d: nat, r: nat)
    requires r < size && a == q * size + r && b - a == d * size
    ensures b % size == r
  {
    assert b == (q + d) * size + r;
    DivisionUnique(b, size, q + d, r);
  }
}
