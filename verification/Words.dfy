/** Fixed-width words: the scaling trick that replaces a remainder, and the bits of a byte. */
module Words {
  import opened Powers

  const TWO_32 := 0x1_0000_0000
  type Word = x: int | 0 <= x < TWO_32

  lemma FastModBound(x: Word, n: nat)
    requires 0 < n
    ensures 0 <= x * n / TWO_32 < n
  {
    DivBounds(x * n, TWO_32);
    assert 0 <= x * n <= (TWO_32 - 1) * n by { MulMonoInt(x, TWO_32 - 1, n); }
  }

  /** Scales a 32-bit hash into [0, n): the high word of the product. */
  function FastMod(x: Word, n: nat): (r: nat)
    requires 0 < n
    ensures r < n
  {
    FastModBound(x, n);
    x * n / TWO_32
  }

  predicate Bit(b: bv8, i: nat)
    requires i < 8
  {
    b & (1 << i) != 0
  }

  function WithBit(b: bv8, v: bool, i: nat): bv8
    requires i < 8
  {
    b | ((if v then 1 else 0) << i)
  }

  lemma SetBit(b: bv8, v: bool, i: nat, j: nat)
    requires i < 8 && j < 8
    ensures Bit(WithBit(b, v, i), j) == (Bit(b, j) || (i == j && v))
  {
  }

  function WithoutBit(b: bv8, i: nat): bv8
    requires i < 8
  {
    b & !(1 << i)
  }

  lemma ClearBit(b: bv8, i: nat, j: nat)
    requires i < 8 && j < 8
    ensures Bit(WithoutBit(b, i), j) == (Bit(b, j) && i != j)
  {
  }

  lemma AllBits(j: nat)
    requires j < 8
    ensures Bit(0xFF, j) && !Bit(0, j)
  {
  }
}
