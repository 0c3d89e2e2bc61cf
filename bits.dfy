/** Unsigned 64-bit (`size_t`) arithmetic as the kernels and the allocator use it:
    values below 2^64, additions that wrap, and the bitwise `&` and `~` used to
    round an element count up to a multiple of four. */
module Bits {

  /** 2^64: the number of distinct `size_t` values. */
  const SIZE_MODULUS: nat := 0x1_0000_0000_0000_0000

  /** The width of `size_t`, in bits. */
  const SIZE_BITS: nat := 64

  type SizeT = x: int | 0 <= x < SIZE_MODULUS

  /** `x + y` in `size_t`: the sum modulo 2^64. */
  function WrapAdd(x: SizeT, y: SizeT): (r: SizeT)
    ensures x + y < SIZE_MODULUS ==> r == x + y
    ensures x + y >= SIZE_MODULUS ==> r == x + y - SIZE_MODULUS
  {
    (x + y) % SIZE_MODULUS
  }

  /** `x * y` in `size_t`: the product modulo 2^64. */
  function WrapMul(x: SizeT, y: SizeT): (r: SizeT)
    ensures x * y < SIZE_MODULUS ==> r == x * y
    ensures r <= x * y && (x * y - r) % SIZE_MODULUS == 0
  {
    (x * y) % SIZE_MODULUS
  }

  /** 2^64 is a multiple of 8, so a wrapped multiple of 8 is still one. */
  lemma WrapMulByEight(x: SizeT)
    ensures WrapMul(x, 8) % 8 == 0
  {
    var q := x * 8 / SIZE_MODULUS;
    assert x * 8 == q * SIZE_MODULUS + WrapMul(x, 8);
    assert WrapMul(x, 8) == 8 * (x - q * 0x2000_0000_0000_0000);
  }

  function Pow2(k: nat): (r: nat)
    ensures r >= 1
  {
    if k == 0 then 1 else 2 * Pow2(k - 1)
  }

  /** Bitwise `x & y` on the low `w` bits, taken one bit at a time from the least
      significant end. */
  function BitAnd(x: nat, y: nat, w: nat): (r: nat)
    ensures r <= x && r <= y
  {
    if w == 0 then 0
    else 2 * BitAnd(x / 2, y / 2, w - 1) + (if x % 2 == 1 && y % 2 == 1 then 1 else 0)
  }

  /** Bitwise `~x` on the low `w` bits. */
  function BitNot(x: nat, w: nat): nat
  {
    if w == 0 then 0 else 2 * BitNot(x / 2, w - 1) + (1 - x % 2)
  }

  /** On a number of `w` bits, `x` and `~x` have no one-bit in common and
      together set all `w` bits. */
  lemma {:induction false} BitNotComplements(x: nat, w: nat)
    requires x < Pow2(w)
    ensures x + BitNot(x, w) == Pow2(w) - 1
    ensures BitAnd(x, BitNot(x, w), w) == 0
  {
    if w > 0 {
      BitNotComplements(x / 2, w - 1);
    }
  }

  lemma {:induction false} Pow2Add(a: nat, b: nat)
    ensures Pow2(a + b) == Pow2(a) * Pow2(b)
  {
    if a > 0 {
      Pow2Add(a - 1, b);
    }
  }

  lemma Pow2Of16()
    ensures Pow2(16) == 0x1_0000
  {
    assert Pow2(4) == 16;
    Pow2Add(4, 4);
    Pow2Add(8, 8);
  }

  lemma Pow2Of64()
    ensures Pow2(64) == SIZE_MODULUS
  {
    Pow2Of16();
    Pow2Add(16, 16);
    Pow2Add(32, 32);
  }

  /** 2^64 is four times 2^62, so a `size_t` divided by four fits in 62 bits. */
  lemma Pow2Of62()
    ensures 4 * Pow2(62) == SIZE_MODULUS
  {
    Pow2Of64();
    assert Pow2(64) == 2 * Pow2(63) == 4 * Pow2(62);
  }

  /** And-ing with `w` one-bits keeps every number that fits in `w` bits. */
  lemma {:induction false} AndWithOnes(x: nat, w: nat)
    requires x < Pow2(w)
    ensures BitAnd(x, BitNot(0, w), w) == x
  {
    if w > 0 {
      AndWithOnes(x / 2, w - 1);
    }
  }

  /** `~3` is the all-ones mask shifted left by two places. */
  lemma NotThree(w: nat)
    requires w >= 2
    ensures BitNot(3, w) == 4 * BitNot(0, w - 2)
  {
    assert BitNot(3, w) == 2 * BitNot(1, w - 1);
  }

  /** And-ing with a mask whose two low bits are clear drops the two low bits of `m`. */
  lemma AndTimesFour(m: nat, z: nat, w: nat)
    requires w >= 2
    ensures BitAnd(m, 4 * z, w) == 4 * BitAnd(m / 4, z, w - 2)
  {
    assert BitAnd(m, 4 * z, w) == 2 * BitAnd(m / 2, 2 * z, w - 1);
    assert (m / 2) / 2 == m / 4;
  }

  /** In `size_t`, `m & ~3` clears the two low bits: it is `m` minus `m mod 4`. */
  lemma ClearLowTwoBits(m: SizeT)
    ensures BitAnd(m, BitNot(3, SIZE_BITS), SIZE_BITS) == m - m % 4
  {
    var q := m / 4;
    Pow2Of62();
    AndWithOnes(q, SIZE_BITS - 2);
    NotThree(SIZE_BITS);
    AndTimesFour(m, BitNot(0, SIZE_BITS - 2), SIZE_BITS);
    assert m - m % 4 == 4 * q;
  }

  /** `m - m % 4` is the largest multiple of four at or below `m`. */
  lemma RoundDownFour(m: nat)
    ensures (m - m % 4) % 4 == 0 && m - m % 4 <= m < m - m % 4 + 4
  {
    FourTimesMod(m / 4);
    assert m - m % 4 == 4 * (m / 4);
  }

  lemma FourTimesMod(q: nat)
    ensures (4 * q) % 4 == 0
  {
  }

  /** Below four nothing survives `& ~3`. */
  lemma ClearLowTwoBitsBelowFour(m: SizeT)
    requires m < 4
    ensures BitAnd(m, BitNot(3, SIZE_BITS), SIZE_BITS) == 0
  {
    assert m / 4 == 0;
    AndTimesFour(m, BitNot(0, SIZE_BITS - 2), SIZE_BITS);
    NotThree(SIZE_BITS);
  }
}
