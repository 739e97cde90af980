/** Arithmetic view of Python's unbounded integers as bit strings. Every
    definition divides by the constant 2 only, which keeps the proofs linear. */
module Bits {

  /** `1 << n` on a Python int. */
  function Pow2(n: nat): (r: nat)
    ensures r >= 1
  {
    if n == 0 then 1 else 2 * Pow2(n - 1)
  }

  /** `(x >> i) & 0x01` on a Python int. Python's `>>` floors, and so does
      Dafny's `/` for a positive divisor, so this is exact for negative `x`
      too (the bits of its two's-complement form). */
  function Bit(x: int, i: nat): (b: nat)
    ensures b < 2
    decreases i
  {
    if i == 0 then x % 2 else Bit(x / 2, i - 1)
  }

  /** `x >> k` on a Python int: floor division by `2^k`. */
  function ShiftRight(x: int, k: nat): int
    decreases k
  {
    if k == 0 then x else ShiftRight(x / 2, k - 1)
  }

  /** Python's ints are infinite two's complement: `~x == -x - 1` has every
      bit of `x` flipped, so the bits `Bit` gives a negative number are those
      of its two's-complement form. */
  lemma {:induction false} BitComplement(x: int, i: nat)
    ensures Bit(-x - 1, i) == 1 - Bit(x, i)
    decreases i
  {
    if i > 0 {
      assert (-x - 1) / 2 == -(x / 2) - 1;
      BitComplement(x / 2, i - 1);
    }
  }

  lemma {:induction false} BitOfZero(i: nat)
    ensures Bit(0, i) == 0
    decreases i
  {
    if i > 0 {
      BitOfZero(i - 1);
    }
  }

  /** `(1 << n) - 1`, the largest value of an `n`-bit field, has exactly its
      low `n` bits set. */
  lemma {:induction false} MaxValueBits(n: nat, i: nat)
    ensures Bit(Pow2(n) - 1, i) == if i < n then 1 else 0
    decreases i
  {
    if n == 0 {
      BitOfZero(i);
    } else if i > 0 {
      assert (Pow2(n) - 1) / 2 == Pow2(n - 1) - 1;
      MaxValueBits(n - 1, i - 1);
    }
  }

  /** Bit `i + k` of `x` is bit `i` of `x >> k`. */
  lemma {:induction false} BitShift(x: int, i: nat, k: nat)
    ensures Bit(x, i + k) == Bit(ShiftRight(x, k), i)
    decreases k
  {
    if k > 0 {
      BitShift(x / 2, i, k - 1);
    }
  }

  /** The number spelled by the low `n` bits of `x`, least significant first. */
  function LowBits(x: int, n: nat): int
  {
    if n == 0 then 0 else LowBits(x, n - 1) + Bit(x, n - 1) * Pow2(n - 1)
  }

  /** Peeling off the lowest bit: the low `n` bits of `x` are its last bit
      followed by the low `n - 1` bits of `x / 2`. */
  lemma {:induction false} LowBitsHalf(x: int, n: nat)
    requires n >= 1
    ensures LowBits(x, n) == x % 2 + 2 * LowBits(x / 2, n - 1)
  {
    if n > 1 {
      LowBitsHalf(x, n - 1);
      assert Bit(x, n - 1) == Bit(x / 2, n - 2);
      assert Pow2(n - 1) == 2 * Pow2(n - 2);
    }
  }

  /** A value that fits in `n` bits is spelled exactly by its low `n` bits. */
  lemma {:induction false} LowBitsOfSmall(x: int, n: nat)
    requires 0 <= x < Pow2(n)
    ensures LowBits(x, n) == x
  {
    if n > 0 {
      LowBitsHalf(x, n);
      LowBitsOfSmall(x / 2, n - 1);
    }
  }

  /** The low `n` bits of any value form a number in `[0, 2^n)`. */
  lemma {:induction false} LowBitsRange(x: int, n: nat)
    ensures 0 <= LowBits(x, n) < Pow2(n)
  {
    if n > 0 {
      LowBitsRange(x, n - 1);
    }
  }
}
