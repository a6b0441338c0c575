/** 64-bit words: shifts, bitwise operators and rotations. */
module Words {
  import opened Int64
  import opened Bits

  const MAX_BITS: nat := 64

  /** `x << n` and `x >> n` of section 6.5.7 of ISO/IEC 9899:2011 on uint64_t. */
  function ShiftLeft(x: U64, n: nat): U64
    requires n < MAX_BITS
  {
    Raise(x, n) % TWO_64
  }

  function ShiftRight(x: U64, n: nat): U64
    requires n < MAX_BITS
  {
    Lower(x, n)
  }

  /** The shifts are the product and the quotient that the standard asks for. */
  lemma ShiftsArePowers(x: U64, n: nat)
    requires n < MAX_BITS
    ensures ShiftLeft(x, n) == (x * Pow2(n)) % TWO_64
    ensures ShiftRight(x, n) == x / Pow2(n)
  {
    RaiseIsProduct(x, n);
    LowerIsQuotient(x, n);
  }

  /** `x & y`, `x | y` and `x ^ y` on uint64_t. */
  function Bitwise64(x: U64, y: U64, f: (bool, bool) -> bool): (r: U64)
    requires !f(false, false)
  {
    Pow64();
    BitwiseBound(x, y, f, 64);
    Bitwise(x, y, f)
  }

  function RotateLeft(x: U64, r: U64): U64 {
    var n := r % MAX_BITS;
    if n == 0 then x else Bitwise64(ShiftLeft(x, n), ShiftRight(x, MAX_BITS - n), Either)
  }

  function RotateRight(x: U64, r: U64): U64 {
    var n := r % MAX_BITS;
    if n == 0 then x else Bitwise64(ShiftRight(x, n), ShiftLeft(x, MAX_BITS - n), Either)
  }

  /** Exclusive or is the sum of two words without its carries. */
  lemma XorWord(x: U64, y: U64)
    ensures Bitwise64(x, y, OneOf) + 2 * And(x, y) == x + y
  {
    XorAndSum(x, y);
  }
}
