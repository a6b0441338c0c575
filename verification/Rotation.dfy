/** The rotations of the solver as an action of the 64-bit words on each other. */
module Rotation {
  import opened Int64
  import opened Bits
  import opened Words

  /** A 64-bit word is its low 64 bits. */
  lemma SameLowBits(x: U64, y: U64)
    requires forall i: nat :: i < 64 ==> Bit(x, i) == Bit(y, i)
    ensures x == y
  {
    Pow64();
    forall i: nat ensures Bit(x, i) == Bit(y, i) {
      if i >= 64 {
        NoHighBits(x, 64, i);
        NoHighBits(y, 64, i);
      }
    }
    SameBits(x, y);
  }

  lemma BitOfShiftLeft(x: U64, n: nat, i: nat)
    requires n < 64
    ensures Bit(ShiftLeft(x, n), i) == (n <= i < 64 && Bit(x, i - n))
  {
    Pow64();
    LowIsRemainder(Raise(x, n), 64);
    BitOfLow(Raise(x, n), 64, i);
    BitOfRaise(x, n, i);
  }

  lemma BitOfShiftRight(x: U64, n: nat, i: nat)
    requires n < 64
    ensures Bit(ShiftRight(x, n), i) == Bit(x, i + n)
  {
    BitOfLower(x, n, i);
  }

  // Positions around the word, n < 64 places up and down.
  function Up(i: nat, n: nat): nat { if i + n < 64 then i + n else i + n - 64 }
  function Down(i: nat, n: nat): nat
    requires n < 64
  {
    if i >= n then i - n else i + 64 - n
  }

  lemma UpIsModular(i: nat, r: nat)
    requires i < 64
    ensures Up(i, r % 64) == (i + r) % 64
    ensures Down(i, r % 64) == (i - r) % 64
  {
  }

  /** Wrapping at 2^64 does not change what is left modulo 64. */
  lemma WrapKeepsAmount(x: nat)
    ensures (x % TWO_64) % 64 == x % 64
  {
    var q, rest := x / TWO_64, x % TWO_64;
    var many := 0x400_0000_0000_0000;
    assert x == (q * many + rest / 64) * 64 + rest % 64;
    DivisionUnique(x, 64, q * many + rest / 64, rest % 64);
  }

  lemma AmountsAdd(a: nat, b: nat)
    ensures ((a + b) % TWO_64) % 64 == Up(a % 64, b % 64)
  {
    WrapKeepsAmount(a + b);
    hide *;
    SumOfAmounts(a, b);
  }

  lemma SumOfAmounts(a: nat, b: nat)
    ensures (a + b) % 64 == Up(a % 64, b % 64)
  {
    var q, rest := a / 64 + b / 64, a % 64 + b % 64;
    assert a + b == q * 64 + rest;
    if rest < 64 {
      DivisionUnique(a + b, 64, q, rest);
    } else {
      DivisionUnique(a + b, 64, q + 1, rest - 64);
    }
  }

  /** Bit i of a left rotation is the bit n places below it, around the word. */
  lemma BitOfRotateLeft(x: U64, r: U64, i: nat)
    requires i < 64
    ensures Bit(RotateLeft(x, r), i) == Bit(x, Down(i, r % 64))
  {
    hide Bit, Bitwise, Pow2, ShiftLeft, ShiftRight;
    var n := r % 64;
    if n != 0 {
      BitOfBitwise(ShiftLeft(x, n), ShiftRight(x, 64 - n), Either, i);
      BitOfShiftLeft(x, n, i);
      BitOfShiftRight(x, 64 - n, i);
      Pow64();
      if i >= n {
        NoHighBits(x, 64, i + (64 - n));
      }
    }
  }

  /** Bit i of a right rotation is the bit n places above it, around the word. */
  lemma BitOfRotateRight(x: U64, r: U64, i: nat)
    requires i < 64
    ensures Bit(RotateRight(x, r), i) == Bit(x, Up(i, r % 64))
  {
    hide Bit, Bitwise, Pow2, ShiftLeft, ShiftRight;
    var n := r % 64;
    if n != 0 {
      BitOfBitwise(ShiftRight(x, n), ShiftLeft(x, 64 - n), Either, i);
      BitOfShiftRight(x, n, i);
      BitOfShiftLeft(x, 64 - n, i);
      Pow64();
      if i + n >= 64 {
        NoHighBits(x, 64, i + n);
      }
    }
  }

  /** Each bit i moves to (i + r) mod 64 and (i - r) mod 64. */
  lemma BitsMove(x: U64, r: U64, i: nat)
    requires i < 64
    ensures Bit(x, i) == Bit(RotateLeft(x, r), (i + r) % 64)
    ensures Bit(x, i) == Bit(RotateRight(x, r), (i - r) % 64)
  {
    hide Bit, RotateLeft, RotateRight;
    UpIsModular(i, r);
    BitOfRotateLeft(x, r, Up(i, r % 64));
    BitOfRotateRight(x, r, Down(i, r % 64));
  }

  /** Right rotation undoes left rotation, and left undoes right. */
  lemma RotationsInvert(x: U64, r: U64)
    ensures RotateRight(RotateLeft(x, r), r) == x
    ensures RotateLeft(RotateRight(x, r), r) == x
  {
    hide Bit, RotateLeft, RotateRight;
    var there, back := RotateRight(RotateLeft(x, r), r), RotateLeft(RotateRight(x, r), r);
    forall i: nat | i < 64 ensures Bit(there, i) == Bit(x, i) && Bit(back, i) == Bit(x, i) {
      BitOfRotateRight(RotateLeft(x, r), r, i);
      BitOfRotateLeft(x, r, Up(i, r % 64));
      BitOfRotateLeft(RotateRight(x, r), r, i);
      BitOfRotateRight(x, r, Down(i, r % 64));
    }
    SameLowBits(there, x);
    SameLowBits(back, x);
  }

  /** Rotating by a and then by b is rotating by their sum, wrapped to 64 bits. */
  lemma RotationsCompose(x: U64, a: U64, b: U64)
    ensures RotateLeft(RotateLeft(x, a), b) == RotateLeft(x, (a + b) % TWO_64)
  {
    hide Bit, RotateLeft;
    var sum: U64 := (a + b) % TWO_64;
    AmountsAdd(a, b);
    var two, one := RotateLeft(RotateLeft(x, a), b), RotateLeft(x, sum);
    forall i: nat | i < 64 ensures Bit(two, i) == Bit(one, i) {
      BitOfRotateLeft(RotateLeft(x, a), b, i);
      BitOfRotateLeft(x, a, Down(i, b % 64));
      BitOfRotateLeft(x, sum, i);
    }
    SameLowBits(two, one);
  }

  /** A left rotation is a right rotation the other way round, and rotating by 0 does nothing. */
  lemma LeftIsRight(x: U64, r: U64)
    ensures RotateLeft(x, r) == RotateRight(x, 64 - r % 64)
    ensures RotateLeft(x, 0) == x
  {
    hide Bit, Bitwise, ShiftLeft, ShiftRight;
    var left, right := RotateLeft(x, r), RotateRight(x, 64 - r % 64);
    forall i: nat | i < 64 ensures Bit(left, i) == Bit(right, i) {
      BitOfRotateLeft(x, r, i);
      BitOfRotateRight(x, 64 - r % 64, i);
    }
    SameLowBits(left, right);
  }
}
