/** Bitwise operators on the natural numbers, bit by bit and by powers of two. */
module Bits {
  function Pow2(n: nat): (r: nat)
    ensures r >= 1
  {
    if n == 0 then 1 else 2 * Pow2(n - 1)
  }

  /** x moved up by n binary places. */
  function Raise(x: nat, n: nat): nat {
    if n == 0 then x else 2 * Raise(x, n - 1)
  }

  /** x moved down by n binary places. */
  function Lower(x: nat, n: nat): (r: nat)
    ensures r <= x
  {
    if n == 0 then x else Lower(x / 2, n - 1)
  }

  /** The low n bits of x. */
  function Low(x: nat, n: nat): nat {
    if n == 0 then 0 else 2 * Low(x / 2, n - 1) + x % 2
  }

  /** Bit i of x. */
  predicate Bit(x: nat, i: nat) {
    if i == 0 then x % 2 == 1 else Bit(x / 2, i - 1)
  }

  /** The operator that applies f to each pair of bits. */
  function Bitwise(x: nat, y: nat, f: (bool, bool) -> bool): nat
    decreases x + y
  {
    if x == 0 && y == 0 then 0
    else 2 * Bitwise(x / 2, y / 2, f) + (if f(x % 2 == 1, y % 2 == 1) then 1 else 0)
  }

  predicate Both(a: bool, b: bool) { a && b }
  predicate Either(a: bool, b: bool) { a || b }
  predicate OneOf(a: bool, b: bool) { a != b }

  function And(x: nat, y: nat): nat { Bitwise(x, y, Both) }
  function Or(x: nat, y: nat): nat { Bitwise(x, y, Either) }
  function Xor(x: nat, y: nat): nat { Bitwise(x, y, OneOf) }

  lemma {:induction false} PowAdd(m: nat, n: nat)
    ensures Pow2(m + n) == Pow2(m) * Pow2(n)
  {
    if m > 0 {
      PowAdd(m - 1, n);
      assert Pow2(m + n) == 2 * Pow2(m - 1 + n);
    }
  }

  lemma {:induction false} PowMonotone(m: nat, n: nat)
    requires m <= n
    ensures Pow2(m) <= Pow2(n)
  {
    if m < n {
      PowMonotone(m, n - 1);
    }
  }

  lemma Pow64()
    ensures Pow2(64) == 0x1_0000_0000_0000_0000
  {
    assert Pow2(8) == 256;
    PowAdd(8, 8);
    PowAdd(16, 16);
    PowAdd(32, 32);
  }

  lemma {:induction false} ZeroHasNoBits(i: nat)
    ensures !Bit(0, i)
  {
    if i > 0 {
      ZeroHasNoBits(i - 1);
    }
  }

  /** Numbers with the same bits are equal. */
  lemma {:induction false} SameBits(x: nat, y: nat)
    requires forall i: nat :: Bit(x, i) == Bit(y, i)
    ensures x == y
    decreases x + y
  {
    assert Bit(x, 0) == Bit(y, 0);
    if x + y > 0 {
      forall i: nat ensures Bit(x / 2, i) == Bit(y / 2, i) {
        assert Bit(x, i + 1) == Bit(y, i + 1);
      }
      SameBits(x / 2, y / 2);
    }
  }

  lemma HalfAndParity(rest: nat, low: nat)
    requires low < 2
    ensures (2 * rest + low) / 2 == rest && (2 * rest + low) % 2 == low
  {
  }

  lemma {:induction false} BitOfBitwise(x: nat, y: nat, f: (bool, bool) -> bool, i: nat)
    requires !f(false, false)
    ensures Bit(Bitwise(x, y, f), i) == f(Bit(x, i), Bit(y, i))
    decreases i
  {
    if x == 0 && y == 0 {
      ZeroHasNoBits(i);
    } else {
      var rest, low := Bitwise(x / 2, y / 2, f), if f(x % 2 == 1, y % 2 == 1) then 1 else 0;
      HalfAndParity(rest, low);
      assert Bitwise(x, y, f) == 2 * rest + low;
      if i > 0 {
        hide Bitwise;
        BitOfBitwise(x / 2, y / 2, f, i - 1);
      }
    }
  }

  /** What two numbers do not share and twice what they share add up to their sum. */
  lemma {:induction false} XorAndSum(x: nat, y: nat)
    ensures Xor(x, y) + 2 * And(x, y) == x + y
    decreases x + y
  {
    if x + y > 0 {
      XorAndSum(x / 2, y / 2);
    }
  }

  /** What either has is what they do not share and what they share. */
  lemma {:induction false} OrIsXorAndAnd(x: nat, y: nat)
    ensures Or(x, y) == Xor(x, y) + And(x, y)
    decreases x + y
  {
    if x + y > 0 {
      OrIsXorAndAnd(x / 2, y / 2);
    }
  }

  // ----- places and powers

  lemma {:induction false} RaiseIsProduct(x: nat, n: nat)
    ensures Raise(x, n) == x * Pow2(n)
  {
    if n > 0 {
      RaiseIsProduct(x, n - 1);
    }
  }

  lemma {:induction false} LowerIsQuotient(x: nat, n: nat)
    ensures Lower(x, n) == x / Pow2(n)
    decreases n
  {
    if n > 0 {
      LowerIsQuotient(x / 2, n - 1);
      HalveQuotient(x, Pow2(n - 1));
    }
  }

  lemma {:induction false} LowIsRemainder(x: nat, n: nat)
    ensures Low(x, n) == x % Pow2(n)
    decreases n
  {
    if n > 0 {
      LowIsRemainder(x / 2, n - 1);
      HalveQuotient(x, Pow2(n - 1));
    }
  }

  lemma {:induction false} RaiseIsZero(x: nat, n: nat)
    ensures Raise(x, n) == 0 <==> x == 0
  {
    if n > 0 {
      RaiseIsZero(x, n - 1);
    }
  }

  /** What is left of a number moved up is what was low enough before. */
  lemma {:induction false} LowOfRaise(x: nat, n: nat, m: nat)
    ensures Low(Raise(x, n), n + m) == Raise(Low(x, m), n)
  {
    if n > 0 {
      var half := Raise(x, n - 1);
      HalfAndParity(half, 0);
      assert Raise(x, n) == 2 * half;
      assert Low(2 * half, n + m) == 2 * Low(half, n - 1 + m);
      LowOfRaise(x, n - 1, m);
    }
  }

  lemma HalveQuotient(x: nat, m: nat)
    requires m > 0
    ensures x / (2 * m) == (x / 2) / m
    ensures x % (2 * m) == 2 * ((x / 2) % m) + x % 2
  {
    var q, h := (x / 2) / m, (x / 2) % m;
    assert x / 2 == q * m + h;
    var rest := 2 * h + x % 2;
    assert x == q * (2 * m) + rest;
    DivisionUnique(x, 2 * m, q, rest);
  }

  lemma DivisionUnique(a: nat, b: nat, q: nat, r: nat)
    requires b > 0 && a == q * b + r && r < b
    ensures a / b == q && a % b == r
  {
    var q', r' := a / b, a % b;
    assert a == q' * b + r' && 0 <= r' < b;
    var k := q - q';
    assert k * b == q * b - q' * b == r' - r;
    if k != 0 {
      MultiplesAreFarApart(b, k);
      assert false;
    }
  }

  lemma MultiplesAreFarApart(b: int, k: int)
    requires b > 0 && k != 0
    ensures k * b >= b || k * b <= 0 - b
  {
    if k > 0 {
      MulMonotone(1, k, b);
    } else {
      MulMonotone(k, -1, b);
    }
  }

  lemma MulMonotone(x: int, y: int, b: int)
    requires x <= y && b >= 0
    ensures x * b <= y * b
  {
  }

  /** What is below 2^n is gone after n places or more, and what is below 2^(n+1) is one bit after n. */
  lemma {:induction false} LowerVanishes(x: nat, n: nat, k: nat)
    requires n <= k
    ensures x < Pow2(n) ==> Lower(x, k) == 0
    ensures Pow2(n) <= x < 2 * Pow2(n) ==> Lower(x, n) == 1
    decreases k
  {
    if k > 0 {
      LowerVanishes(x / 2, if n > 0 then n - 1 else 0, k - 1);
    }
  }

  // ----- the bits of a result

  /** Bit i is the digit of 2^i. */
  lemma {:induction false} BitIsDigit(x: nat, i: nat)
    ensures Bit(x, i) <==> (x / Pow2(i)) % 2 == 1
  {
    if i > 0 {
      BitIsDigit(x / 2, i - 1);
      HalveQuotient(x, Pow2(i - 1));
    }
  }

  lemma {:induction false} BitOfRaise(x: nat, n: nat, i: nat)
    ensures Bit(Raise(x, n), i) == (i >= n && Bit(x, i - n))
    decreases n
  {
    if n > 0 && i > 0 {
      assert (2 * Raise(x, n - 1)) / 2 == Raise(x, n - 1);
      BitOfRaise(x, n - 1, i - 1);
    }
  }

  lemma {:induction false} BitOfLower(x: nat, n: nat, i: nat)
    ensures Bit(Lower(x, n), i) == Bit(x, i + n)
    decreases n
  {
    if n > 0 {
      BitOfLower(x / 2, n - 1, i);
    }
  }

  lemma {:induction false} BitOfLow(x: nat, n: nat, i: nat)
    ensures Bit(Low(x, n), i) == (i < n && Bit(x, i))
    decreases n
  {
    if n == 0 {
      ZeroHasNoBits(i);
    } else if i > 0 {
      BitOfLow(x / 2, n - 1, i - 1);
    }
  }

  /** A number below 2^n has no bits at n or above. */
  lemma {:induction false} NoHighBits(x: nat, n: nat, i: nat)
    requires x < Pow2(n) && i >= n
    ensures !Bit(x, i)
    decreases n
  {
    if n == 0 {
      ZeroHasNoBits(i);
    } else {
      NoHighBits(x / 2, n - 1, i - 1);
    }
  }

  /** A number whose bits all lie below n is below 2^n. */
  lemma {:induction false} LowBitsBound(x: nat, n: nat)
    requires forall i: nat :: i >= n ==> !Bit(x, i)
    ensures x < Pow2(n)
    decreases n
  {
    if n == 0 {
      forall i: nat ensures Bit(x, i) == Bit(0, i) {
        ZeroHasNoBits(i);
      }
      SameBits(x, 0);
    } else {
      forall i: nat | i >= n - 1 ensures !Bit(x / 2, i) {
        assert !Bit(x, i + 1);
      }
      LowBitsBound(x / 2, n - 1);
    }
  }

  lemma BitwiseBound(x: nat, y: nat, f: (bool, bool) -> bool, n: nat)
    requires !f(false, false) && x < Pow2(n) && y < Pow2(n)
    ensures Bitwise(x, y, f) < Pow2(n)
  {
    forall i: nat | i >= n ensures !Bit(Bitwise(x, y, f), i) {
      BitOfBitwise(x, y, f, i);
      NoHighBits(x, n, i);
      NoHighBits(y, n, i);
    }
    LowBitsBound(Bitwise(x, y, f), n);
  }

  /** Masking with 2^n - 1 keeps the low n bits. */
  lemma {:induction false} MaskIsLow(x: nat, n: nat)
    ensures And(x, Pow2(n) - 1) == Low(x, n)
    decreases n
  {
    if n == 0 {
      AndZero(x);
    } else {
      assert (Pow2(n) - 1) / 2 == Pow2(n - 1) - 1 && (Pow2(n) - 1) % 2 == 1;
      MaskIsLow(x / 2, n - 1);
    }
  }

  lemma {:induction false} AndZero(x: nat)
    ensures And(x, 0) == 0
  {
    if x > 0 {
      AndZero(x / 2);
    }
  }

  lemma {:induction false} OrZero(x: nat)
    ensures Or(x, 0) == x == Or(0, x)
  {
    if x > 0 {
      OrZero(x / 2);
    }
  }

  lemma {:induction false} OrAtLeast(x: nat, y: nat)
    ensures Or(x, y) >= x
    decreases x + y
  {
    if x + y > 0 {
      OrAtLeast(x / 2, y / 2);
    }
  }
}
