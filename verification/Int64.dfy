/** 64-bit words, their signed reading, and C's truncating division. */
module Int64 {
  const TWO_63: int := 0x8000_0000_0000_0000
  const TWO_64: int := 0x1_0000_0000_0000_0000
  const INT64_MIN: int := -TWO_63
  const INT64_MAX: int := TWO_63 - 1

  type U64 = x: int | 0 <= x < TWO_64

  predicate InRange(x: int) { INT64_MIN <= x <= INT64_MAX }

  /** `(int64_t)x` for a 64-bit x. */
  function Signed(x: U64): (r: int)
    ensures InRange(r)
  {
    if x < TWO_63 then x else x - TWO_64
  }

  /** `(uint64_t)x` for an int64_t x. */
  function Unsigned(x: int): (r: U64)
    requires InRange(x)
    ensures Signed(r) == x
  {
    if x >= 0 then x else x + TWO_64
  }

  /** `a / b` of section 6.5.5 of ISO/IEC 9899:2011: the quotient truncated toward zero. */
  function Quotient(a: int, b: int): int
    requires b != 0
  {
    var q := Abs(a) / Abs(b);
    if a < 0 <==> b < 0 then q else -q
  }

  /** `a % b`: what the quotient leaves. */
  function Remainder(a: int, b: int): int
    requires b != 0
  {
    a - Quotient(a, b) * b
  }

  function Abs(x: int): nat { if x < 0 then -x else x }

  /** q and m are quotient and remainder as section 6.5.5 requires. */
  ghost predicate Truncates(a: int, b: int, q: int, m: int) {
    && a == q * b + m
    && Abs(m) < Abs(b)
    && (m == 0 || (m < 0 <==> a < 0))
  }

  lemma ScaleUp(a: nat, b: nat)
    requires a >= 1
    ensures a * b >= b
  {
    assert a * b == (a - 1) * b + b;
  }

  lemma FloorLaw(a: nat, b: nat)
    requires b > 0
    ensures 0 <= a - a / b * b < b
    ensures a / b <= a
  {
    var q := a / b;
    assert a == q * b + a % b;
    if q > 0 {
      ScaleUp(b, q);
    }
  }

  /** A floored quotient of the magnitudes, given the right sign, truncates. */
  lemma SignedQuotient(a: int, b: int, q: int)
    requires b != 0 && q >= 0 && 0 <= Abs(a) - q * Abs(b) < Abs(b)
    ensures var signed := if a < 0 <==> b < 0 then q else -q;
            Truncates(a, b, signed, a - signed * b)
  {
    var c: int := Abs(b);
    assert (-q) * c == -(q * c) && q * (-c) == -(q * c) && (-q) * (-c) == q * c;
  }

  lemma QuotientTruncates(a: int, b: int)
    requires b != 0
    ensures Truncates(a, b, Quotient(a, b), Remainder(a, b))
    ensures Abs(Quotient(a, b)) <= Abs(a)
  {
    hide Truncates;
    FloorLaw(Abs(a), Abs(b));
    SignedQuotient(a, b, Abs(a) / Abs(b));
  }

  /** There is only one such pair. */
  lemma TruncationUnique(a: int, b: int, q: int, m: int, q': int, m': int)
    requires b != 0 && Truncates(a, b, q, m) && Truncates(a, b, q', m')
    ensures q == q' && m == m'
  {
    assert (q - q') * b == m' - m;
    if q != q' {
      assert Abs(m' - m) < Abs(b);
      assert Abs(q - q') >= 1;
      AbsProduct(q - q', b);
      ScaleUp(Abs(q - q'), Abs(b));
      assert false;
    }
  }

  lemma AbsProduct(a: int, b: int)
    ensures Abs(a * b) == Abs(a) * Abs(b)
  {
  }

  /** The comparisons of lines 186 and 192, for a positive right operand. */
  lemma BoundsByDivision(l: int, r: int)
    requires r > 0
    ensures l > Quotient(INT64_MAX, r) <==> l * r > INT64_MAX
    ensures l < Quotient(INT64_MIN, r) <==> l * r < INT64_MIN
  {
    FloorBound(INT64_MAX, r, l);
    FloorBound(TWO_63, r, -l);
    assert (-l) * r == -(l * r);
  }

  lemma FloorBound(a: nat, b: nat, x: int)
    requires b > 0
    ensures x <= a / b <==> x * b <= a
  {
    FloorLaw(a, b);
    var q := a / b;
    if x <= q {
      assert x * b <= q * b;
    } else {
      assert x * b >= (q + 1) * b == q * b + b;
    }
  }
}
