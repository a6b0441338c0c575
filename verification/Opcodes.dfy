/** What the opcodes mean, without the functions that compute it. */
module Opcodes {
  import opened Int64
  import opened Bits
  import opened Words
  import opened Rotation
  import opened Calculation

  /** The signed reading of a word is the int64_t that is congruent to it. */
  lemma SignedIsCongruent(x: U64)
    ensures -0x8000_0000_0000_0000 <= Signed(x) < 0x8000_0000_0000_0000
    ensures Signed(x) == x || Signed(x) == x - 0x1_0000_0000_0000_0000
  {
  }

  /** Solved with the integer v if v is an int64_t, a failure with value 0 otherwise. */
  predicate Exactly(o: Outcome, v: int) {
    if -0x8000_0000_0000_0000 <= v < 0x8000_0000_0000_0000 then
      o.result == Solved && o.sign == EqSigned && Signed(o.solution) == v
    else
      Refused(o)
  }

  predicate Refused(o: Outcome) { o.result == Failure && o.sign == EqUnsigned && o.solution == 0 }

  predicate IsWord(o: Outcome) { o.result == Solved && o.sign == EqUnsigned }

  /** The pairs that division and modulo refuse. */
  predicate NoQuotient(x: int, y: int) {
    || y == 0
    || (x == -0x8000_0000_0000_0000 && y == -1)
    || (x == -1 && y == -0x8000_0000_0000_0000)
  }

  /** The verdict o is right for an equation. */
  ghost predicate Right(l: U64, opt: nat, r: U64, o: Outcome) {
    var x, y := Signed(l), Signed(r);
    match opt
    case 0x01 => Exactly(o, x + y)
    case 0x02 => Exactly(o, x - y)
    case 0x03 => if y < 0 then Refused(o) else Exactly(o, x * y)
    case 0x04 =>
      if NoQuotient(x, y) then Refused(o)
      else exists q, m :: Truncates(x, y, q, m) && Exactly(o, q)
    case 0x05 =>
      if NoQuotient(x, y) then Refused(o)
      else exists q, m :: Truncates(x, y, q, m) && Exactly(o, m)
    case 0x06 => IsWord(o) && o.solution == (l * Pow2(r % 64)) % 0x1_0000_0000_0000_0000
    case 0x07 => IsWord(o) && o.solution == if r < 64 then l / Pow2(r) else l / 0x8000_0000_0000_0000
    case 0x08 => IsWord(o) && forall i: nat :: Bit(o.solution, i) <==> Bit(l, i) && Bit(r, i)
    case 0x09 => IsWord(o) && forall i: nat :: Bit(o.solution, i) <==> Bit(l, i) || Bit(r, i)
    case 0x0a => IsWord(o) && forall i: nat :: Bit(o.solution, i) <==> Bit(l, i) != Bit(r, i)
    case 0x0b => IsWord(o) && forall i: nat :: i < 64 ==> (Bit(o.solution, (i + r) % 64) <==> Bit(l, i))
    case 0x0c => IsWord(o) && forall i: nat :: i < 64 ==> (Bit(o.solution, (i - r) % 64) <==> Bit(l, i))
    case _ => Refused(o)
  }

  /** The solver's verdict is right. */
  lemma EvaluateIsRight(l: U64, opt: nat, r: U64)
    ensures Right(l, opt, r, Evaluate(l, opt, r))
  {
    hide Bit, Bitwise, Pow2, Raise, Lower;
    match opt
    case 0x04 => DivisionIsRight(l, r);
    case 0x05 => DivisionIsRight(l, r);
    case 0x06 => ShiftsArePowers(l, r % 64);
    case 0x07 => RightShiftIsRight(l, r);
    case 0x08 => LogicIsRight(l, r);
    case 0x09 => LogicIsRight(l, r);
    case 0x0a => LogicIsRight(l, r);
    case 0x0b => RotationsAreRight(l, r);
    case 0x0c => RotationsAreRight(l, r);
    case _ =>
  }

  lemma DivisionIsRight(l: U64, r: U64)
    ensures Right(l, 0x04, r, Evaluate(l, 0x04, r))
    ensures Right(l, 0x05, r, Evaluate(l, 0x05, r))
  {
    var x, y := Signed(l), Signed(r);
    if !NoQuotient(x, y) {
      hide Quotient, Remainder, Truncates;
      DivisionInRange(x, y);
      QuotientTruncates(x, y);
    }
  }

  lemma RightShiftIsRight(l: U64, r: U64)
    ensures Right(l, 0x07, r, Evaluate(l, 0x07, r))
  {
    hide Lower;
    if r < 64 {
      ShiftsArePowers(l, r);
    } else {
      ShiftsArePowers(l, 63);
      Pow64();
      assert Pow2(64) == 2 * Pow2(63);
    }
  }

  lemma LogicIsRight(l: U64, r: U64)
    ensures Right(l, 0x08, r, Evaluate(l, 0x08, r))
    ensures Right(l, 0x09, r, Evaluate(l, 0x09, r))
    ensures Right(l, 0x0a, r, Evaluate(l, 0x0a, r))
  {
    hide Bit, Bitwise;
    forall i: nat
      ensures Bit(Bitwise64(l, r, Both), i) <==> Bit(l, i) && Bit(r, i)
      ensures Bit(Bitwise64(l, r, Either), i) <==> Bit(l, i) || Bit(r, i)
      ensures Bit(Bitwise64(l, r, OneOf), i) <==> Bit(l, i) != Bit(r, i)
    {
      BitOfBitwise(l, r, Both, i);
      BitOfBitwise(l, r, Either, i);
      BitOfBitwise(l, r, OneOf, i);
    }
  }

  lemma RotationsAreRight(l: U64, r: U64)
    ensures Right(l, 0x0b, r, Evaluate(l, 0x0b, r))
    ensures Right(l, 0x0c, r, Evaluate(l, 0x0c, r))
  {
    hide Bit, RotateLeft, RotateRight;
    forall i: nat | i < 64 {
      BitsMove(l, r, i);
    }
  }

  // ----- and no other verdict is

  lemma SameExactly(o: Outcome, o': Outcome, v: int)
    requires Exactly(o, v) && Exactly(o', v)
    ensures o == o'
  {
  }

  lemma DivisionIsUnique(l: U64, opt: nat, r: U64, o: Outcome, o': Outcome)
    requires opt == 0x04 || opt == 0x05
    requires Right(l, opt, r, o) && Right(l, opt, r, o')
    ensures o == o'
  {
    var x, y := Signed(l), Signed(r);
    if !NoQuotient(x, y) {
      hide Truncates, Exactly;
      if opt == 0x04 {
        var q, m :| Truncates(x, y, q, m) && Exactly(o, q);
        var q', m' :| Truncates(x, y, q', m') && Exactly(o', q');
        TruncationUnique(x, y, q, m, q', m');
        SameExactly(o, o', q);
      } else {
        var q, m :| Truncates(x, y, q, m) && Exactly(o, m);
        var q', m' :| Truncates(x, y, q', m') && Exactly(o', m');
        TruncationUnique(x, y, q, m, q', m');
        SameExactly(o, o', m);
      }
    }
  }

  lemma LogicIsUnique(l: U64, opt: nat, r: U64, o: Outcome, o': Outcome)
    requires 0x08 <= opt <= 0x0a
    requires Right(l, opt, r, o) && Right(l, opt, r, o')
    ensures o == o'
  {
    hide Bit;
    SameBits(o.solution, o'.solution);
  }

  lemma RotationIsUnique(l: U64, opt: nat, r: U64, o: Outcome, o': Outcome)
    requires 0x0b <= opt <= 0x0c
    requires Right(l, opt, r, o) && Right(l, opt, r, o')
    ensures o == o'
  {
    hide Bit;
    forall i: nat | i < 64 ensures Bit(o.solution, i) == Bit(o'.solution, i) {
      ComesFrom(i, r);
      var from := if opt == 0x0b then (i - r) % 64 else (i + r) % 64;
      assert Bit(o.solution, i) == Bit(l, from) == Bit(o'.solution, i);
    }
    SameLowBits(o.solution, o'.solution);
  }

  lemma ComesFrom(i: nat, r: nat)
    requires i < 64
    ensures ((i - r) % 64 + r) % 64 == i
    ensures ((i + r) % 64 - r) % 64 == i
  {
    UpIsModular(i, r);
    UpIsModular((i - r) % 64, r);
    UpIsModular((i + r) % 64, r);
  }

  /** Of all verdicts the solver's is the only right one. */
  lemma RightIsUnique(l: U64, opt: nat, r: U64, o: Outcome)
    ensures Right(l, opt, r, o) <==> o == Evaluate(l, opt, r)
  {
    hide Evaluate, Pow2, Bit;
    var e := Evaluate(l, opt, r);
    EvaluateIsRight(l, opt, r);
    if Right(l, opt, r, o) {
      if opt == 0x04 || opt == 0x05 {
        DivisionIsUnique(l, opt, r, o, e);
      } else if 0x08 <= opt <= 0x0a {
        LogicIsUnique(l, opt, r, o, e);
      } else if 0x0b <= opt <= 0x0c {
        RotationIsUnique(l, opt, r, o, e);
      }
    }
  }

  /** For exclusive or this is the sum without the carries. */
  lemma XorIsSumWithoutCarries(l: U64, r: U64)
    ensures Evaluate(l, 0x0a, r).solution + 2 * Evaluate(l, 0x08, r).solution == l + r
    ensures Evaluate(l, 0x09, r).solution == Evaluate(l, 0x0a, r).solution + Evaluate(l, 0x08, r).solution
  {
    XorAndSum(l, r);
    OrIsXorAndAnd(l, r);
  }
}
