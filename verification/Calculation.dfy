/** The equation solver.

    `Evaluate` says, in terms of the integers the operands stand for, what the solver
    leaves in a solution. The methods of `Solution` are the C callbacks with their
    guards, proved to do that and to mean what their names say. */
module Calculation {
  import opened Wrappers
  import opened Int64
  import opened Bits
  import opened Words
  import opened Rotation

  datatype Sign = EqSigned | EqUnsigned
  datatype Result = Failure | Solved | Unsolved

  /** What the solver decides about an equation. */
  datatype Outcome = Outcome(solution: U64, sign: Sign, result: Result)

  const FAILED := Outcome(0, EqUnsigned, Failure)

  /** A signed result, or a failure if it does not fit. */
  function SignedOutcome(x: int): Outcome {
    if InRange(x) then Outcome(Unsigned(x), EqSigned, Solved) else FAILED
  }

  function UnsignedOutcome(x: U64): Outcome { Outcome(x, EqUnsigned, Solved) }

  /** `a / b` on int64_t, which C leaves undefined for two kinds of pair. */
  function Quotient64(a: int, b: int): Option<int> {
    if b == 0 || (a == INT64_MIN && b == -1) then None else Some(Quotient(a, b))
  }

  /** The one operand pair for which line 192 evaluates INT64_MIN / -1, which has no defined value. */
  predicate MulUndefined(l: int, r: int) { l == -INT64_MAX && r == -1 }

  /** The two pairs division and modulo refuse besides a zero divisor. */
  predicate DivRefused(l: int, r: int) {
    || r == 0
    || (l == INT64_MIN && r == -1)
    || (l == -1 && r == INT64_MIN)
  }

  /** The meaning of every opcode. */
  function Evaluate(l: U64, opt: nat, r: U64): Outcome {
    var x, y := Signed(l), Signed(r);
    match opt
    case 0x01 => SignedOutcome(x + y)
    case 0x02 => SignedOutcome(x - y)
    case 0x03 => if y >= 0 then SignedOutcome(x * y) else FAILED
    case 0x04 => if DivRefused(x, y) then FAILED else SignedOutcome(Quotient(x, y))
    case 0x05 => if DivRefused(x, y) then FAILED else SignedOutcome(Remainder(x, y))
    case 0x06 => UnsignedOutcome(ShiftLeft(l, r % MAX_BITS))
    case 0x07 => UnsignedOutcome(ShiftRight(l, if r < MAX_BITS then r else MAX_BITS - 1))
    case 0x08 => UnsignedOutcome(Bitwise64(l, r, Both))
    case 0x09 => UnsignedOutcome(Bitwise64(l, r, Either))
    case 0x0a => UnsignedOutcome(Bitwise64(l, r, OneOf))
    case 0x0b => UnsignedOutcome(RotateLeft(l, r))
    case 0x0c => UnsignedOutcome(RotateRight(l, r))
    case _ => FAILED
  }

  /** Quotient and remainder of an accepted pair are int64_t values. */
  lemma DivisionInRange(l: int, r: int)
    requires InRange(l) && InRange(r) && !DivRefused(l, r)
    ensures InRange(Quotient(l, r)) && InRange(Remainder(l, r))
  {
    QuotientTruncates(l, r);
    if Quotient(l, r) == TWO_63 {
      MagnitudeIsFull(l, r);
    }
  }

  /** A quotient as large as 2^63 takes INT64_MIN / -1. */
  lemma MagnitudeIsFull(l: int, r: int)
    requires InRange(l) && InRange(r) && r != 0 && Quotient(l, r) == TWO_63
    ensures l == INT64_MIN && r == -1
  {
    QuotientTruncates(l, r);
    var m := Remainder(l, r);
    assert l == TWO_63 * r + m;
  }

  /** What `strdup` returns. */
  class Message {
    constructor () {}
  }

  class Solution {
    const eqId: nat
    const opt: nat
    const lOperand: U64
    const rOperand: U64
    var solution: U64
    var sign: Sign
    var result: Result
    var errorMsg: Message?

    /** What the fields say the solver decided. */
    function Verdict(): Outcome
      reads this
    {
      Outcome(solution, sign, result)
    }

    /** The state line 46 leaves: nothing decided, no message. */
    predicate Fresh()
      reads this
    {
      solution == 0 && sign == EqUnsigned && result == Unsolved && errorMsg == null
    }

    /** Solved as a plain 64-bit word, with no message. */
    predicate SolvedAsWord()
      reads this
    {
      sign == EqUnsigned && result == Solved && errorMsg == null
    }

    constructor (eqId: nat, l: U64, opt: nat, r: U64)
      ensures Fresh()
      ensures this.eqId == eqId && this.opt == opt && this.lOperand == l && this.rOperand == r
    {
      this.eqId, this.opt, this.lOperand, this.rOperand := eqId, opt, l, r;
      solution, sign, result, errorMsg := 0, EqUnsigned, Unsolved, null;
    }

    method Fail()
      modifies this
      ensures result == Failure && errorMsg != null && fresh(errorMsg)
      ensures solution == old(solution) && sign == old(sign)
    {
      errorMsg := new Message();
      result := Failure;
    }

    method Add()
      requires Fresh()
      modifies this
      ensures Verdict() == SignedOutcome(Signed(lOperand) + Signed(rOperand))
      ensures errorMsg != null <==> result == Failure
      ensures errorMsg != null ==> fresh(errorMsg)
    {
      var l, r := Signed(lOperand), Signed(rOperand);
      if r > 0 && l > INT64_MAX - r {
        Fail();
        return;
      }
      if r < 0 && l < INT64_MIN - r {
        Fail();
        return;
      }
      solution := Unsigned(l + r);
      sign := EqSigned;
      result := Solved;
    }

    method Subtract()
      requires Fresh()
      modifies this
      ensures Verdict() == SignedOutcome(Signed(lOperand) - Signed(rOperand))
      ensures errorMsg != null <==> result == Failure
      ensures errorMsg != null ==> fresh(errorMsg)
    {
      var l, r := Signed(lOperand), Signed(rOperand);
      if r < 0 && l > INT64_MAX + r {
        Fail();
        return;
      }
      if r > 0 && l < INT64_MIN + r {
        Fail();
        return;
      }
      solution := Unsigned(l - r);
      sign := EqSigned;
      result := Solved;
    }

    /** The result is false if line 192 evaluates a division that C does not define. */
    method Multiply() returns (defined: bool)
      requires Fresh()
      modifies this
      ensures defined <==> !MulUndefined(Signed(lOperand), Signed(rOperand))
      ensures defined ==>
                (result == Solved <==> Signed(rOperand) >= 0 && InRange(Signed(lOperand) * Signed(rOperand)))
      ensures defined && result == Solved ==>
                sign == EqSigned && Signed(solution) == Signed(lOperand) * Signed(rOperand)
      ensures defined && result != Solved ==> Verdict() == FAILED
      ensures defined ==> (errorMsg != null <==> result == Failure)
      ensures errorMsg != null ==> fresh(errorMsg)
    {
      var l, r := Signed(lOperand), Signed(rOperand);
      MultiplicationExactly(l, r);
      if l == -1 && r == INT64_MIN {
        Fail();
        return true;
      }
      if r == -1 && l == INT64_MIN {
        Fail();
        return true;
      }
      if r != 0 {
        var most := Quotient64(INT64_MAX, r);
        if l > most.value {
          Fail();
          return true;
        }
      }
      if r != 0 {
        var least := Quotient64(INT64_MIN, r);
        if least == None {
          return false;
        }
        if l < least.value {
          Fail();
          return true;
        }
      }
      solution := Unsigned(l * r);
      sign := EqSigned;
      result := Solved;
      return true;
    }

    method Divide()
      requires Fresh()
      modifies this
      ensures Verdict() == var l, r := Signed(lOperand), Signed(rOperand);
                           if DivRefused(l, r) then FAILED else SignedOutcome(Quotient(l, r))
      ensures errorMsg != null <==> result == Failure
      ensures errorMsg != null ==> fresh(errorMsg)
    {
      var l, r := Signed(lOperand), Signed(rOperand);
      if r == 0 {
        Fail();
        return;
      }
      if l == INT64_MIN && r == -1 {
        Fail();
        return;
      }
      if r == INT64_MIN && l == -1 {
        Fail();
        return;
      }
      DivisionInRange(l, r);
      solution := Unsigned(Quotient64(l, r).value);
      sign := EqSigned;
      result := Solved;
    }

    method Modulo()
      requires Fresh()
      modifies this
      ensures Verdict() == var l, r := Signed(lOperand), Signed(rOperand);
                           if DivRefused(l, r) then FAILED else SignedOutcome(Remainder(l, r))
      ensures errorMsg != null <==> result == Failure
      ensures errorMsg != null ==> fresh(errorMsg)
    {
      var l, r := Signed(lOperand), Signed(rOperand);
      if r == 0 {
        Fail();
        return;
      }
      if l == INT64_MIN && r == -1 {
        Fail();
        return;
      }
      if r == INT64_MIN && l == -1 {
        Fail();
        return;
      }
      DivisionInRange(l, r);
      assert Quotient64(l, r).Some?;  // without a quotient, C leaves the remainder undefined too
      solution := Unsigned(Remainder(l, r));
      sign := EqSigned;
      result := Solved;
    }

    method LeftShift()
      requires Fresh()
      modifies this
      ensures SolvedAsWord() && solution == ShiftLeft(lOperand, rOperand % MAX_BITS)
      ensures solution == (lOperand * Pow2(rOperand % MAX_BITS)) % TWO_64
    {
      hide Raise, Pow2;
      var r: nat := rOperand;
      if r > MAX_BITS - 1 {
        r := r % MAX_BITS;
      }
      solution := ShiftLeft(lOperand, r);
      result := Solved;
      ShiftsArePowers(lOperand, rOperand % MAX_BITS);
    }

    /** By 64 or more, the top bit is left, where the true quotient is 0. */
    method RightShift()
      requires Fresh()
      modifies this
      ensures SolvedAsWord() && solution == ShiftRight(lOperand, if rOperand < MAX_BITS then rOperand else MAX_BITS - 1)
      ensures rOperand < MAX_BITS ==> solution == lOperand / Pow2(rOperand)
      ensures rOperand >= MAX_BITS ==> solution == if lOperand < TWO_63 then 0 else 1
    {
      hide Lower, Pow2;
      var r: nat := rOperand;
      if r > MAX_BITS - 1 {
        r := MAX_BITS - 1;
        TopBit(lOperand);
      }
      solution := ShiftRight(lOperand, r);
      result := Solved;
      ShiftsArePowers(lOperand, r);
    }

    /** Lines 300-319, for the operator that f is on single bits. */
    method LogicalOp(f: (bool, bool) -> bool)
      requires Fresh() && !f(false, false)
      modifies this
      ensures SolvedAsWord() && solution == Bitwise64(lOperand, rOperand, f)
      ensures forall i: nat :: Bit(solution, i) == f(Bit(lOperand, i), Bit(rOperand, i))
    {
      solution := Bitwise64(lOperand, rOperand, f);
      result := Solved;
      hide Bit, Bitwise;
      forall i: nat {
        BitOfBitwise(lOperand, rOperand, f, i);
      }
    }

    /** Each bit moves up by the right operand, around the word. */
    method LeftRotate()
      requires Fresh()
      modifies this
      ensures SolvedAsWord() && solution == RotateLeft(lOperand, rOperand)
      ensures forall i: nat :: i < 64 ==> Bit(solution, (i + rOperand) % 64) == Bit(lOperand, i)
    {
      hide Bit, Bitwise, ShiftLeft, ShiftRight;
      var r: nat := rOperand;
      if r > MAX_BITS - 1 {
        r := r % MAX_BITS;
      }
      if r != 0 {
        solution := Bitwise64(ShiftLeft(lOperand, r), ShiftRight(lOperand, MAX_BITS - r), Either);
      } else {
        solution := lOperand;
      }
      result := Solved;
      forall i: nat | i < 64 {
        BitsMove(lOperand, rOperand, i);
      }
    }

    /** Each bit moves down by the right operand, around the word. */
    method RightRotate()
      requires Fresh()
      modifies this
      ensures SolvedAsWord() && solution == RotateRight(lOperand, rOperand)
      ensures forall i: nat :: i < 64 ==> Bit(solution, (i - rOperand) % 64) == Bit(lOperand, i)
    {
      hide Bit, Bitwise, ShiftLeft, ShiftRight;
      var r: nat := rOperand;
      if r > MAX_BITS - 1 {
        r := r % MAX_BITS;
      }
      if r != 0 {
        solution := Bitwise64(ShiftRight(lOperand, r), ShiftLeft(lOperand, MAX_BITS - r), Either);
      } else {
        solution := lOperand;
      }
      result := Solved;
      forall i: nat | i < 64 {
        BitsMove(lOperand, rOperand, i);
      }
    }

    /** Lines 74-118. */
    method Resolve() returns (defined: bool)
      requires Fresh()
      modifies this
      ensures defined <==> !(opt == 0x03 && MulUndefined(Signed(lOperand), Signed(rOperand)))
      ensures defined ==> Verdict() == Evaluate(lOperand, opt, rOperand)
      ensures opt == 0x0a ==> solution + 2 * And(lOperand, rOperand) == lOperand + rOperand
      ensures defined ==> (errorMsg != null <==> result == Failure)
      ensures errorMsg != null ==> fresh(errorMsg)
    {
      hide Bit, And, Bitwise64, RotateLeft, RotateRight, ShiftLeft, ShiftRight, Pow2, Quotient, Remainder;
      defined := true;
      match opt
      case 0x01 => Add();
      case 0x02 => Subtract();
      case 0x03 => defined := Multiply();
      case 0x04 => Divide();
      case 0x05 => Modulo();
      case 0x06 => LeftShift();
      case 0x07 => RightShift();
      case 0x08 => LogicalOp(Both);
      case 0x09 => LogicalOp(Either);
      case 0x0a => LogicalOp(OneOf); XorWord(lOperand, rOperand);
      case 0x0b => LeftRotate();
      case 0x0c => RightRotate();
      case _ => Fail();
    }
  }

  /** Lines 35-59: a new solution, resolved. */
  method GetEquation(eqId: nat, l: U64, opt: nat, r: U64) returns (eq: Solution, defined: bool)
    ensures fresh(eq)
    ensures eq.eqId == eqId && eq.lOperand == l && eq.opt == opt && eq.rOperand == r
    ensures defined <==> !(opt == 0x03 && MulUndefined(Signed(l), Signed(r)))
    ensures defined ==> eq.Verdict() == Evaluate(l, opt, r)
    ensures defined ==> (eq.errorMsg != null <==> eq.result == Failure)
    ensures eq.errorMsg != null ==> fresh(eq.errorMsg)
  {
    eq := new Solution(eqId, l, opt, r);
    defined := eq.Resolve();
  }

  // ----- what the verdicts mean

  /** For a negative right operand one of the comparisons at 186 and 192 holds of every left operand. */
  lemma NegativeRejectsAll(l: int, r: int)
    requires INT64_MIN <= r < 0
    ensures l > Quotient(INT64_MAX, r) || l < Quotient(INT64_MIN, r)
  {
    FloorBound(TWO_63, -r, 1);
    FloorBound(INT64_MAX, -r, 0);
  }

  /** The comparisons of lines 186 and 192 both let the pair through. */
  predicate MulGuards(l: int, r: int) {
    r != 0 ==> l <= Quotient(INT64_MAX, r) && l >= Quotient(INT64_MIN, r)
  }

  /** They let through exactly the pairs with a right operand that is not negative and a product that fits. */
  lemma MultiplicationExactly(l: int, r: int)
    requires InRange(l) && InRange(r)
    ensures MulGuards(l, r) <==> r >= 0 && InRange(l * r)
  {
    if r > 0 {
      BoundsByDivision(l, r);
    } else if r < 0 {
      NegativeRejectsAll(l, r);
    }
  }

  /** Line 192 divides INT64_MIN by -1 for exactly one operand pair. */
  lemma UndefinedExactly(l: int, r: int)
    requires InRange(l) && InRange(r)
    ensures MulUndefined(l, r) <==>
            && !(l == -1 && r == INT64_MIN) && !(r == -1 && l == INT64_MIN)
            && r != 0 && !(l > Quotient(INT64_MAX, r)) && Quotient64(INT64_MIN, r) == None
  {
    assert Quotient(INT64_MAX, -1) == -INT64_MAX;
  }

  /** So "solved exactly when the product fits" fails exactly for a negative right operand and a product
      that fits; -1 * -1 is such a pair. */
  lemma MultiplicationRefusals(l: U64, r: U64)
    ensures var product := Signed(l) * Signed(r);
            (Evaluate(l, 0x03, r).result == Solved <==> InRange(product))
            <==> (Signed(r) >= 0 || !InRange(product))
    ensures InRange(Signed(TWO_64 - 1) * Signed(TWO_64 - 1))
    ensures Evaluate(TWO_64 - 1, 0x03, TWO_64 - 1).result == Failure
  {
  }

  /** Division and modulo accept the same pairs, and give the quotient and remainder of section 6.5.5. */
  lemma DivisionLaw(l: U64, r: U64)
    ensures var d, m := Evaluate(l, 0x04, r), Evaluate(l, 0x05, r);
            && (d.result == Solved <==> m.result == Solved)
            && (d.result == Solved <==> !DivRefused(Signed(l), Signed(r)))
            && (d.result == Solved ==>
                  && d.sign == EqSigned && m.sign == EqSigned
                  && Truncates(Signed(l), Signed(r), Signed(d.solution), Signed(m.solution)))
  {
    if !DivRefused(Signed(l), Signed(r)) {
      DivisionInRange(Signed(l), Signed(r));
      QuotientTruncates(Signed(l), Signed(r));
    }
  }

  /** "Solved exactly when the quotient exists and fits" holds of every pair but -1 by INT64_MIN, whose
      quotient is 0. */
  lemma DivisionRefusals(l: U64, r: U64)
    ensures var a, b := Signed(l), Signed(r);
            (Evaluate(l, 0x04, r).result == Solved <==> b != 0 && InRange(Quotient(a, b)))
            <==> !(a == -1 && b == INT64_MIN)
  {
    var a, b := Signed(l), Signed(r);
    if !DivRefused(a, b) {
      DivisionInRange(a, b);
    } else if a == INT64_MIN && b == -1 {
      assert Quotient(a, b) == TWO_63;
    } else if b != 0 {
      assert Quotient(a, b) == 0;
    }
  }

  lemma TopBit(x: U64)
    ensures ShiftRight(x, 63) == if x < TWO_63 then 0 else 1
  {
    Pow64();
    LowerVanishes(x, 63, 63);
  }

  /** Shifting right by 64 or more gives the top bit, so it is the true quotient only below 2^63. */
  lemma LongRightShift(x: U64, r: U64)
    requires r >= MAX_BITS
    ensures Evaluate(x, 0x07, r).solution == (if x < TWO_63 then 0 else 1)
    ensures Lower(x, r) == 0
  {
    TopBit(x);
    Pow64();
    LowerVanishes(x, 64, r);
  }
}
