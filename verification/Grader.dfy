/** The Python script's evaluator, on Python's unbounded integers, and where the solver agrees with it. */
module Grader {
  import opened Wrappers
  import opened Int64
  import opened Bits
  import opened Words
  import opened Calculation
  import opened Rotation

  // Python's `//` and `%`, which round toward negative infinity.
  function FloorDiv(a: int, b: int): int
    requires b != 0
  {
    if b > 0 then a / b else (-a) / (-b)
  }

  function FloorMod(a: int, b: int): int
    requires b != 0
  {
    a - FloorDiv(a, b) * b
  }

  /** The opcodes of the script's table. */
  predicate Known(opt: nat) { 0x01 <= opt <= 0x0c }

  /** How `Equation` unpacks an operand: signed up to opcode MOD, unsigned above it. */
  function Operand(opt: nat, x: U64): int { if opt <= 0x05 then Signed(x) else x }

  /** The script's `Equation` object. */
  datatype Equation = Equation(opt: nat, op1: int, op2: int)

  /** What every `Equation` object has: an opcode of the table, and from the shifts on unsigned operands. */
  predicate Built(e: Equation) { Known(e.opt) && (0x06 <= e.opt ==> e.op1 >= 0 && e.op2 >= 0) }

  /** `Equation.__init__`, lines 126-149. The index of line 133 raises a ValueError that nothing catches if the
      opcode is not in the table: there is no object then, and no grading. */
  function MakeEquation(opt: nat, l: U64, r: U64): (e: Option<Equation>)
    ensures e.Some? ==> Built(e.value)
  {
    if Known(opt) then Some(Equation(opt, Operand(opt, l), Operand(opt, r))) else None
  }

  /** The value the Python script expects of an equation; 0 where an operation raises an error. A left shift
      of a nonzero integer raises one beyond some limit that depends on the machine. */
  function Expected(e: Equation, limit: nat): int
    requires Built(e)
  {
    var a, b := e.op1, e.op2;
    match e.opt
    case 0x01 => a + b
    case 0x02 => a - b
    case 0x03 => a * b
    case 0x04 => if b == 0 then 0 else FloorDiv(a, b)
    case 0x05 => if b == 0 then 0 else FloorMod(a, b)
    case 0x06 => if a != 0 && b > limit then 0 else Raise(a, b)
    case 0x07 => Lower(a, b)
    case 0x08 => And(a, b)
    case 0x09 => Or(a, b)
    case 0x0a => Xor(a, b)
    case 0x0b => if b > 64 then 0 else Or(Raise(a, b), Lower(a, 64 - b))
    case _ => if b > 64 then 0 else Or(Lower(a, b), And(Raise(a, 64 - b), Pow2(64) - 1))
  }

  // The flags of a solved equation and of an error.
  const EQ_SOLVED: nat := 1
  const ERROR: nat := 0

  /** The Python script's `Solution` object. */
  class Solution {
    var solution: int
    var eqflag: nat

    constructor ()
      ensures solution == 0 && eqflag == ERROR
    {
      solution, eqflag := 0, ERROR;
    }

    /** Lines 203-209. The error flag an operation sets is overwritten when the operation returns. */
    method Solve(e: Equation, limit: nat)
      requires Built(e) && limit >= 64
      modifies this
      ensures solution == Expected(e, limit)
      ensures eqflag == EQ_SOLVED
    {
      eqflag := ERROR;
      solution := 0;
      Operate(e, limit);
      eqflag := EQ_SOLVED;
    }

    /** Lines 232-326. */
    method Operate(e: Equation, limit: nat)
      requires Built(e) && solution == 0 && limit >= 64
      modifies this
      ensures solution == Expected(e, limit)
    {
      var a, b := e.op1, e.op2;
      match e.opt
      case 0x01 => solution := a + b; CheckRange();
      case 0x02 => solution := a - b; CheckRange();
      case 0x03 => solution := a * b; CheckRange();
      case 0x04 =>
        if b == 0 {
          eqflag := ERROR;
        } else {
          solution := FloorDiv(a, b);
          CheckRange();
        }
      case 0x05 =>
        if b == 0 {
          eqflag := ERROR;
        } else {
          solution := FloorMod(a, b);
          CheckRange();
        }
      case 0x06 =>
        if a != 0 && b > limit {
          solution, eqflag := 0, ERROR;
        } else {
          solution := Raise(a, b);
        }
      case 0x07 => solution := Lower(a, b);
      case 0x08 => solution := And(a, b);
      case 0x09 => solution := Or(a, b);
      case 0x0a => solution := Xor(a, b);
      case _ =>
        if b > 64 {
          solution, eqflag := 0, ERROR;
        } else if e.opt == 0x0b {
          solution := Or(Raise(a, b), Lower(a, 64 - b));
        } else {
          solution := Or(Lower(a, b), And(Raise(a, 64 - b), Pow2(64) - 1));
        }
    }

    /** The chained comparison at the end of the arithmetic operations. */
    method CheckRange()
      modifies this`eqflag
    {
      if TWO_64 > solution > TWO_63 {
        eqflag := ERROR;
      }
    }
  }

  /** A verdict of the solver, read under its sign tag as the Python script reads a solved file. */
  function Value(o: Outcome): int {
    if o.sign == EqSigned then Signed(o.solution) else o.solution
  }

  /** The value and the flag the Python script arrives at, if it arrives at any. */
  function ScriptValue(opt: nat, l: U64, r: U64, limit: nat): Option<int> {
    match MakeEquation(opt, l, r)
    case None => None
    case Some(e) => Some(Expected(e, limit))
  }

  function ScriptFlag(opt: nat, l: U64, r: U64): Option<nat> {
    if MakeEquation(opt, l, r).Some? then Some(EQ_SOLVED) else None
  }

  /** The flag of a verdict in a solved file. */
  function Flag(o: Outcome): nat { if o.result == Solved then EQ_SOLVED else ERROR }

  /** The Python script has a value, and it is the solver's. */
  predicate SameValue(opt: nat, l: U64, r: U64, limit: nat) {
    ScriptValue(opt, l, r, limit) == Some(Value(Evaluate(l, opt, r)))
  }

  /** When the values agree, opcode by opcode. */
  predicate Agreeable(opt: nat, l: U64, r: U64, limit: nat) {
    var a, b := Operand(opt, l), Operand(opt, r);
    match opt
    case 0x01 => InRange(a + b)
    case 0x02 => InRange(a - b)
    case 0x03 => a == 0 || (b >= 0 && InRange(a * b))
    case 0x04 => b == 0 || ((a % b == 0 || (a < 0 <==> b < 0)) && !(a == INT64_MIN && b == -1))
    case 0x05 => b == 0 || a % b == 0 || ((a < 0 <==> b < 0) && !(a == -1 && b == INT64_MIN))
    case 0x06 => l == 0 || (if r <= limit then Raise(l, r) < TWO_64 else Low(l, 64 - r % 64) == 0)
    case 0x07 => r < 64 || l < TWO_63
    case 0x0b => Raise(l, r) < TWO_64
    case 0x0c => r <= 64 || l == 0
    case _ => Known(opt)
  }

  /** The Python script has a flag, and it is the solver's. */
  predicate SameFlag(opt: nat, l: U64, r: U64) {
    ScriptFlag(opt, l, r) == Some(Flag(Evaluate(l, opt, r)))
  }

  /** When the flags agree, opcode by opcode. */
  predicate FlagsAgreeable(opt: nat, l: U64, r: U64) {
    var a, b := Operand(opt, l), Operand(opt, r);
    match opt
    case 0x01 => InRange(a + b)
    case 0x02 => InRange(a - b)
    case 0x03 => b >= 0 && InRange(a * b)
    case 0x04 => !DivRefused(a, b)
    case 0x05 => !DivRefused(a, b)
    case _ => Known(opt)
  }

  // ----- arithmetic

  /** Flooring and truncating differ exactly when the signs differ and something is left over. */
  lemma FloorIsQuotient(a: int, b: int)
    requires b != 0
    ensures FloorDiv(a, b) == Quotient(a, b) <==> a % b == 0 || (a < 0 <==> b < 0)
    ensures Abs(FloorMod(a, b)) < Abs(b) && (a % b == 0 <==> FloorMod(a, b) == 0)
  {
    var q, m := Quotient(a, b), Remainder(a, b);
    QuotientTruncates(a, b);
    FloorRemainder(a, b);
    if FloorDiv(a, b) == q {
      assert FloorMod(a, b) == m;
    }
    if a % b == 0 {
      TruncationUnique(a, b, q, m, FloorDiv(a, b), 0);
    } else if a < 0 <==> b < 0 {
      TruncationUnique(a, b, q, m, FloorDiv(a, b), FloorMod(a, b));
    }
  }

  /** The remainder of a floored division has the divisor's sign. */
  lemma FloorRemainder(a: int, b: int)
    requires b != 0
    ensures var m := FloorMod(a, b);
            Abs(m) < Abs(b) && (m == 0 || (m < 0 <==> b < 0)) && (a % b == 0 <==> m == 0)
  {
    var q := FloorDiv(a, b);
    if b > 0 {
      assert a == q * b + a % b;
    } else {
      var c := -b;
      assert -a == q * c + (-a) % c;
      assert q * b == -(q * c);
      NegatedMultiple(a, c);
    }
  }

  lemma NegatedMultiple(a: int, c: int)
    requires c > 0
    ensures a % -c == 0 <==> (-a) % c == 0
  {
    assert a == (a / -c) * -c + a % -c;
    assert -a == ((-a) / c) * c + (-a) % c;
    var k := (-a) / c + -(a / -c);
    assert (a / -c) * -c == -((a / -c) * c);
    assert ((-a) / c - (a / -c)) * c == ((-a) / c) * c - (a / -c) * c;
    if a % -c == 0 {
      if (-a) % c != 0 {
        MultiplesAreFarApart(c, (a / -c) - (-a) / c);
      }
    } else if (-a) % c == 0 {
      MultiplesAreFarApart(c, (a / -c) - (-a) / c);
    }
  }

  lemma ArithmeticAgrees(opt: nat, l: U64, r: U64, limit: nat)
    requires 0x01 <= opt <= 0x03
    ensures SameValue(opt, l, r, limit) <==> Agreeable(opt, l, r, limit)
  {
    var a, b := Signed(l), Signed(r);
    if opt == 0x03 && a * b == 0 && a != 0 && b != 0 {
      AbsProduct(a, b);
      ScaleUp(Abs(a), Abs(b));
    }
  }

  lemma DivisionAgrees(l: U64, r: U64, limit: nat)
    ensures SameValue(0x04, l, r, limit) <==> Agreeable(0x04, l, r, limit)
    ensures SameValue(0x05, l, r, limit) <==> Agreeable(0x05, l, r, limit)
  {
    var a, b := Signed(l), Signed(r);
    if b != 0 {
      FloorIsQuotient(a, b);
      if !DivRefused(a, b) {
        DivisionInRange(a, b);
        RemaindersFollow(a, b);
      } else if b == -1 {
        assert FloorDiv(a, b) == TWO_63 && a % b == 0;
      } else {
        assert FloorDiv(a, b) == 0 && FloorMod(a, b) == -1;
      }
    }
  }

  lemma RemaindersFollow(a: int, b: int)
    requires b != 0
    ensures FloorMod(a, b) == Remainder(a, b) <==> FloorDiv(a, b) == Quotient(a, b)
  {
    var k := FloorDiv(a, b) - Quotient(a, b);
    assert k * b == Remainder(a, b) - FloorMod(a, b);
    if k != 0 {
      MultiplesAreFarApart(Abs(b), k);
      AbsProduct(k, b);
      assert Abs(k * b) != 0;
    }
  }

  // ----- what the script computes, operation by operation

  /** The value v is right for the operation, in Python's terms. */
  ghost predicate ScriptRight(e: Equation, limit: nat, v: int)
    requires Built(e)
  {
    var a, b := e.op1, e.op2;
    match e.opt
    case 0x01 => v == a + b
    case 0x02 => v == a - b
    case 0x03 => v == a * b
    case 0x04 => if b == 0 then v == 0 else exists m :: Floors(a, b, v, m)
    case 0x05 => if b == 0 then v == 0 else exists q :: Floors(a, b, q, v)
    case 0x06 => v == if a != 0 && b > limit then 0 else a * Pow2(b)
    case 0x07 => v == a / Pow2(b)
    case 0x08 => v >= 0 && forall i: nat :: Bit(v, i) <==> Bit(a, i) && Bit(b, i)
    case 0x09 => v >= 0 && forall i: nat :: Bit(v, i) <==> Bit(a, i) || Bit(b, i)
    case 0x0a => v >= 0 && forall i: nat :: Bit(v, i) <==> Bit(a, i) != Bit(b, i)
    case 0x0b =>
      if b > 64 then v == 0
      else v >= 0 && forall i: nat :: Bit(v, i) <==> (i >= b && Bit(a, i - b)) || Bit(a, i + (64 - b))
    case _ =>
      if b > 64 then v == 0
      else v >= 0 && forall i: nat ::
          Bit(v, i) <==> Bit(a, i + b) || (64 - b <= i < 64 && Bit(a, i - (64 - b)))
  }

  /** Quotient and remainder of Python's floored division. */
  predicate Floors(a: int, b: int, q: int, m: int) {
    a == q * b + m && if b > 0 then 0 <= m < b else b < m <= 0
  }

  lemma DivisionFloors(a: int, b: int)
    requires b != 0
    ensures Floors(a, b, FloorDiv(a, b), FloorMod(a, b))
  {
    hide FloorDiv;
    FloorRemainder(a, b);
  }

  lemma LeftRotationBits(a: nat, b: nat, i: nat)
    requires b <= 64
    ensures Bit(Or(Raise(a, b), Lower(a, 64 - b)), i) <==> (i >= b && Bit(a, i - b)) || Bit(a, i + (64 - b))
  {
    hide Bit, Bitwise, Raise, Lower;
    BitOfBitwise(Raise(a, b), Lower(a, 64 - b), Either, i);
    BitOfRaise(a, b, i);
    BitOfLower(a, 64 - b, i);
  }

  lemma RightRotationBits(a: nat, b: nat, i: nat)
    requires b <= 64
    ensures Bit(Or(Lower(a, b), And(Raise(a, 64 - b), Pow2(64) - 1)), i) <==>
            Bit(a, i + b) || (64 - b <= i < 64 && Bit(a, i - (64 - b)))
  {
    hide Bit, Bitwise, Raise, Lower, Low, Pow2;
    var high := Raise(a, 64 - b);
    MaskIsLow(high, 64);
    BitOfBitwise(Lower(a, b), And(high, Pow2(64) - 1), Either, i);
    BitOfLow(high, 64, i);
    BitOfRaise(a, 64 - b, i);
    BitOfLower(a, b, i);
  }

  lemma LogicBits(a: nat, b: nat, i: nat)
    ensures Bit(And(a, b), i) <==> Bit(a, i) && Bit(b, i)
    ensures Bit(Or(a, b), i) <==> Bit(a, i) || Bit(b, i)
    ensures Bit(Xor(a, b), i) <==> Bit(a, i) != Bit(b, i)
  {
    hide Bit, Bitwise;
    BitOfBitwise(a, b, Both, i);
    BitOfBitwise(a, b, Either, i);
    BitOfBitwise(a, b, OneOf, i);
  }

  /** For every equation the script builds, the value it expects is right. */
  lemma ExpectedIsRight(e: Equation, limit: nat)
    requires Built(e)
    ensures ScriptRight(e, limit, Expected(e, limit))
  {
    hide Bit, And, Or, Xor, Raise, Lower, Pow2, FloorDiv, FloorMod;
    var a, b := e.op1, e.op2;
    match e.opt
    case 0x04 => if b != 0 { DivisionFloors(a, b); }
    case 0x05 => if b != 0 { DivisionFloors(a, b); }
    case 0x06 => RaiseIsProduct(a, b);
    case 0x07 => LowerIsQuotient(a, b);
    case 0x08 => forall i: nat { LogicBits(a, b, i); }
    case 0x09 => forall i: nat { LogicBits(a, b, i); }
    case 0x0a => forall i: nat { LogicBits(a, b, i); }
    case 0x0b => RotationsAreRight(e, limit);
    case 0x0c => RotationsAreRight(e, limit);
    case _ =>
  }

  lemma RotationsAreRight(e: Equation, limit: nat)
    requires Built(e) && (e.opt == 0x0b || e.opt == 0x0c)
    ensures ScriptRight(e, limit, Expected(e, limit))
  {
    hide Bit, And, Or, Raise, Lower, Pow2;
    var a, b, v := e.op1, e.op2, Expected(e, limit);
    if b <= 64 && e.opt == 0x0b {
      forall i: nat ensures Bit(v, i) <==> (i >= b && Bit(a, i - b)) || Bit(a, i + (64 - b)) {
        LeftRotationBits(a, b, i);
      }
    } else if b <= 64 {
      forall i: nat ensures Bit(v, i) <==> Bit(a, i + b) || (64 - b <= i < 64 && Bit(a, i - (64 - b))) {
        RightRotationBits(a, b, i);
      }
    }
  }

  // ----- shifts and rotations

  /** A word moved up still fits in 64 bits only if it is 0 or moves by less than 64. */
  lemma FittingShift(l: U64, r: nat)
    ensures l > 0 && Raise(l, r) < TWO_64 ==> r < 64
    ensures l == 0 ==> Raise(l, r) == 0
  {
    RaiseIsProduct(l, r);
    if l > 0 && r >= 64 {
      Pow64();
      PowMonotone(64, r);
      ScaleUp(l, Pow2(r));
    }
  }

  /** A left shift leaves 0 exactly if the low bits, those that stay in the word, are 0. */
  lemma ShiftsOut(l: U64, n: nat)
    requires n < 64
    ensures ShiftLeft(l, n) == 0 <==> Low(l, 64 - n) == 0
  {
    hide Raise, Low, Pow2;
    Pow64();
    LowIsRemainder(Raise(l, n), 64);
    LowOfRaise(l, n, 64 - n);
    RaiseIsZero(Low(l, 64 - n), n);
  }

  lemma ShiftsAgree(l: U64, r: U64, limit: nat)
    requires limit >= 64
    ensures SameValue(0x06, l, r, limit) <==> Agreeable(0x06, l, r, limit)
    ensures SameValue(0x07, l, r, limit) <==> Agreeable(0x07, l, r, limit)
  {
    hide Low, Raise, Lower;
    FittingShift(l, r);
    ShiftsOut(l, r % 64);
    if l == 0 {
      FittingShift(l, r % 64);
    }
    if r >= 64 {
      LongRightShift(l, r);
    }
  }

  lemma {:induction false} RotationKeepsZero(x: U64, r: U64)
    ensures RotateLeft(x, r) == 0 <==> x == 0
    ensures RotateRight(x, r) == 0 <==> x == 0
  {
    RotationsInvert(x, r);
    var n := r % 64;
    assert RotateLeft(0, r) == 0 && RotateRight(0, r) == 0 by {
      if n != 0 {
        FittingShift(0, n);
        FittingShift(0, 64 - n);
      }
    }
  }

  lemma LeftRotationAgrees(l: U64, r: U64, limit: nat)
    ensures SameValue(0x0b, l, r, limit) <==> Agreeable(0x0b, l, r, limit)
  {
    hide Or, Raise, Lower, RotateLeft;
    FittingShift(l, r);
    if r > 64 {
      RotationKeepsZero(l, r);
    } else {
      OrAtLeast(Raise(l, r), Lower(l, 64 - r));
      if Raise(l, r) < TWO_64 {
        FittingLeftRotation(l, r);
      }
    }
  }

  lemma FittingLeftRotation(l: U64, r: nat)
    requires r <= 64 && Raise(l, r) < TWO_64
    ensures RotateLeft(l, r) == Or(Raise(l, r), Lower(l, 64 - r))
  {
    hide Bitwise, Pow2, Raise, Lower;
    FittingShift(l, r);
    NoTurn(l);
  }

  /** Moving by nothing, and moving out of the word. */
  lemma NoTurn(l: U64)
    ensures Raise(l, 0) == l == Lower(l, 0)
    ensures Lower(l, 64) == 0 && Raise(l, 64) % TWO_64 == 0
    ensures Or(l, 0) == l == Or(0, l)
  {
    hide Bitwise;
    Pow64();
    OrZero(l);
    LowerVanishes(l, 64, 64);
    RaiseIsProduct(l, 64);
  }

  lemma RightRotationAgrees(l: U64, r: U64, limit: nat)
    ensures SameValue(0x0c, l, r, limit) <==> Agreeable(0x0c, l, r, limit)
  {
    hide And, Or, Pow2, Raise, Lower, RotateRight;
    if r > 64 {
      RotationKeepsZero(l, r);
    } else {
      MaskedRightRotation(l, r);
    }
  }

  lemma MaskedRightRotation(l: U64, r: nat)
    requires r <= 64
    ensures RotateRight(l, r) == Or(Lower(l, r), And(Raise(l, 64 - r), Pow2(64) - 1))
  {
    hide And, Bitwise, Pow2, Raise, Lower;
    MaskIsWord(Raise(l, 64 - r));
    NoTurn(l);
  }

  lemma MaskIsWord(x: nat)
    ensures And(x, Pow2(64) - 1) == x % TWO_64
  {
    hide And, Pow2;
    MaskIsLow(x, 64);
    LowIsRemainder(x, 64);
    Pow64();
  }

  // ----- the main results

  /** For every opcode and every pair of 64-bit operands, the solver's value is the Python script's exactly
      when `Agreeable` says so. */
  lemma AgreementExactly(opt: nat, l: U64, r: U64, limit: nat)
    requires limit >= 64
    ensures SameValue(opt, l, r, limit) <==> Agreeable(opt, l, r, limit)
  {
    match opt
    case 0x01 => ArithmeticAgrees(opt, l, r, limit);
    case 0x02 => ArithmeticAgrees(opt, l, r, limit);
    case 0x03 => ArithmeticAgrees(opt, l, r, limit);
    case 0x04 => DivisionAgrees(l, r, limit);
    case 0x05 => DivisionAgrees(l, r, limit);
    case 0x06 => ShiftsAgree(l, r, limit);
    case 0x07 => ShiftsAgree(l, r, limit);
    case 0x0b => LeftRotationAgrees(l, r, limit);
    case 0x0c => RightRotationAgrees(l, r, limit);
    case _ =>
  }

  /** For every opcode and every pair of 64-bit operands, the flags agree exactly when `FlagsAgreeable`
      says so: the script flags every equation it can build as solved, the solver only what it solved. */
  lemma FlagsAgreeExactly(opt: nat, l: U64, r: U64)
    ensures SameFlag(opt, l, r) <==> FlagsAgreeable(opt, l, r)
  {
    if 0x04 <= opt <= 0x05 && !DivRefused(Signed(l), Signed(r)) {
      DivisionInRange(Signed(l), Signed(r));
    }
  }

  /** They part on every division by zero, where the values agree. */
  lemma FlagsDifferOnDivisionByZero(l: U64, limit: nat)
    ensures SameValue(0x04, l, 0, limit) && !SameFlag(0x04, l, 0)
    ensures SameValue(0x05, l, 0, limit) && !SameFlag(0x05, l, 0)
  {
  }

  /** The Python script has a value and a flag exactly for the opcodes of its table. The solver has a verdict
      for every opcode: a failure for those outside it, of which 0x20 is one. */
  lemma ScriptGivesUpExactly(opt: nat, l: U64, r: U64, limit: nat)
    ensures ScriptValue(opt, l, r, limit) == None <==> !Known(opt)
    ensures ScriptFlag(opt, l, r) == None <==> !Known(opt)
    ensures !Known(opt) ==> Evaluate(l, opt, r) == FAILED
    ensures ScriptValue(0x20, l, r, limit) == None
  {
  }

  /** One equation solved by both, and compared as `get_results` does (lines 412-421): if the Python script can
      build the equation, it passes when the values agree, whatever the flags and data codes. */
  method Grade(eqId: nat, l: U64, opt: nat, r: U64, limit: nat)
    returns (defined: bool, graded: bool, passes: bool, sameFlag: bool)
    requires limit >= 64
    ensures defined <==> !(opt == 0x03 && MulUndefined(Signed(l), Signed(r)))
    ensures graded <==> Known(opt)
    ensures defined && graded ==> (passes <==> Agreeable(opt, l, r, limit))
    ensures defined && graded ==> (sameFlag <==> FlagsAgreeable(opt, l, r))
    ensures !graded ==> !passes && !sameFlag
  {
    hide Evaluate, Expected, Agreeable, FlagsAgreeable;
    var given: Calculation.Solution;
    given, defined := GetEquation(eqId, l, opt, r);
    var equation := MakeEquation(opt, l, r);
    if equation == None {
      return defined, false, false, false;
    }
    graded := true;
    var check := new Solution();
    check.Solve(equation.value, limit);
    sameFlag := Flag(given.Verdict()) == check.eqflag;
    passes := true;
    var code := if opt <= 0x05 then EqSigned else EqUnsigned;
    if given.eqId != eqId || !sameFlag || Value(given.Verdict()) != check.solution || given.sign != code {
      passes := Value(given.Verdict()) == check.solution;
    }
    AgreementExactly(opt, l, r, limit);
    FlagsAgreeExactly(opt, l, r);
  }

  /** The operands `gen_equations` draws for an opcode. */
  predicate Generated(opt: nat, l: U64, r: U64) {
    && Known(opt)
    && l <= 0x10000
    && r <= (if opt <= 0x05 then 0x10000 else 16)
  }

  /** On every equation the generator can write, the solver and the Python script have the same value. */
  lemma GeneratedEquationsAgree(opt: nat, l: U64, r: U64, limit: nat)
    requires Generated(opt, l, r) && limit >= 64
    ensures SameValue(opt, l, r, limit)
  {
    AgreementExactly(opt, l, r, limit);
    if opt == 0x03 {
      SmallProduct(l, r, 0x10000);
    } else if opt >= 0x06 {
      PowMonotone(r, 16);
      assert Pow2(16) == 0x10000 by {
        assert Pow2(8) == 256;
        PowAdd(8, 8);
      }
      RaiseIsProduct(l, r);
      SmallProduct(l, Pow2(r), 0x10000);
    }
  }

  lemma SmallProduct(x: nat, y: nat, bound: nat)
    requires x <= bound && y <= bound
    ensures x * y <= bound * bound
  {
    MulMonotone(x, bound, y);
    MulMonotone(y, bound, bound);
  }
}
