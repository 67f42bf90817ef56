/** Algebraic simplification and constant folding of quads, in place. */
module Simplify {
  import opened Ic
  import opened LibLux

  // ------------------------------------------------------------------
  // Bits
  // ------------------------------------------------------------------

  datatype BitOp = AND | OR | XOR

  function OneBit(f: BitOp, a: nat, b: nat): (r: nat)
    ensures r <= 1
  {
    match f
    case AND => if a == 1 && b == 1 then 1 else 0
    case OR => if a == 1 || b == 1 then 1 else 0
    case XOR => if a == b then 0 else 1
  }

  /** Bit by bit. */
  function Bits(f: BitOp, x: nat, y: nat): nat
    decreases x + y
  {
    if x == 0 && y == 0 then 0 else OneBit(f, x % 2, y % 2) + 2 * Bits(f, x / 2, y / 2)
  }

  /** x & 0, x | 0 and x ^ 0, either way round. */
  lemma {:induction false} BitsZero(x: nat)
    ensures Bits(AND, x, 0) == 0 == Bits(AND, 0, x)
    ensures Bits(OR, x, 0) == x == Bits(OR, 0, x)
    ensures Bits(XOR, x, 0) == x == Bits(XOR, 0, x)
  {
    if x > 0 {
      BitsZero(x / 2);
    }
  }

  lemma {:induction false} AndSelf(x: nat)
    ensures Bits(AND, x, x) == x
  {
    if x > 0 {
      AndSelf(x / 2);
    }
  }

  lemma AndStep(x: nat, y: nat)
    ensures Bits(AND, x, y) == (if x % 2 == 1 && y % 2 == 1 then 1 else 0) + 2 * Bits(AND, x / 2, y / 2)
  {
    if x == 0 && y == 0 {
      assert Bits(AND, 0, 0) == 0;
    }
  }

  /** x & (2^n - 1) is the remainder. */
  lemma {:induction false} AndMask(x: nat, n: nat)
    ensures Bits(AND, x, Pow2(n) - 1) == x % Pow2(n)
    decreases n
  {
    hide Bits;
    if n == 0 {
      BitsZero(x);
    } else {
      var p := Pow2(n - 1);
      AndMask(x / 2, n - 1);
      AndStep(x, 2 * p - 1);
      assert (2 * p - 1) / 2 == p - 1 && (2 * p - 1) % 2 == 1;
      HalfRemainder(x, p);
    }
  }

  lemma HalfRemainder(x: nat, p: nat)
    requires p >= 1
    ensures x % 2 + 2 * (x / 2 % p) == x % (2 * p)
  {
    QuoRem(x / 2, p);
    var q, r := Quo(x / 2, p), Rem(x / 2, p);
    assert x == 2 * (x / 2) + x % 2;
    TimesTwo(p, q);
    assert x == Times(2 * p, q) + (2 * r + x % 2);
    QuoUnique(x, 2 * p, q, 2 * r + x % 2);
  }

  // ------------------------------------------------------------------
  // Powers of two
  // ------------------------------------------------------------------

  /** x != 0 && (x & (x-1)) == 0 */
  predicate IsPo2(x: DWord) { x != 0 && Bits(AND, x, x - 1) == 0 }

  function Log(x: nat): nat
    requires x > 0
  {
    if x == 1 then 0 else 1 + Log(x / 2)
  }

  lemma {:induction false} Po2Exact(x: nat)
    requires x > 0
    ensures Bits(AND, x, x - 1) == 0 <==> x == Pow2(Log(x))
  {
    hide Bits;
    AndStep(x, x - 1);
    if x == 1 {
      BitsZero(1);
      BitsZero(0);
    } else if x % 2 == 1 {
      assert (x - 1) / 2 == x / 2;
      AndSelf(x / 2);
    } else {
      assert (x - 1) / 2 == x / 2 - 1;
      Po2Exact(x / 2);
    }
  }

  lemma {:induction false} LogBelow(x: nat, n: nat)
    requires 0 < x < Pow2(n)
    ensures Log(x) < n
    decreases n
  {
    if n == 0 {
      Pow2Zero();
    } else if x > 1 {
      LogBelow(x / 2, n - 1);
    }
  }

  /** `ilog2`: the parameter is a 32-bit unsigned. */
  method ILog2(v: DWord) returns (x: int)
    ensures x == LogOf(v)
  {
    var val: nat := v % TWO32;
    x := -1;
    while val != 0
      invariant LogOf(v) == if val == 0 then x else x + 1 + Log(val)
    {
      val := val / 2;
      x := x + 1;
    }
  }

  function LogOf(v: DWord): int { if v % TWO32 == 0 then -1 else Log(v % TWO32) }

  /** The logarithm is right up to 2^31, and -1 for every larger power of two. */
  lemma LogOfPo2(v: DWord)
    requires IsPo2(v)
    ensures v == Pow2(Log(v)) && Log(v) < 64
    ensures if Log(v) < 32 then LogOf(v) == Log(v) else LogOf(v) == -1
  {
    Po2Exact(v);
    hide Pow2, Bits, Log, LogOf;
    LogBelow64(v);
    if Log(v) < 32 {
      SmallPower(Log(v));
      LogOfSmall(v);
    } else {
      WidePowerSplit(Log(v));
      LogOfMultiple(v, Pow2(Log(v) - 32));
    }
  }

  lemma LogBelow64(v: DWord)
    requires v > 0
    ensures Log(v) < 64
  {
    hide Pow2, Log;
    Pow2Values();
    LogBelow(v, 64);
  }

  lemma SmallPower(n: nat)
    requires n < 32
    ensures Pow2(n) < TWO32
  {
    hide Pow2;
    Pow2Of32();
    Pow2Less(n, 32);
  }

  lemma WidePowerSplit(n: nat)
    requires n >= 32
    ensures Pow2(n) == TWO32 * Pow2(n - 32)
  {
    hide Pow2;
    Pow2Of32();
    Pow2Add(32, n - 32);
  }

  lemma LogOfSmall(v: DWord)
    requires 0 < v < TWO32
    ensures LogOf(v) == Log(v)
  {
    hide Log;
  }

  lemma LogOfMultiple(v: DWord, k: nat)
    requires v == TWO32 * k
    ensures LogOf(v) == -1
  {
  }

  lemma Pow2Of32()
    ensures Pow2(32) == TWO32
  {
    assert Pow2(4) == 16;
    Pow2Add(4, 4);
    Pow2Add(8, 8);
    Pow2Add(16, 16);
  }

  lemma {:induction false} Pow2Less(m: nat, n: nat)
    requires m < n
    ensures Pow2(m) < Pow2(n)
    decreases n - m
  {
    if m + 1 < n {
      Pow2Less(m + 1, n);
    }
  }

  // ------------------------------------------------------------------
  // What a quad computes
  // ------------------------------------------------------------------

  datatype Option<+T> = None | Some(value: T)

  /** The operators that are simplified. */
  predicate Arithmetic(op: OpKind) {
    op.OpAdd? || op.OpSub? || op.OpMul? || op.OpDiv? || op.OpRem? || op.OpSHL? || op.OpSHR? || op.OpAnd? || op.OpOr?
        || op.OpXor?
  }

  predicate Single(op: OpKind) { op.OpNeg? || op.OpCmpl? || op.OpNot? }

  /** Quotient or remainder; none by zero, and none where the signed quotient is out of range. */
  function Divide(isUnsigned: bool, quo: bool, x: DWord, y: DWord): Option<DWord> {
    if y == 0 then None
    else if isUnsigned then Some(if quo then x / y else x % y)
    else if x == TWO63 && y == TWO64 - 1 then None
    else Some(Pattern(if quo then TruncQuo(AsSigned(x), AsSigned(y)) else TruncRem(AsSigned(x), AsSigned(y))))
  }

  /** Shifts by 64 and more have no value; a signed right shift rounds down. */
  function ShiftLeft(x: DWord, y: DWord): Option<DWord> {
    if y >= 64 then None else Some(Pattern(x * Pow2(y)))
  }

  function ShiftRight(isUnsigned: bool, x: DWord, y: DWord): Option<DWord> {
    if y >= 64 then None else Some(Pattern((if isUnsigned then x else AsSigned(x)) / Pow2(y)))
  }

  function Bitwise(op: OpKind, x: DWord, y: DWord): DWord {
    Pattern(Bits(if op.OpAnd? then AND else if op.OpOr? then OR else XOR, x, y))
  }

  /** The 64-bit value of a quad whose operands have these values. */
  function Effect(op: OpKind, isUnsigned: bool, x: DWord, y: DWord): Option<DWord>
    requires Arithmetic(op) || Single(op) || op.OpAsn?
  {
    match op
    case OpAdd => Some(Pattern(x + y))
    case OpSub => Some(Pattern(x - y))
    case OpMul => Some(Pattern(x * y))
    case OpDiv => Divide(isUnsigned, true, x, y)
    case OpRem => Divide(isUnsigned, false, x, y)
    case OpSHL => ShiftLeft(x, y)
    case OpSHR => ShiftRight(isUnsigned, x, y)
    case OpNeg => Some(Pattern(0 - x))
    case OpCmpl => Some(TWO64 - 1 - x)
    case OpNot => Some(if x == 0 then 1 else 0)
    case OpAsn => Some(x)
    case OpAnd | OpOr | OpXor => Some(Bitwise(op, x, y))
  }

  // ------------------------------------------------------------------
  // What the operators mean
  // ------------------------------------------------------------------

  /** Is bit i of x set? */
  predicate BitSet(x: nat, i: nat) { x / Pow2(i) % 2 == 1 }

  lemma BitSetStep(x: nat, i: nat)
    ensures BitSet(x, 0) <==> x % 2 == 1
    ensures i > 0 ==> (BitSet(x, i) <==> BitSet(x / 2, i - 1))
  {
    assert Pow2(0) == 1;
    if i > 0 {
      HalfQuotient(x, Pow2(i - 1));
    }
  }

  lemma HalfQuotient(x: nat, p: nat)
    requires p >= 1
    ensures x / (2 * p) == x / 2 / p
  {
    QuoRem(x / 2, p);
    var q, r := Quo(x / 2, p), Rem(x / 2, p);
    assert x == 2 * (x / 2) + x % 2;
    TimesTwo(p, q);
    assert x == Times(2 * p, q) + (2 * r + x % 2);
    QuoUnique(x, 2 * p, q, 2 * r + x % 2);
  }

  /** The bits of the result are those of the operands combined. */
  lemma {:induction false} BitsAt(f: BitOp, x: nat, y: nat, i: nat)
    ensures BitSet(Bits(f, x, y), i) <==>
            match f
            case AND => BitSet(x, i) && BitSet(y, i)
            case OR => BitSet(x, i) || BitSet(y, i)
            case XOR => BitSet(x, i) != BitSet(y, i)
    decreases i
  {
    BitSetStep(x, i);
    BitSetStep(y, i);
    BitSetStep(Bits(f, x, y), i);
    hide BitSet;
    BitsHalved(f, x, y);
    if i > 0 {
      BitsAt(f, x / 2, y / 2, i - 1);
    }
  }

  lemma BitsHalved(f: BitOp, x: nat, y: nat)
    ensures Bits(f, x, y) / 2 == Bits(f, x / 2, y / 2) && Bits(f, x, y) % 2 == OneBit(f, x % 2, y % 2)
  {
    assert Bits(f, 0, 0) == 0;
  }

  lemma {:induction false} BitsBelow(f: BitOp, x: nat, y: nat, n: nat)
    requires x < Pow2(n) && y < Pow2(n)
    ensures Bits(f, x, y) < Pow2(n)
    decreases n
  {
    if n == 0 {
      assert Bits(f, 0, 0) == 0;
    } else {
      BitsBelow(f, x / 2, y / 2, n - 1);
      BitsHalved(f, x, y);
    }
  }

  /** AND, OR and XOR of 64-bit values bit by bit. */
  lemma BitwiseMeans(op: OpKind, isUnsigned: bool, x: DWord, y: DWord, i: nat)
    requires (op.OpAnd? || op.OpOr? || op.OpXor?) && i < 64
    ensures Effect(op, isUnsigned, x, y).Some?
    ensures BitSet(Effect(op, isUnsigned, x, y).value, i) <==>
            if op.OpAnd? then BitSet(x, i) && BitSet(y, i)
            else if op.OpOr? then BitSet(x, i) || BitSet(y, i)
            else BitSet(x, i) != BitSet(y, i)
  {
    Pow2Values();
    var f := if op.OpAnd? then AND else if op.OpOr? then OR else XOR;
    hide BitSet, Bits, Pow2;
    BitsBelow(f, x, y, 64);
    BitsAt(f, x, y, i);
  }

  lemma PatternCancels(x: DWord, y: DWord)
    ensures Pattern(Pattern(x - y) + y) == x
    ensures Pattern(Pattern(0 - x) + x) == 0
  {
    assert Pattern(x - y) == if x >= y then x - y else x - y + TWO64;
    assert Pattern(0 - x) == if x == 0 then 0 else TWO64 - x;
  }

  /** The other operators, by what undoes them modulo 2^64. */
  lemma EffectUndone(isUnsigned: bool, x: DWord, y: DWord)
    ensures var d := Effect(OpSub, isUnsigned, x, y); d.Some? && Effect(OpAdd, isUnsigned, d.value, y) == Some(x)
    ensures var n := Effect(OpNeg, isUnsigned, x, y); n.Some? && Effect(OpAdd, isUnsigned, n.value, x) == Some(0)
    ensures var c := Effect(OpCmpl, isUnsigned, x, y); c.Some? && c.value + x == TWO64 - 1
    ensures Effect(OpNot, isUnsigned, x, y) == Some(1) <==> x == 0
    ensures Effect(OpNot, isUnsigned, x, y) == Some(0) <==> x != 0
  {
    PatternCancels(x, y);
    hide Pattern;
  }

  /** Addition is that of the numbers as long as the sum fits. */
  lemma SumFits(isUnsigned: bool, x: DWord, y: DWord)
    requires x + y < TWO64
    ensures Effect(OpAdd, isUnsigned, x, y) == Some(x + y)
  {
  }

  /** Shifts by less than 64: to the left modulo 2^64, to the right rounded down. */
  lemma ShiftsMean(isUnsigned: bool, x: DWord, y: DWord)
    ensures Effect(OpSHL, isUnsigned, x, y).Some? <==> y < 64
    ensures Effect(OpSHR, isUnsigned, x, y).Some? <==> y < 64
    ensures Effect(OpSHL, isUnsigned, x, 0) == Some(x) == Effect(OpSHR, isUnsigned, x, 0)
    ensures y + 1 < 64 ==>
              Effect(OpSHL, isUnsigned, x, y + 1).value == Pattern(2 * Effect(OpSHL, isUnsigned, x, y).value)
    ensures y < 64 && isUnsigned ==> Effect(OpSHR, true, x, y).value == x / Pow2(y)
    ensures y < 64 && !isUnsigned ==> AsSigned(Effect(OpSHR, false, x, y).value) == AsSigned(x) / Pow2(y)
  {
    assert Pow2(0) == 1;
    if y < 64 {
      Pow2Succ(y);
      ModTwice(x, Pow2(y));
      ShrinksUnsigned(x, Pow2(y));
      ShrinksSigned(x, Pow2(y));
    }
    hide Pow2;
  }

  lemma ModTwice(x: int, p: int)
    ensures Pattern(x * (2 * p)) == Pattern(2 * Pattern(x * p))
  {
    assert x * (2 * p) == 2 * (x * p);
    DoubleMod(x * p);
  }

  lemma DoubleMod(v: int)
    ensures Pattern(2 * v) == Pattern(2 * Pattern(v))
  {
    assert v == TWO64 * (v / TWO64) + Pattern(v);
    assert 2 * v == 2 * Pattern(v) + TWO64 * (2 * (v / TWO64));
    ModMultiple(2 * Pattern(v), 2 * (v / TWO64));
  }

  lemma ShrinksUnsigned(x: DWord, p: nat)
    requires p >= 1
    ensures Pattern(x / p) == x / p
  {
    QuoRem(x, p);
    assert Quo(x, p) == x / p;
  }

  lemma ShrinksSigned(x: DWord, p: nat)
    requires p >= 1
    ensures AsSigned(Pattern(AsSigned(x) / p)) == AsSigned(x) / p
  {
    var a := AsSigned(x);
    FloorBetween(a, p);
    BackFromPattern(a / p);
  }

  lemma FloorBetween(a: int, p: nat)
    requires p >= 1
    ensures if a >= 0 then 0 <= a / p <= a else a <= a / p < 0
  {
    if a >= 0 {
      QuoRem(a, p);
      assert Quo(a, p) == a / p;
    } else {
      // -a = p * (q - 1) + (r + 1), rounded up
      var q: int, r: int := Quo(-a - 1, p), Rem(-a - 1, p);
      QuoRem(-a - 1, p);
      TimesIs(p, q);
      assert a == p * (-q - 1) + (p - 1 - r);
      DivUnique(a, p, -q - 1, p - 1 - r);
    }
  }

  lemma TimesIs(p: int, q: int)
    ensures Times(p, q) == p * q && p * (-q - 1) == -(p * q) - p
  {
  }

  /** A product is repeated addition. */
  lemma ProductSteps(isUnsigned: bool, x: DWord, y: DWord)
    ensures Effect(OpMul, isUnsigned, x, 0) == Some(0)
    ensures y + 1 < TWO64 ==>
              Effect(OpMul, isUnsigned, x, y + 1) ==
              Effect(OpAdd, isUnsigned, Effect(OpMul, isUnsigned, x, y).value, x)
  {
    assert x * (y + 1) == x * y + x;
    ModAdd(x * y, x);
  }

  /** Quotient and remainder: where they exist, the dividend is put together again, and the remainder is smaller than
      the divisor, with the sign of the dividend. */
  lemma DivisionMeans(isUnsigned: bool, x: DWord, y: DWord)
    ensures Effect(OpDiv, isUnsigned, x, y).Some? <==> Effect(OpRem, isUnsigned, x, y).Some?
    ensures Effect(OpDiv, isUnsigned, x, y).None? <==> y == 0 || (!isUnsigned && x == TWO63 && y == TWO64 - 1)
    ensures isUnsigned && y != 0 ==>
              var q, r := Effect(OpDiv, true, x, y).value, Effect(OpRem, true, x, y).value; x == y * q + r && r < y
    ensures !isUnsigned && Effect(OpDiv, false, x, y).Some? ==>
              var a, b := AsSigned(x), AsSigned(y);
              var q, r := AsSigned(Effect(OpDiv, false, x, y).value), AsSigned(Effect(OpRem, false, x, y).value);
              a == b * q + r && Abs(r) < Abs(b) && (r == 0 || (r < 0 <==> a < 0))
  {
    if isUnsigned && y != 0 {
      DivMod(x, y);
    }
    if !isUnsigned && Effect(OpDiv, false, x, y).Some? {
      SignedDivisionMeans(x, y);
    }
  }

  lemma SignedDivisionMeans(x: DWord, y: DWord)
    requires y != 0 && !(x == TWO63 && y == TWO64 - 1)
    ensures var a, b := AsSigned(x), AsSigned(y);
            var q, r := AsSigned(Effect(OpDiv, false, x, y).value), AsSigned(Effect(OpRem, false, x, y).value);
            a == b * q + r && Abs(r) < Abs(b) && (r == 0 || (r < 0 <==> a < 0))
  {
    var a, b := AsSigned(x), AsSigned(y);
    TruncationLaw(a, b);
    QuotientInRange(a, b);
    BackFromPattern(TruncQuo(a, b));
    BackFromPattern(TruncRem(a, b));
    hide TruncQuo, TruncRem, AsSigned, Pattern;
  }

  lemma BackFromPattern(v: int)
    requires -TWO63 <= v < TWO63
    ensures AsSigned(Pattern(v)) == v
  {
  }

  lemma QuotientInRange(a: int, b: int)
    requires -TWO63 <= a < TWO63 && b != 0 && -TWO63 <= b < TWO63 && !(a == -TWO63 && b == -1)
    ensures -TWO63 <= TruncQuo(a, b) < TWO63 && -TWO63 <= TruncRem(a, b) < TWO63
  {
    QuotientRange(Abs(a), Abs(b));
    DivMod(Abs(a), Abs(b));
    if Abs(b) >= 2 {
      HalfAtMost(Abs(a), Abs(b));
    }
  }

  lemma HalfAtMost(x: nat, y: nat)
    requires y >= 2
    ensures 2 * (x / y) <= x
  {
    DivMod(x, y);
    var q := x / y;
    assert y * q == 2 * q + (y - 2) * q && (y - 2) * q >= 0;
  }

  lemma DivMod(x: nat, y: nat)
    requires y > 0
    ensures x == y * (x / y) + x % y && x % y < y
  {
  }

  /** The values of all names and of all string literals' addresses. */
  type Values = Address -> DWord

  function ValueOf(a: Address, s: Values): DWord { if a.IConst? then Pattern(a.val) else s(a) }

  /** A constant is a long long. */
  predicate Fits(a: Address) { a.IConst? ==> -TWO63 <= a.val < TWO63 }

  function Constant(v: DWord): Address { IConst(AsSigned(v)) }

  // ------------------------------------------------------------------
  // Rewriting one quad
  // ------------------------------------------------------------------

  /** Which address entries the quad has for its operands afterwards. */
  datatype Order = Same | SecondOnly | Exchanged

  /** The new operator, operand entries, and contents of the two entries. */
  datatype Rewriting = Rewriting(op: OpKind, order: Order, a1: Address, a2: Address)

  /** The folded constant; none where the compiler itself would divide by zero. A shift count is masked by the host. */
  function Fold(op: OpKind, isUnsigned: bool, x: DWord, y: DWord): Option<DWord>
    requires Arithmetic(op)
  {
    if op.OpSHL? then ShiftLeft(x, y % 64)
    else if op.OpSHR? then ShiftRight(isUnsigned, x, y % 64)
    else Effect(op, isUnsigned, x, y)
  }

  /** `ic_simplify` on a quad with these operands: the case for its operator. */
  function Rewrite(op: OpKind, isUnsigned: bool, a1: Address, a2: Address): Option<Rewriting>
    requires Arithmetic(op)
  {
    var keep := Rewriting(op, Same, a1, a2);
    if a1.IConst? && a2.IConst? then
      var v := Fold(op, isUnsigned, Pattern(a1.val), Pattern(a2.val));
      if v.None? then None else Some(Rewriting(OpAsn, Same, Constant(v.value), a2))
    else if a1.IConst? then Some(RewriteLeft(op, a1, a2))
    else if a2.IConst? then Some(RewriteRight(op, isUnsigned, a1, a2))
    else Some(keep)
  }

  /** A constant on the left. */
  function RewriteLeft(op: OpKind, a1: Address, a2: Address): Rewriting
    requires a1.IConst?
  {
    var keep := Rewriting(op, Same, a1, a2);
    var first := Rewriting(OpAsn, Same, a1, a2);
    var second := Rewriting(OpAsn, SecondOnly, a1, a2);
    var negated := Rewriting(OpNeg, SecondOnly, a1, a2);
    if op.OpAdd? || op.OpOr? || op.OpXor? then if a1.val == 0 then second else keep
    else if op.OpSub? then if a1.val == 0 then negated else keep
    else if a1.val == 0 then first
    else if op.OpMul? then
      if a1.val == 1 then second
      else if a1.val == -1 then negated
      else if IsPo2(Pattern(a1.val)) then Rewriting(OpSHL, Exchanged, IConst(LogOf(Pattern(a1.val))), a2)
      else keep
    else keep
  }

  /** A constant on the right. */
  function RewriteRight(op: OpKind, isUnsigned: bool, a1: Address, a2: Address): Rewriting
    requires a2.IConst?
  {
    var keep := Rewriting(op, Same, a1, a2);
    var first := Rewriting(OpAsn, Same, a1, a2);
    var zero := Rewriting(OpAsn, Same, IConst(0), a2);
    if op.OpMul? then
      if a2.val == 0 then zero
      else if a2.val == 1 then first
      else if a2.val == -1 then Rewriting(OpNeg, Same, a1, a2)
      else if IsPo2(Pattern(a2.val)) then Rewriting(OpSHL, Same, a1, IConst(LogOf(Pattern(a2.val))))
      else keep
    else if op.OpDiv? then
      if a2.val == 1 then first
      else if IsPo2(Pattern(a2.val)) && isUnsigned then Rewriting(OpSHR, Same, a1, IConst(LogOf(Pattern(a2.val))))
      else keep
    else if op.OpRem? then
      if a2.val == 1 then zero
      else if IsPo2(Pattern(a2.val)) && isUnsigned then Rewriting(OpAnd, Same, a1, Constant(Pattern(a2.val) - 1))
      else keep
    else if op.OpAnd? then if a2.val == 0 then Rewriting(OpAsn, SecondOnly, a1, a2) else keep
    else if a2.val == 0 then first
    else keep
  }

  /** The value of a rewritten quad. */
  function Outcome(r: Rewriting, isUnsigned: bool, s: Values): Option<DWord>
    requires Arithmetic(r.op) || Single(r.op) || r.op.OpAsn?
  {
    var x, y := ValueOf(r.a1, s), ValueOf(r.a2, s);
    match r.order
    case Same => Effect(r.op, isUnsigned, x, y)
    case SecondOnly => Effect(r.op, isUnsigned, y, y)
    case Exchanged => Effect(r.op, isUnsigned, y, x)
  }

  /** A power of two that does not fit 32 bits, as a factor or, unsigned, as a divisor. */
  predicate WidePower(op: OpKind, isUnsigned: bool, a1: Address, a2: Address) {
    var c := if op.OpMul? && a1.IConst? then a1 else a2;
    && (op.OpMul? || (op.OpDiv? && isUnsigned))
    && !(a1.IConst? && a2.IConst?) && c.IConst? && c.val != -1
    && IsPo2(Pattern(c.val)) && Log(Pattern(c.val)) >= 32
  }

  // ------------------------------------------------------------------
  // Each case keeps the value
  // ------------------------------------------------------------------

  lemma PatternOfSigned(v: DWord)
    ensures Pattern(AsSigned(v)) == v && -TWO63 <= AsSigned(v) < TWO63
  {
  }

  lemma MinusOne(x: DWord)
    ensures Pattern(x * (TWO64 - 1)) == Pattern(0 - x) == Pattern((TWO64 - 1) * x)
  {
    ModMultiple(0 - x, x);
    assert x * (TWO64 - 1) == 0 - x + TWO64 * x;
    assert (TWO64 - 1) * x == x * (TWO64 - 1);
  }

  lemma DivideByPower(x: DWord, n: nat)
    requires n < 64
    ensures Pattern(x / Pow2(n)) == x / Pow2(n)
  {
    QuoRem(x, Pow2(n));
    assert x / Pow2(n) == Quo(x, Pow2(n));
  }

  lemma ConstantValue(v: DWord, s: Values)
    ensures ValueOf(Constant(v), s) == v && Fits(Constant(v))
  {
    PatternOfSigned(v);
  }

  lemma SmallConstant(n: int, s: Values)
    requires 0 <= n < 64
    ensures ValueOf(IConst(n), s) == n && Fits(IConst(n))
  {
  }

  /** The value of a constant, for the constants the cases ask about. */
  lemma SpecialConstants(a: Address, s: Values)
    requires a.IConst? && Fits(a)
    ensures a.val == 0 <==> ValueOf(a, s) == 0
    ensures a.val == 1 <==> ValueOf(a, s) == 1
    ensures a.val == -1 <==> ValueOf(a, s) == TWO64 - 1
  {
  }

  /** What the simplified quad must compute: the same, wherever the original computes anything. */
  predicate Refines(was: Option<DWord>, now: Option<DWord>) { was.Some? ==> now == was }

  lemma FoldRefines(op: OpKind, isUnsigned: bool, x: DWord, y: DWord)
    requires Arithmetic(op)
    ensures Refines(Effect(op, isUnsigned, x, y), Fold(op, isUnsigned, x, y))
    ensures Fold(op, isUnsigned, x, y).None? ==> Effect(op, isUnsigned, x, y).None? && (op.OpDiv? || op.OpRem?)
  {
  }

  /** Operations with a zero on the left. */
  lemma ZeroLeft(op: OpKind, isUnsigned: bool, y: DWord)
    requires Arithmetic(op)
    ensures op.OpAdd? || op.OpOr? || op.OpXor? ==> Effect(op, isUnsigned, 0, y) == Some(y)
    ensures op.OpSub? ==> Effect(op, isUnsigned, 0, y) == Effect(OpNeg, isUnsigned, y, y)
    ensures op.OpMul? || op.OpDiv? || op.OpRem? || op.OpSHL? || op.OpSHR? || op.OpAnd?
            ==> Refines(Effect(op, isUnsigned, 0, y), Some(0))
  {
    hide Bits, Pow2;
    BitsZero(y);
    if op.OpSHL? || op.OpSHR? {
      ZeroShifted(y);
    } else if op.OpDiv? || op.OpRem? {
      ZeroDivided(isUnsigned, y);
    }
  }

  lemma ZeroShifted(y: nat)
    ensures 0 * Pow2(y) == 0 && 0 / Pow2(y) == 0
  {
  }

  lemma ZeroDivided(isUnsigned: bool, y: DWord)
    ensures Refines(Divide(isUnsigned, true, 0, y), Some(0)) && Refines(Divide(isUnsigned, false, 0, y), Some(0))
  {
    if y != 0 {
      var d := if isUnsigned then y else Abs(AsSigned(y));
      assert 0 / d == 0 && 0 % d == 0;
    }
  }

  /** Operations with a zero on the right. */
  lemma ZeroRight(op: OpKind, isUnsigned: bool, x: DWord)
    requires Arithmetic(op)
    ensures op.OpAdd? || op.OpSub? || op.OpOr? || op.OpXor? || op.OpSHL? || op.OpSHR?
            ==> Effect(op, isUnsigned, x, 0) == Some(x)
    ensures op.OpMul? || op.OpAnd? ==> Effect(op, isUnsigned, x, 0) == Some(0)
  {
    hide Bits;
    BitsZero(x);
    Pow2Zero();
    PatternOfSigned(x);
  }

  /** Multiplication and division by one, and the remainder. */
  lemma One(isUnsigned: bool, x: DWord)
    ensures Effect(OpMul, isUnsigned, x, 1) == Some(x) == Effect(OpMul, isUnsigned, 1, x)
    ensures Effect(OpDiv, isUnsigned, x, 1) == Some(x) && Effect(OpRem, isUnsigned, x, 1) == Some(0)
  {
    PatternOfSigned(x);
    var a := Abs(AsSigned(x));
    assert a / 1 == a && a % 1 == 0;
    assert x / 1 == x && x % 1 == 0;
  }

  /** Multiplication by 2^n. */
  lemma TimesPower(isUnsigned: bool, x: DWord, c: DWord, n: nat)
    requires c == Pow2(n) && n < 64
    ensures Effect(OpMul, isUnsigned, x, c) == ShiftLeft(x, n) == Effect(OpMul, isUnsigned, c, x)
  {
    hide Pow2;
    Swap(x, c);
  }

  lemma Swap(x: int, y: int)
    ensures x * y == y * x
  {
  }

  /** Unsigned division by 2^n. */
  lemma ByPower(x: DWord, c: DWord, n: nat)
    requires c == Pow2(n) && n < 64
    ensures Effect(OpDiv, true, x, c) == ShiftRight(true, x, n)
  {
    DivideByPower(x, n);
  }

  /** The unsigned remainder by 2^n. */
  lemma ModPower(x: DWord, c: DWord, n: nat)
    requires c == Pow2(n) && n < 64
    ensures Effect(OpRem, true, x, c) == Some(Bitwise(OpAnd, x, c - 1))
  {
    hide Pow2, Bits;
    AndMask(x, n);
    QuoRem(x, c);
    assert Rem(x, c) == x % c;
  }

  // ------------------------------------------------------------------
  // The cases together
  // ------------------------------------------------------------------

  lemma LeftRefines(op: OpKind, isUnsigned: bool, a1: Address, a2: Address, s: Values)
    requires Arithmetic(op) && Fits(a1) && a1.IConst? && !a2.IConst?
    ensures var r := RewriteLeft(op, a1, a2);
      var was := Effect(op, isUnsigned, ValueOf(a1, s), ValueOf(a2, s));
      && (Arithmetic(r.op) || Single(r.op) || r.op.OpAsn?)
      && if WidePower(op, isUnsigned, a1, a2) then was.Some? && Outcome(r, isUnsigned, s).None?
         else Refines(was, Outcome(r, isUnsigned, s))
  {
    hide Bits, Pow2, Log, LogOf, Divide, Bitwise, IsPo2;
    var x, y := ValueOf(a1, s), ValueOf(a2, s);
    SpecialConstants(a1, s);
    ZeroLeft(op, isUnsigned, y);
    One(isUnsigned, y);
    MinusOne(y);
    LogOne();
    if op.OpMul? && IsPo2(x) && a1.val != 1 {
      PowerLeft(isUnsigned, a1, a2, s);
    }
  }

  /** A power of two on the left of a multiplication. */
  lemma PowerLeft(isUnsigned: bool, a1: Address, a2: Address, s: Values)
    requires Fits(a1) && a1.IConst? && !a2.IConst? && IsPo2(Pattern(a1.val)) && a1.val != 1
    ensures a1.val != 0 && a1.val != -1
    ensures var r := Rewriting(OpSHL, Exchanged, IConst(LogOf(Pattern(a1.val))), a2);
      if Log(Pattern(a1.val)) >= 32 then Outcome(r, isUnsigned, s).None?
      else Outcome(r, isUnsigned, s) == Effect(OpMul, isUnsigned, ValueOf(a1, s), ValueOf(a2, s))
  {
    hide Bits, Pow2, Log, LogOf, IsPo2;
    SpecialConstants(a1, s);
    var x := Pattern(a1.val);
    LogOfPo2(x);
    NotAllOnes(x);
    var n := Log(x);
    if n < 32 {
      SmallConstant(n, s);
      TimesPower(isUnsigned, ValueOf(a2, s), x, n);
    }
  }

  /** Neither zero nor -1 is a power of two. */
  lemma NotAllOnes(x: DWord)
    requires IsPo2(x)
    ensures x != 0 && x != TWO64 - 1
  {
    LogOfPo2(x);
    EvenPower(Log(x));
    hide Bits, Log, LogOf;
  }

  lemma LogOne()
    ensures Log(1) == 0
  {
  }

  lemma EvenPower(n: nat)
    ensures Pow2(n) == 1 || Pow2(n) % 2 == 0
  {
  }

  lemma RightRefines(op: OpKind, isUnsigned: bool, a1: Address, a2: Address, s: Values)
    requires Arithmetic(op) && Fits(a2) && !a1.IConst? && a2.IConst?
    ensures var r := RewriteRight(op, isUnsigned, a1, a2);
      var was := Effect(op, isUnsigned, ValueOf(a1, s), ValueOf(a2, s));
      && (Arithmetic(r.op) || Single(r.op) || r.op.OpAsn?)
      && if WidePower(op, isUnsigned, a1, a2) then was.Some? && Outcome(r, isUnsigned, s).None?
         else Refines(was, Outcome(r, isUnsigned, s))
  {
    hide Bits, Pow2, Log, LogOf, Divide, Bitwise, IsPo2;
    var x, y := ValueOf(a1, s), ValueOf(a2, s);
    SpecialConstants(a2, s);
    ZeroRight(op, isUnsigned, x);
    One(isUnsigned, x);
    MinusOne(x);
    LogOne();
    if IsPo2(y) && a2.val != 1 {
      NotAllOnes(y);
      PowerRight(op, isUnsigned, a1, a2, s);
    }
  }

  /** A power of two on the right of a multiplication, a division or a remainder. */
  lemma PowerRight(op: OpKind, isUnsigned: bool, a1: Address, a2: Address, s: Values)
    requires Fits(a2) && a2.IConst? && !a1.IConst? && IsPo2(Pattern(a2.val)) && a2.val != 1
    ensures var shift := if op.OpMul? then OpSHL else OpSHR;
      var r := Rewriting(shift, Same, a1, IConst(LogOf(Pattern(a2.val))));
      op.OpMul? || (op.OpDiv? && isUnsigned) ==>
        if Log(Pattern(a2.val)) >= 32 then Outcome(r, isUnsigned, s).None?
            && Effect(op, isUnsigned, ValueOf(a1, s), ValueOf(a2, s)).Some?
        else Outcome(r, isUnsigned, s) == Effect(op, isUnsigned, ValueOf(a1, s), ValueOf(a2, s))
    ensures op.OpRem? && isUnsigned ==>
      Outcome(Rewriting(OpAnd, Same, a1, Constant(Pattern(a2.val) - 1)), isUnsigned, s)
        == Effect(op, isUnsigned, ValueOf(a1, s), ValueOf(a2, s))
  {
    hide Bits, Pow2, Log, LogOf, IsPo2, Bitwise;
    SpecialConstants(a2, s);
    var x, y := ValueOf(a1, s), Pattern(a2.val);
    LogOfPo2(y);
    NotAllOnes(y);
    var n := Log(y);
    ByPower(x, y, n);
    ModPower(x, y, n);
    ConstantValue(y - 1, s);
    TimesPower(isUnsigned, x, y, n);
    if n < 32 {
      SmallConstant(n, s);
    }
  }

  /**
   * The rewritten quad computes what the original does, exactly if no power of two from 2^32 on is turned into a shift;
   * if one is, the shift count is out of range. The compiler stops only at a division of constants without a value.
   */
  lemma RewriteExact(op: OpKind, isUnsigned: bool, a1: Address, a2: Address, s: Values)
    requires Arithmetic(op) && Fits(a1) && Fits(a2)
    ensures var r := Rewrite(op, isUnsigned, a1, a2);
      var was := Effect(op, isUnsigned, ValueOf(a1, s), ValueOf(a2, s));
      && (r.None? <==> a1.IConst? && a2.IConst? && (op.OpDiv? || op.OpRem?) && was.None?)
      && (r.Some? ==>
           && (Arithmetic(r.value.op) || Single(r.value.op) || r.value.op.OpAsn?)
           && (Refines(was, Outcome(r.value, isUnsigned, s)) <==> !WidePower(op, isUnsigned, a1, a2)))
  {
    hide Bits, Pow2, Log, LogOf, IsPo2, Bitwise, RewriteLeft, RewriteRight, Effect;
    if a1.IConst? && a2.IConst? {
      FoldRefines(op, isUnsigned, Pattern(a1.val), Pattern(a2.val));
      FoldOutcome(op, isUnsigned, a1, a2, s);
    } else if a1.IConst? {
      LeftRefines(op, isUnsigned, a1, a2, s);
    } else if a2.IConst? {
      RightRefines(op, isUnsigned, a1, a2, s);
    }
  }

  lemma FoldOutcome(op: OpKind, isUnsigned: bool, a1: Address, a2: Address, s: Values)
    requires Arithmetic(op) && a1.IConst? && a2.IConst?
    ensures var v := Fold(op, isUnsigned, Pattern(a1.val), Pattern(a2.val));
      v.Some? ==> Outcome(Rewriting(OpAsn, Same, Constant(v.value), a2), isUnsigned, s) == v
    ensures Fold(op, isUnsigned, Pattern(a1.val), Pattern(a2.val)).None? <==>
      (op.OpDiv? || op.OpRem?) && Effect(op, isUnsigned, Pattern(a1.val), Pattern(a2.val)).None?
  {
    hide Bits, Pow2, Bitwise, Divide;
    var v := Fold(op, isUnsigned, Pattern(a1.val), Pattern(a2.val));
    if v.Some? {
      ConstantValue(v.value, s);
    }
  }

  // ------------------------------------------------------------------
  // Whole functions
  // ------------------------------------------------------------------

  /** What a quad does: set a name, go to a label, or something else with its operands. */
  datatype Act = Sets(target: Address, v: Option<DWord>) | Goes(to: Address) | Does(op: OpKind, tar: Address,
      arg1: Address, arg2: Address)

  predicate InTable(q: Quad, n: nat) { q.tar < n && q.arg1 < n && q.arg2 < n }

  function ActOf(q: Quad, addrs: seq<Address>, s: Values): Act
    requires InTable(q, |addrs|)
  {
    if Arithmetic(q.op) || Single(q.op) || q.op.OpAsn? then
      Sets(addrs[q.tar], Effect(q.op, q.isUnsigned, ValueOf(addrs[q.arg1], s), ValueOf(addrs[q.arg2], s)))
    else if q.op.OpCBr? then Goes(if ValueOf(addrs[q.arg1], s) != 0 then addrs[q.tar] else addrs[q.arg2])
    else if q.op.OpJmp? then Goes(addrs[q.tar])
    else Does(q.op, addrs[q.tar], addrs[q.arg1], addrs[q.arg2])
  }

  predicate ActRefines(a: Act, b: Act) {
    a == b || (a.Sets? && b.Sets? && a.target == b.target && Refines(a.v, b.v))
  }

  /** In every state the new quad with the new addresses does what the old one did. */
  ghost predicate Preserved(q: Quad, addrs: seq<Address>, q': Quad, addrs': seq<Address>)
    requires InTable(q, |addrs|) && InTable(q', |addrs'|)
  {
    forall s: Values :: ActRefines(ActOf(q, addrs, s), ActOf(q', addrs', s))
  }

  /** The compiler would divide by zero. */
  predicate Stops(q: Quad, addrs: seq<Address>)
    requires InTable(q, |addrs|)
  {
    Arithmetic(q.op) && Rewrite(q.op, q.isUnsigned, addrs[q.arg1], addrs[q.arg2]).None?
  }

  predicate Wide(q: Quad, addrs: seq<Address>)
    requires InTable(q, |addrs|)
  {
    Arithmetic(q.op) && WidePower(q.op, q.isUnsigned, addrs[q.arg1], addrs[q.arg2])
  }

  /** The quad after its case of the switch, and what becomes of its two entries. */
  function Simplified(q: Quad, a1: Address, a2: Address): (Quad, Address, Address)
    requires Arithmetic(q.op) ==> Rewrite(q.op, q.isUnsigned, a1, a2).Some?
  {
    if Arithmetic(q.op) then
      var r := Rewrite(q.op, q.isUnsigned, a1, a2).value;
      (match r.order
       case Same => q.(op := r.op)
       case SecondOnly => q.(op := r.op, arg1 := q.arg2)
       case Exchanged => q.(op := r.op, arg1 := q.arg2, arg2 := q.arg1),
       r.a1, r.a2)
    else if Single(q.op) && a1.IConst? then
      (q.(op := OpAsn), Constant(Effect(q.op, q.isUnsigned, Pattern(a1.val), 0).value), a2)
    else if q.op.OpCBr? && a1.IConst? then
      (q.(op := OpJmp, tar := if a1.val == 0 then q.arg2 else q.tar), a1, a2)
    else (q, a1, a2)
  }

  /** The entries that change their contents. */
  function Written(q: Quad, addrs: seq<Address>): set<nat>
    requires InTable(q, |addrs|) && !Stops(q, addrs)
  {
    var (_, b1, b2) := Simplified(q, addrs[q.arg1], addrs[q.arg2]);
    (if b1 != addrs[q.arg1] then {q.arg1} else {}) + (if b2 != addrs[q.arg2] then {q.arg2} else {})
  }

  function Updated(q: Quad, addrs: seq<Address>): seq<Address>
    requires InTable(q, |addrs|) && !Stops(q, addrs)
  {
    var (_, b1, b2) := Simplified(q, addrs[q.arg1], addrs[q.arg2]);
    var a := if b1 != addrs[q.arg1] then addrs[q.arg1 := b1] else addrs;
    if b2 != addrs[q.arg2] then a[q.arg2 := b2] else a
  }

  function Entries(q: Quad): set<nat> { {q.tar, q.arg1, q.arg2} }

  /** An entry that is rewritten is no target, and no other quad uses it. */
  ghost predicate NotShared(quads: seq<Quad>, addrs: seq<Address>) {
    && (forall i :: 0 <= i < |quads| ==> InTable(quads[i], |addrs|))
    && (forall i :: 0 <= i < |quads| && !Stops(quads[i], addrs) ==> quads[i].tar !in Written(quads[i], addrs))
    && (forall i, j :: 0 <= i < |quads| && 0 <= j < |quads| && i != j && !Stops(quads[i], addrs) ==>
          Entries(quads[j]) !! Written(quads[i], addrs))
  }

  /** Where the two entries are, after the update. */
  lemma EntriesUpdated(q: Quad, addrs: seq<Address>)
    requires InTable(q, |addrs|) && !Stops(q, addrs) && q.tar !in Written(q, addrs)
    ensures var (q', b1, b2) := Simplified(q, addrs[q.arg1], addrs[q.arg2]);
      var now := Updated(q, addrs);
      && |now| == |addrs| && now[q.tar] == addrs[q.tar]
      && now[q.arg1] == (if q.arg1 == q.arg2 && b2 != addrs[q.arg2] then b2 else b1)
      && now[q.arg2] == (if q.arg1 == q.arg2 && b2 == addrs[q.arg2] then b1 else b2)
      && InTable(q', |addrs|) && Entries(q') <= Entries(q)
      && forall e :: 0 <= e < |addrs| && e !in Written(q, addrs) ==> now[e] == addrs[e]
  {
    hide Rewrite;
  }

  lemma SimplifiedArithmetic(q: Quad, addrs: seq<Address>, s: Values)
    requires InTable(q, |addrs|) && Arithmetic(q.op) && !Stops(q, addrs) && q.tar !in Written(q, addrs)
    requires Fits(addrs[q.arg1]) && Fits(addrs[q.arg2])
    ensures var q', now := Simplified(q, addrs[q.arg1], addrs[q.arg2]).0, Updated(q, addrs);
      && InTable(q', |now|)
      && (ActRefines(ActOf(q, addrs, s), ActOf(q', now, s)) <==> !Wide(q, addrs))
  {
    EntriesUpdated(q, addrs);
    RewriteExact(q.op, q.isUnsigned, addrs[q.arg1], addrs[q.arg2], s);
    RewriteShape(q.op, q.isUnsigned, addrs[q.arg1], addrs[q.arg2]);
    hide Rewrite, Effect, WidePower, Updated, Written;
  }

  /** With one entry for both operands the quad is left alone or folded into its first operand. */
  lemma RewriteShape(op: OpKind, isUnsigned: bool, a1: Address, a2: Address)
    requires Arithmetic(op) && Rewrite(op, isUnsigned, a1, a2).Some?
    ensures var r := Rewrite(op, isUnsigned, a1, a2).value;
      a1 == a2 ==>
        (r.op == op && r.a1 == a1 && r.a2 == a2 && r.order.Same?) || (r.op.OpAsn? && r.order.Same? && r.a2 == a2)
  {
  }

  lemma SimplifiedOther(q: Quad, addrs: seq<Address>, s: Values)
    requires InTable(q, |addrs|) && !Arithmetic(q.op) && q.tar !in Written(q, addrs) && Fits(addrs[q.arg1])
    ensures var q', now := Simplified(q, addrs[q.arg1], addrs[q.arg2]).0, Updated(q, addrs);
      InTable(q', |now|) && ActRefines(ActOf(q, addrs, s), ActOf(q', now, s))
  {
    EntriesUpdated(q, addrs);
    if addrs[q.arg1].IConst? {
      SpecialConstants(addrs[q.arg1], s);
      if Single(q.op) {
        SingleIgnoresSecond(q.op, q.isUnsigned, ValueOf(addrs[q.arg1], s), ValueOf(addrs[q.arg2], s));
        ConstantValue(Effect(q.op, q.isUnsigned, Pattern(addrs[q.arg1].val), 0).value, s);
      }
    }
    hide Effect, Updated, Written;
  }

  lemma SingleIgnoresSecond(op: OpKind, isUnsigned: bool, x: DWord, y: DWord)
    requires Single(op)
    ensures Effect(op, isUnsigned, x, y) == Effect(op, isUnsigned, x, 0) && Effect(op, isUnsigned, x, 0).Some?
  {
  }

  /** One turn of the loop, for its own quad. */
  lemma TurnExact(q: Quad, addrs: seq<Address>)
    requires InTable(q, |addrs|) && !Stops(q, addrs) && q.tar !in Written(q, addrs)
    requires Fits(addrs[q.arg1]) && Fits(addrs[q.arg2])
    ensures var q', now := Simplified(q, addrs[q.arg1], addrs[q.arg2]).0, Updated(q, addrs);
      && InTable(q', |now|) && Entries(q') <= Entries(q) && |now| == |addrs|
      && (Preserved(q, addrs, q', now) <==> !Wide(q, addrs))
      && forall e :: 0 <= e < |addrs| && e !in Written(q, addrs) ==> now[e] == addrs[e]
  {
    EntriesUpdated(q, addrs);
    var q', now := Simplified(q, addrs[q.arg1], addrs[q.arg2]).0, Updated(q, addrs);
    hide Simplified, Updated, Written, ActOf, WidePower, Rewrite, ActRefines;
    var any: Values := _ => 0;
    if Arithmetic(q.op) {
      SimplifiedArithmetic(q, addrs, any);
      forall s: Values ensures ActRefines(ActOf(q, addrs, s), ActOf(q', now, s)) <==> !Wide(q, addrs) {
        SimplifiedArithmetic(q, addrs, s);
      }
    } else {
      forall s: Values ensures ActRefines(ActOf(q, addrs, s), ActOf(q', now, s)) {
        SimplifiedOther(q, addrs, s);
      }
    }
  }

  /** A quad whose entries did not change does what it did. */
  lemma SameAct(q: Quad, addrs: seq<Address>, now: seq<Address>, s: Values)
    requires InTable(q, |addrs|) && |now| == |addrs| && forall e :: e in Entries(q) ==> now[e] == addrs[e]
    ensures ActOf(q, addrs, s) == ActOf(q, now, s)
  {
  }

  lemma StillPreserved(q: Quad, addrs: seq<Address>, q': Quad, before: seq<Address>, after: seq<Address>)
    requires InTable(q, |addrs|) && InTable(q', |before|) && |before| == |after|
    requires forall e :: e in Entries(q') ==> after[e] == before[e]
    ensures Preserved(q, addrs, q', before) <==> Preserved(q, addrs, q', after)
  {
    hide ActOf, ActRefines;
    forall s: Values ensures ActOf(q', before, s) == ActOf(q', after, s) {
      SameAct(q', before, after, s);
    }
  }

  /** After the first n quads: each of them is kept exactly if it is not wide, and only their entries have changed. */
  ghost predicate Progress(quads: seq<Quad>, addrs: seq<Address>, quads': seq<Quad>, addrs': seq<Address>, n: nat) {
    && |quads'| == |quads| && n <= |quads| && |addrs'| == |addrs|
    && (forall i :: 0 <= i < |quads| ==> InTable(quads[i], |addrs|) && InTable(quads'[i], |addrs|))
    && (forall i :: 0 <= i < n ==> !Stops(quads[i], addrs) && Entries(quads'[i]) <= Entries(quads[i]))
    && (forall i :: 0 <= i < n ==> (Preserved(quads[i], addrs, quads'[i], addrs') <==> !Wide(quads[i], addrs)))
    && (forall i :: n <= i < |quads| ==> quads'[i] == quads[i])
    && (forall e :: 0 <= e < |addrs| && (forall i :: 0 <= i < n ==> e !in Written(quads[i], addrs)) ==>
          addrs'[e] == addrs[e])
  }

  lemma ProgressStart(quads: seq<Quad>, addrs: seq<Address>)
    requires NotShared(quads, addrs)
    ensures Progress(quads, addrs, quads, addrs, 0)
  {
  }

  /** When a quad's turn comes its entries are as they were. */
  lemma EntriesIntact(quads: seq<Quad>, addrs: seq<Address>, quads': seq<Quad>, addrs': seq<Address>, n: nat)
    requires NotShared(quads, addrs) && Progress(quads, addrs, quads', addrs', n) && n < |quads|
    ensures forall e :: e in Entries(quads[n]) ==> addrs'[e] == addrs[e]
    ensures Stops(quads[n], addrs') <==> Stops(quads[n], addrs)
    ensures !Stops(quads[n], addrs) ==> Written(quads[n], addrs') == Written(quads[n], addrs)
  {
    hide Rewrite, Simplified, Preserved, Wide;
    forall e | e in Entries(quads[n]) ensures addrs'[e] == addrs[e] {
      forall i | 0 <= i < n ensures e !in Written(quads[i], addrs) {
        assert Entries(quads[n]) !! Written(quads[i], addrs);
      }
    }
  }

  lemma Turn(quads: seq<Quad>, addrs: seq<Address>, quads': seq<Quad>, addrs': seq<Address>, n: nat)
    requires NotShared(quads, addrs) && (forall e :: 0 <= e < |addrs| ==> Fits(addrs[e]))
    requires Progress(quads, addrs, quads', addrs', n) && n < |quads| && !Stops(quads[n], addrs)
    ensures !Stops(quads[n], addrs')
    ensures var q := quads[n];
      Progress(quads, addrs, quads'[n := Simplified(q, addrs'[q.arg1], addrs'[q.arg2]).0], Updated(q, addrs'), n + 1)
  {
    hide Rewrite, Simplified, Updated, Wide, Preserved, Written, NotShared;
    TurnReady(quads, addrs, quads', addrs', n);
    var q := quads[n];
    TurnExact(q, addrs');
    var q', now := Simplified(q, addrs'[q.arg1], addrs'[q.arg2]).0, Updated(q, addrs');
    OwnTurn(q, addrs, q', addrs', now);
    OthersKeep(quads, addrs, quads', addrs', n, now);
    ProgressNext(quads, addrs, quads', addrs', n, q', now);
  }

  lemma TurnReady(quads: seq<Quad>, addrs: seq<Address>, quads': seq<Quad>, addrs': seq<Address>, n: nat)
    requires NotShared(quads, addrs) && (forall e :: 0 <= e < |addrs| ==> Fits(addrs[e]))
    requires Progress(quads, addrs, quads', addrs', n) && n < |quads| && !Stops(quads[n], addrs)
    ensures var q := quads[n];
      && InTable(q, |addrs'|) && !Stops(q, addrs') && Written(q, addrs') == Written(q, addrs)
      && q.tar !in Written(q, addrs') && Fits(addrs'[q.arg1]) && Fits(addrs'[q.arg2])
      && forall e :: e in Entries(q) ==> addrs'[e] == addrs[e]
  {
    hide Rewrite, Simplified, Wide, Preserved;
    EntriesIntact(quads, addrs, quads', addrs', n);
  }

  /** The n-th quad has had its turn. */
  lemma ProgressNext(quads: seq<Quad>, addrs: seq<Address>, quads': seq<Quad>, addrs': seq<Address>, n: nat, q': Quad,
      now: seq<Address>)
    requires Progress(quads, addrs, quads', addrs', n) && n < |quads| && !Stops(quads[n], addrs)
    requires InTable(q', |now|) && Entries(q') <= Entries(quads[n]) && |now| == |addrs|
    requires Preserved(quads[n], addrs, q', now) <==> !Wide(quads[n], addrs)
    requires forall i :: 0 <= i < n ==> (Preserved(quads[i], addrs, quads'[i], now) <==> !Wide(quads[i], addrs))
    requires forall e :: 0 <= e < |addrs| && e !in Written(quads[n], addrs) ==> now[e] == addrs'[e]
    ensures Progress(quads, addrs, quads'[n := q'], now, n + 1)
  {
    hide Stops, Wide, Preserved, Written, Entries;
    forall e | 0 <= e < |addrs| && forall i :: 0 <= i < n + 1 ==> e !in Written(quads[i], addrs)
      ensures now[e] == addrs[e]
    {
      assert e !in Written(quads[n], addrs);
    }
  }

  /** The quads before keep what they do. */
  lemma OthersKeep(quads: seq<Quad>, addrs: seq<Address>, quads': seq<Quad>, addrs': seq<Address>, n: nat,
      now: seq<Address>)
    requires NotShared(quads, addrs) && Progress(quads, addrs, quads', addrs', n) && n < |quads|
             && !Stops(quads[n], addrs)
    requires |now| == |addrs| && forall e :: 0 <= e < |addrs| && e !in Written(quads[n], addrs) ==> now[e] == addrs'[e]
    ensures forall i :: 0 <= i < n ==> (Preserved(quads[i], addrs, quads'[i], now) <==> !Wide(quads[i], addrs))
  {
    hide Preserved, Stops, Written, Wide;
    forall i | 0 <= i < n
      ensures Preserved(quads[i], addrs, quads'[i], now) <==> !Wide(quads[i], addrs)
    {
      assert Entries(quads[i]) !! Written(quads[n], addrs);
      StillPreserved(quads[i], addrs, quads'[i], addrs', now);
    }
  }

  lemma OwnTurn(q: Quad, addrs: seq<Address>, q': Quad, before: seq<Address>, now: seq<Address>)
    requires InTable(q, |addrs|) && InTable(q', |now|) && |addrs| == |before| == |now|
    requires forall e :: e in Entries(q) ==> before[e] == addrs[e]
    ensures Preserved(q, before, q', now) <==> Preserved(q, addrs, q', now)
    ensures Wide(q, before) <==> Wide(q, addrs)
  {
    hide ActOf, ActRefines, WidePower;
    forall s: Values ensures ActOf(q, before, s) == ActOf(q, addrs, s) {
      SameAct(q, addrs, before, s);
    }
  }

  class Simplifier {
    var instructions: seq<Quad>
    var addresses: seq<Address>

    constructor (quads: seq<Quad>, addrs: seq<Address>)
      ensures instructions == quads && addresses == addrs
    {
      instructions, addresses := quads, addrs;
    }

    /**
     * `ic_simplify`, in place. The compiler stops at a division of constants that has no value. Otherwise, unless a
     * rewritten entry is used elsewhere, every quad does what it did, in every state, except the ones that turned a
     * wide power of two into a shift.
     */
    method Run() returns (ok: bool)
      requires AllInTable(instructions, |addresses|)
      modifies this
      ensures ok <==> Pass(old(instructions), old(addresses), 0).Some?
      ensures ok ==> Pass(old(instructions), old(addresses), 0) == Some((instructions, addresses))
      ensures NotShared(old(instructions), old(addresses)) && AllFit(old(addresses)) ==>
        && (ok <==> forall i :: 0 <= i < |old(instructions)| ==> !Stops(old(instructions)[i], old(addresses)))
        && (ok ==> KeptExactly(old(instructions), old(addresses), instructions, addresses))
    {
      hide Rewrite, NotShared, Simplified, Updated, KeptExactly, AllFit;
      ghost var quads, addrs := instructions, addresses;
      if NotShared(quads, addrs) && AllFit(addrs) {
        PassExact(quads, addrs);
      }
      var i := 0;
      while i < |instructions|
        invariant 0 <= i <= |instructions| && AllInTable(instructions, |addresses|)
        invariant Pass(instructions, addresses, i) == Pass(quads, addrs, 0)
      {
        var q := instructions[i];
        if Stops(q, addresses) {
          return false;
        }
        StaysInTable(instructions, addresses, i);
        instructions, addresses := instructions[i := Simplified(q, addresses[q.arg1], addresses[q.arg2]).0],
            Updated(q, addresses);
        i := i + 1;
      }
      return true;
    }
  }

  predicate AllInTable(quads: seq<Quad>, n: nat) { forall i :: 0 <= i < |quads| ==> InTable(quads[i], n) }

  predicate AllFit(addrs: seq<Address>) { forall e :: 0 <= e < |addrs| ==> Fits(addrs[e]) }

  lemma StaysInTable(quads: seq<Quad>, addrs: seq<Address>, i: nat)
    requires AllInTable(quads, |addrs|) && i < |quads| && !Stops(quads[i], addrs)
    ensures var q := quads[i];
      && AllInTable(quads[i := Simplified(q, addrs[q.arg1], addrs[q.arg2]).0], |addrs|)
      && |Updated(q, addrs)| == |addrs|
  {
    hide Rewrite;
  }

  /** The pass from quad i on; None if it stops. */
  function Pass(quads: seq<Quad>, addrs: seq<Address>, i: nat): Option<(seq<Quad>, seq<Address>)>
    requires AllInTable(quads, |addrs|) && i <= |quads|
    decreases |quads| - i
  {
    if i == |quads| then Some((quads, addrs))
    else if Stops(quads[i], addrs) then None
    else
      StaysInTable(quads, addrs, i);
      var q := quads[i];
      Pass(quads[i := Simplified(q, addrs[q.arg1], addrs[q.arg2]).0], Updated(q, addrs), i + 1)
  }

  /** Each quad does in every state what it did, exactly if it shifts by no logarithm of a wide power. */
  ghost predicate KeptExactly(quads: seq<Quad>, addrs: seq<Address>, quads': seq<Quad>, addrs': seq<Address>) {
    && AllInTable(quads, |addrs|) && AllInTable(quads', |addrs'|) && |quads'| == |quads| && |addrs'| == |addrs|
    && forall i :: 0 <= i < |quads| ==> (Preserved(quads[i], addrs, quads'[i], addrs') <==> !Wide(quads[i], addrs))
  }

  /** When no rewritten entry is shared. */
  lemma PassExact(quads: seq<Quad>, addrs: seq<Address>)
    requires NotShared(quads, addrs) && AllFit(addrs)
    ensures AllInTable(quads, |addrs|)
    ensures var r := Pass(quads, addrs, 0);
      && (r.Some? <==> forall i :: 0 <= i < |quads| ==> !Stops(quads[i], addrs))
      && (r.Some? ==> KeptExactly(quads, addrs, r.value.0, r.value.1))
  {
    ProgressStart(quads, addrs);
    PassFrom(quads, addrs, quads, addrs, 0);
    hide Pass, Stops, Preserved, Wide, Written;
  }

  lemma {:induction false} PassFrom(quads: seq<Quad>, addrs: seq<Address>, quads': seq<Quad>, addrs': seq<Address>,
      n: nat)
    requires NotShared(quads, addrs) && AllFit(addrs) && Progress(quads, addrs, quads', addrs', n)
    ensures AllInTable(quads', |addrs'|)
    ensures var r := Pass(quads', addrs', n);
      && (r.Some? ==> Progress(quads, addrs, r.value.0, r.value.1, |quads|))
      && (r.None? ==> exists i :: 0 <= i < |quads| && Stops(quads[i], addrs))
    decreases |quads| - n
  {
    hide Rewrite, Simplified, Updated, Wide, Preserved, Written, NotShared;
    if n < |quads| {
      EntriesIntact(quads, addrs, quads', addrs', n);
      if !Stops(quads[n], addrs) {
        Turn(quads, addrs, quads', addrs', n);
        var q := quads[n];
        PassFrom(quads, addrs, quads'[n := Simplified(q, addrs'[q.arg1], addrs'[q.arg2]).0], Updated(q, addrs'), n + 1);
      }
    }
  }

  /** With a shared entry the target of one quad can become a constant: t = x + y; u = t * 0. */
  lemma SharedEntryLost(x: Address, y: Address, t: Address, u: Address)
    requires t.Temp? && !x.IConst? && !y.IConst?
    ensures var addrs := [x, y, t, u, IConst(0)];
      var def, use := Quad(OpAdd, false, 2, 0, 1), Quad(OpMul, false, 3, 2, 4);
      && !Stops(use, addrs) && !NotShared([def, use], addrs)
      && ActOf(def, Updated(use, addrs), _ => 0).target == IConst(0)
  {
    var addrs := [x, y, t, u, IConst(0)];
    var def, use := Quad(OpAdd, false, 2, 0, 1), Quad(OpMul, false, 3, 2, 4);
    var quads := [def, use];
    assert Rewrite(OpMul, false, t, IConst(0)) == Some(Rewriting(OpAsn, Same, IConst(0), IConst(0)));
    assert 2 in Written(use, addrs) && 2 in Entries(def);
    assert quads[0] == def && quads[1] == use;
    assert Updated(use, addrs)[2] == IConst(0);
    NotSharedMeans(quads, addrs, 1, 0);
  }

  lemma NotSharedMeans(quads: seq<Quad>, addrs: seq<Address>, i: nat, j: nat)
    requires i < |quads| && j < |quads| && i != j && InTable(quads[i], |addrs|) && !Stops(quads[i], addrs)
    ensures NotShared(quads, addrs) ==> Entries(quads[j]) !! Written(quads[i], addrs)
  {
  }
}
