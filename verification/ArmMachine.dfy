/** The target of the ARM code generator: the instructions it emits for word-sized
    straight-line code, and what they do to registers and memory. */
module ArmMachine {
  import opened Ic

  /** A 32-bit word as the number it denotes. */
  type Word = w: int | 0 <= w < 0x1_0000_0000

  function Wrap(x: int): Word { x % 0x1_0000_0000 }

  const NREG := 16
  const FP := 11
  const SCRATCH := 12

  /** The masks of the 12-bit rotated immediates, by rotation. */
  const IMM_MASKS: seq<bv32> := [
    0x000000FF, 0xC000003F, 0xF000000F, 0xFC000003, 0xFF000000, 0x3FC00000, 0x0FF00000, 0x03FC0000,
    0x00FF0000, 0x003FC000, 0x000FF000, 0x0003FC00, 0x0000FF00, 0x00003FC0, 0x00000FF0, 0x000003F0]

  predicate Fits(n: bv32, mask: bv32) { n & !mask == 0 }

  /** The numbers a data-processing instruction can carry. */
  predicate Immediate(n: bv32) { exists k :: 0 <= k < |IMM_MASKS| && Fits(n, IMM_MASKS[k]) }

  /** b rotated right by 2r bits. */
  function Rotate(b: bv32, r: nat): bv32 { if r == 0 then b else Rotate(b, r - 1).RotateRight(2) }

  /** What the twelve bits of a data-processing instruction can say: an 8-bit number rotated right by an even amount. */
  ghost predicate RotatedByte(w: bv32) { exists b: bv32, r: nat :: b < 256 && r < 16 && w == Rotate(b, r) }

  lemma RotateFits(x: bv32, y: bv32)
    ensures Fits(x.RotateRight(2), y.RotateRight(2)) <==> Fits(x, y)
  {
  }

  lemma {:induction false} RotatesFit(x: bv32, y: bv32, r: nat)
    ensures Fits(Rotate(x, r), Rotate(y, r)) <==> Fits(x, y)
  {
    hide Fits;
    if r > 0 {
      RotatesFit(x, y, r - 1);
      RotateFits(Rotate(x, r - 1), Rotate(y, r - 1));
    }
  }

  lemma ByteFits(b: bv32)
    ensures Fits(b, 0xFF) <==> b < 256
  {
  }

  lemma {:induction false} RotateOnto(w: bv32, r: nat) returns (b: bv32)
    ensures Rotate(b, r) == w
    decreases r
  {
    if r == 0 {
      b := w;
    } else {
      assert w.RotateLeft(2).RotateRight(2) == w;
      b := RotateOnto(w.RotateLeft(2), r - 1);
    }
  }

  lemma MaskNext(r: nat)
    requires r < 14
    ensures IMM_MASKS[r + 1] == IMM_MASKS[r].RotateRight(2)
  {
    var m := IMM_MASKS;
    assert m[1] == m[0].RotateRight(2) && m[2] == m[1].RotateRight(2) && m[3] == m[2].RotateRight(2);
    assert m[4] == m[3].RotateRight(2) && m[5] == m[4].RotateRight(2) && m[6] == m[5].RotateRight(2);
    assert m[7] == m[6].RotateRight(2) && m[8] == m[7].RotateRight(2) && m[9] == m[8].RotateRight(2);
    assert m[10] == m[9].RotateRight(2) && m[11] == m[10].RotateRight(2) && m[12] == m[11].RotateRight(2);
    assert m[13] == m[12].RotateRight(2) && m[14] == m[13].RotateRight(2);
  }

  /** Each mask covers the rotated bytes of its rotation; the last one, where 0x3FC should stand, only some. */
  lemma {:induction false} MaskIsRotated(r: nat)
    requires r < 15
    ensures IMM_MASKS[r] == Rotate(0xFF, r)
  {
    if r > 0 {
      MaskIsRotated(r - 1);
      MaskNext(r - 1);
      hide IMM_MASKS;
    } else {
      assert IMM_MASKS[0] == 0xFF;
    }
  }

  lemma LastRotation()
    ensures Rotate(0xFF, 15) == 0x3FC && IMM_MASKS[15] == 0x3F0
  {
    MaskIsRotated(14);
    assert IMM_MASKS[14] == 0xFF0;
    hide IMM_MASKS;
    assert Rotate(0xFF, 15) == Rotate(0xFF, 14).RotateRight(2);
  }

  lemma RotatedFits(b: bv32, r: nat)
    ensures b < 256 <==> Fits(Rotate(b, r), Rotate(0xFF, r))
  {
    hide Fits, Rotate;
    RotatesFit(b, 0xFF, r);
    ByteFits(b);
  }

  lemma LastMaskFits(n: bv32)
    ensures Fits(n, 0x3F0) ==> Fits(n, 0x3FC)
  {
  }

  lemma FitsRotation(n: bv32, r: nat)
    requires r < 16 && Fits(n, Rotate(0xFF, r))
    ensures RotatedByte(n)
  {
    var b := RotateOnto(n, r);
    RotatedFits(b, r);
  }

  lemma Masks(r: nat)
    requires r < 16
    ensures |IMM_MASKS| == 16 && IMM_MASKS[r] == if r < 15 then Rotate(0xFF, r) else 0x3F0
  {
    LastRotation();
    if r < 15 {
      MaskIsRotated(r);
    }
  }

  lemma AcceptedEncodes(n: bv32)
    requires Immediate(n) || Fits(n, 0x3FC)
    ensures RotatedByte(n)
  {
    LastRotation();
    LastMaskFits(n);
    Masks(0);
    hide Fits, Rotate, IMM_MASKS, RotatedByte;
    if Fits(n, 0x3FC) {
      FitsRotation(n, 15);
    } else {
      var r :| 0 <= r < |IMM_MASKS| && Fits(n, IMM_MASKS[r]);
      Masks(r);
      FitsRotation(n, r);
    }
  }

  lemma EncodableAccepted(n: bv32)
    requires RotatedByte(n)
    ensures Immediate(n) || Fits(n, 0x3FC)
  {
    LastRotation();
    hide Fits, Rotate, IMM_MASKS;
    var b: bv32, r: nat :| b < 256 && r < 16 && n == Rotate(b, r);
    RotatedFits(b, r);
    Masks(r);
    assert r < 15 ==> Fits(n, IMM_MASKS[r]);
  }

  /** The test on the masks accepts only numbers that can be encoded, and all of them but some of the last rotation. */
  lemma ImmediateEncodes(n: bv32)
    ensures RotatedByte(n) <==> Immediate(n) || Fits(n, 0x3FC)
  {
    hide RotatedByte, Immediate, Fits;
    if RotatedByte(n) {
      EncodableAccepted(n);
    }
    if Immediate(n) || Fits(n, 0x3FC) {
      AcceptedEncodes(n);
    }
  }

  /** A number that can be encoded and is not accepted. */
  lemma NotAccepted()
    ensures RotatedByte(0x104) && !Immediate(0x104)
  {
    ImmediateEncodes(0x104);
  }

  /** Condition codes of the conditional moves. */
  datatype Cond = EQ | NE | GT | LE | LT | GE | HI | LS | LO | HS

  datatype Operand = R(reg: nat) | Imm(val: Word)

  datatype Instr =
    | Mov(rd: nat, rm: nat)
    | LdrConst(rd: nat, w: Word)              // ldr rd, =#w
    | LdrSym(rd: nat, nid: nat)               // ldr rd, =symbol
    | LdrFrame(rd: nat, offs: int)            // ldr rd, [r11, #offs]
    | LdrFrameReg(rd: nat, ri: nat)           // ldr rd, [r11, ri]
    | LdrInd(rd: nat, rb: nat)                // ldr rd, [rb]
    | StrFrame(rs: nat, offs: int)
    | StrFrameReg(rs: nat, ri: nat)
    | StrInd(rs: nat, rb: nat)
    | Alu(op: OpKind, rd: nat, rn: nat, src: Operand)
    | RsbZero(rd: nat, rn: nat)
    | Mvn(rd: nat, rn: nat)
    | Cmp(rn: nat, src: Operand)
    | MovIf(cond: Cond, rd: nat, w: Word)
    | PoolBreak                               // b over .ltorg

  datatype Machine = Machine(regs: map<nat, Word>, mem: map<Word, Word>, cmpL: Word, cmpR: Word)
  {
    function Reg(r: nat): Word { if r in regs then regs[r] else 0 }
    function Load(a: Word): Word { if a in mem then mem[a] else 0 }
    function SetReg(r: nat, w: Word): Machine { this.(regs := regs[r := w]) }
    function Store(a: Word, w: Word): Machine { this.(mem := mem[a := w]) }
    function Value(o: Operand): Word { if o.R? then Reg(o.reg) else o.val }
  }

  /** The two's-complement reading of a word. */
  function Signed(a: Word): int { if a < 0x8000_0000 then a else a - 0x1_0000_0000 }

  predicate SignedLess(a: Word, b: Word) { Signed(a) < Signed(b) }

  predicate Holds(cond: Cond, a: Word, b: Word) {
    match cond
    case EQ => a == b
    case NE => a != b
    case GT => SignedLess(b, a)
    case LE => !SignedLess(b, a)
    case LT => SignedLess(a, b)
    case GE => !SignedLess(a, b)
    case HI => b < a
    case LS => a <= b
    case LO => a < b
    case HS => b <= a
  }

  function AndOf(a: bv32, b: bv32): bv32 { a & b }

  function OrOf(a: bv32, b: bv32): bv32 { a | b }

  function XorOf(a: bv32, b: bv32): bv32 { a ^ b }

  function Combine(op: OpKind, a: bv32, b: bv32): bv32 {
    if op.OpAnd? then AndOf(a, b) else if op.OpOr? then OrOf(a, b) else XorOf(a, b)
  }

  function Arith(op: OpKind, a: Word, b: Word): Word {
    match op
    case OpAdd => Wrap(a + b)
    case OpSub => Wrap(a - b)
    case OpMul => Wrap(a * b)
    case OpAnd | OpOr | OpXor => Combine(op, a as bv32, b as bv32) as int
    case _ => 0
  }

  function Turned(w: bv32): bv32 { w.RotateRight(1) }

  predicate Odd(w: bv32) { w & 1 == 1 }

  /** Bit i of w, counted around the word. */
  predicate BitSet(w: bv32, i: nat)
    decreases i
  {
    if i == 0 then Odd(w) else BitSet(Turned(w), i - 1)
  }

  lemma AndTurned(a: bv32, b: bv32)
    ensures Turned(AndOf(a, b)) == AndOf(Turned(a), Turned(b))
  {
  }

  lemma AndOdd(a: bv32, b: bv32)
    ensures Odd(AndOf(a, b)) <==> Odd(a) && Odd(b)
  {
  }

  lemma OrTurned(a: bv32, b: bv32)
    ensures Turned(OrOf(a, b)) == OrOf(Turned(a), Turned(b))
  {
  }

  lemma OrOdd(a: bv32, b: bv32)
    ensures Odd(OrOf(a, b)) <==> Odd(a) || Odd(b)
  {
  }

  lemma XorTurned(a: bv32, b: bv32)
    ensures Turned(XorOf(a, b)) == XorOf(Turned(a), Turned(b))
  {
  }

  lemma XorOdd(a: bv32, b: bv32)
    ensures Odd(XorOf(a, b)) <==> Odd(a) != Odd(b)
  {
  }

  lemma CombineStep(op: OpKind, a: bv32, b: bv32)
    requires op.OpAnd? || op.OpOr? || op.OpXor?
    ensures Turned(Combine(op, a, b)) == Combine(op, Turned(a), Turned(b))
    ensures Odd(Combine(op, a, b)) <==>
            if op.OpAnd? then Odd(a) && Odd(b) else if op.OpOr? then Odd(a) || Odd(b) else Odd(a) != Odd(b)
  {
    hide Turned, Odd, AndOf, OrOf, XorOf;
    AndTurned(a, b);
    AndOdd(a, b);
    OrTurned(a, b);
    OrOdd(a, b);
    XorTurned(a, b);
    XorOdd(a, b);
  }

  /** AND, OR and XOR of words bit by bit. */
  lemma {:induction false} BitwiseMeans(op: OpKind, a: bv32, b: bv32, i: nat)
    requires op.OpAnd? || op.OpOr? || op.OpXor?
    ensures BitSet(Combine(op, a, b), i) <==>
            if op.OpAnd? then BitSet(a, i) && BitSet(b, i)
            else if op.OpOr? then BitSet(a, i) || BitSet(b, i)
            else BitSet(a, i) != BitSet(b, i)
    decreases i
  {
    hide Combine, Turned, Odd;
    CombineStep(op, a, b);
    if i > 0 {
      BitwiseMeans(op, Turned(a), Turned(b), i - 1);
    }
  }

  lemma ArithIs(a: Word, b: Word)
    ensures Arith(OpAdd, a, b) == Wrap(a + b) && Arith(OpSub, a, b) == Wrap(a - b) && Arith(OpMul, a, b) == Wrap(a * b)
  {
    hide Combine, Wrap;
  }

  /** Sums, differences and products modulo 2^32, by what undoes them. */
  lemma ArithUndone(a: Word, b: Word)
    ensures a + b < 0x1_0000_0000 ==> Arith(OpAdd, a, b) == a + b
    ensures Arith(OpAdd, Arith(OpSub, a, b), b) == a
    ensures Arith(OpMul, a, 0) == 0
    ensures b + 1 < 0x1_0000_0000 ==> Arith(OpMul, a, b + 1) == Arith(OpAdd, Arith(OpMul, a, b), a)
  {
    hide Arith;
    ArithIs(a, b);
    ArithIs(a, 0);
    ArithIs(Arith(OpSub, a, b), b);
    ArithIs(Arith(OpMul, a, b), a);
    WrapBack(a, b);
    if b + 1 < 0x1_0000_0000 {
      ArithIs(a, b + 1);
      WrapProduct(a, b);
    }
    hide Wrap;
  }

  lemma WrapBack(a: Word, b: Word)
    ensures Wrap(Wrap(a - b) + b) == a && Wrap(a * 0) == 0
    ensures a + b < 0x1_0000_0000 ==> Wrap(a + b) == a + b
  {
    assert Wrap(a - b) == if a >= b then a - b else a - b + 0x1_0000_0000;
  }

  lemma WrapProduct(a: int, b: int)
    ensures Wrap(a * (b + 1)) == Wrap(Wrap(a * b) + a)
  {
    assert a * (b + 1) == a * b + a;
    WrapSum(a * b, a);
    hide Wrap;
  }

  lemma WrapSum(x: int, y: int)
    ensures Wrap(Wrap(x) + y) == Wrap(x + y)
  {
  }

  function Step(symbols: seq<Word>, ins: Instr, m: Machine): Machine {
    match ins
    case Mov(rd, rm) => m.SetReg(rd, m.Reg(rm))
    case LdrConst(rd, w) => m.SetReg(rd, w)
    case LdrSym(rd, nid) => m.SetReg(rd, if nid < |symbols| then symbols[nid] else 0)
    case LdrFrame(rd, offs) => m.SetReg(rd, m.Load(Wrap(m.Reg(FP) + offs)))
    case LdrFrameReg(rd, ri) => m.SetReg(rd, m.Load(Wrap(m.Reg(FP) + m.Reg(ri))))
    case LdrInd(rd, rb) => m.SetReg(rd, m.Load(m.Reg(rb)))
    case StrFrame(rs, offs) => m.Store(Wrap(m.Reg(FP) + offs), m.Reg(rs))
    case StrFrameReg(rs, ri) => m.Store(Wrap(m.Reg(FP) + m.Reg(ri)), m.Reg(rs))
    case StrInd(rs, rb) => m.Store(m.Reg(rb), m.Reg(rs))
    case Alu(op, rd, rn, src) => m.SetReg(rd, Arith(op, m.Reg(rn), m.Value(src)))
    case RsbZero(rd, rn) => m.SetReg(rd, Wrap(0 - m.Reg(rn)))
    case Mvn(rd, rn) => m.SetReg(rd, 0xFFFF_FFFF - m.Reg(rn))
    case Cmp(rn, src) => m.(cmpL := m.Reg(rn), cmpR := m.Value(src))
    case MovIf(cond, rd, w) => if Holds(cond, m.cmpL, m.cmpR) then m.SetReg(rd, w) else m
    case PoolBreak => m
  }

  function Run(symbols: seq<Word>, code: seq<Instr>, m: Machine): Machine {
    if code == [] then m else Step(symbols, code[|code| - 1], Run(symbols, code[..|code| - 1], m))
  }

  lemma RunSnoc(symbols: seq<Word>, code: seq<Instr>, ins: Instr, m: Machine)
    ensures Run(symbols, code + [ins], m) == Step(symbols, ins, Run(symbols, code, m))
  {
    assert (code + [ins])[..|code|] == code;
  }

  // ------------------------------------------------------------------
  // Instructions that exist
  // ------------------------------------------------------------------

  ghost predicate OperandExists(src: Operand) { if src.R? then src.reg < 15 else RotatedByte(src.val as bv32) }

  /** There is an instruction word for it: offsets of loads and stores have twelve bits and a direction, immediates are
      rotated bytes, a product takes registers only. */
  ghost predicate Encodable(ins: Instr) {
    match ins
    case Mov(rd, rm) => rd < 15 && rm < 15
    case LdrConst(rd, _) => rd < 15
    case LdrSym(rd, _) => rd < 15
    case LdrFrame(rd, offs) => rd < 15 && -4095 <= offs <= 4095
    case LdrFrameReg(rd, ri) => rd < 15 && ri < 15
    case LdrInd(rd, rb) => rd < 15 && rb < 15
    case StrFrame(rs, offs) => rs < 15 && -4095 <= offs <= 4095
    case StrFrameReg(rs, ri) => rs < 15 && ri < 15
    case StrInd(rs, rb) => rs < 15 && rb < 15
    case Alu(op, rd, rn, src) =>
      && (op.OpAdd? || op.OpSub? || op.OpMul? || op.OpAnd? || op.OpOr? || op.OpXor?)
      && rd < 15 && rn < 15 && OperandExists(src) && (op.OpMul? ==> src.R?)
    case RsbZero(rd, rn) => rd < 15 && rn < 15
    case Mvn(rd, rn) => rd < 15 && rn < 15
    case Cmp(rn, src) => rn < 15 && OperandExists(src)
    case MovIf(_, rd, w) => rd < 15 && OperandExists(Imm(w))
    case PoolBreak => true
  }

  lemma SmallImmediate(w: Word)
    requires w < 256
    ensures RotatedByte(w as bv32)
  {
    assert Rotate(w as bv32, 0) == w as bv32 && w as bv32 < 256;
  }

  /** Instructions behind the last pool break. */
  function Tail(code: seq<Instr>): nat {
    if code == [] || code[|code| - 1].PoolBreak? then 0 else Tail(code[..|code| - 1]) + 1
  }

  const POOL_EVERY := 512

  /** A pool break stands behind every 512 instructions, and nowhere else. */
  predicate Spaced(code: seq<Instr>) {
    code == [] ||
    var init := code[..|code| - 1];
    Spaced(init) && if code[|code| - 1].PoolBreak? then Tail(init) == POOL_EVERY else Tail(init) < POOL_EVERY
  }

  /** And the generator's counter says how many bytes have been emitted since. */
  predicate Paced(code: seq<Instr>, offs: nat) { Spaced(code) && offs == 4 * Tail(code) && Tail(code) < POOL_EVERY }

  lemma SpacedSnoc(code: seq<Instr>, ins: Instr)
    ensures Tail(code + [ins]) == if ins.PoolBreak? then 0 else Tail(code) + 1
    ensures Spaced(code + [ins]) <==>
            Spaced(code) && if ins.PoolBreak? then Tail(code) == POOL_EVERY else Tail(code) < POOL_EVERY
  {
    assert (code + [ins])[..|code|] == code;
  }

  /** Run from `entry`, what the code adds to `before` ends in machine m; and it consists of instructions that exist. */
  ghost predicate RunsTo(symbols: seq<Word>, before: seq<Instr>, code: seq<Instr>, entry: Machine, m: Machine) {
    && before <= code && m == Run(symbols, code[|before|..], entry)
    && forall k :: |before| <= k < |code| ==> Encodable(code[k])
  }

  lemma RunsToSnoc(symbols: seq<Word>, before: seq<Instr>, code: seq<Instr>, ins: Instr, entry: Machine, m: Machine)
    requires RunsTo(symbols, before, code, entry, m) && Encodable(ins)
    ensures RunsTo(symbols, before, code + [ins], entry, Step(symbols, ins, m))
  {
    hide Step, Encodable;
    RunSnoc(symbols, code[|before|..], ins, entry);
    assert (code + [ins])[|before|..] == code[|before|..] + [ins];
  }
}
