/** Lowering of expressions and structured statements to quads, labels and jumps. */
module Lowering {
  import opened Ic

  // ------------------------------------------------------------------
  // The source language
  // ------------------------------------------------------------------

  datatype Option<+T> = None | Some(value: T)

  /**
   * Expressions over named variables. `leftFirst` is the order in which the two operands of a binary operator are
   * lowered; the original takes it from a register count.
   */
  datatype Exp =
    | Const(v: int)
    | Var(x: nat)
    | Unary(op: OpKind, e: Exp)
    | Binary(op: OpKind, l: Exp, r: Exp, leftFirst: bool)
    | Assign(x: nat, e: Exp)
    | Comma(l: Exp, r: Exp)
    | And(l: Exp, r: Exp)
    | Or(l: Exp, r: Exp)
    | Cond(c: Exp, t: Exp, f: Exp)

  datatype Stmt =
    | Empty
    | ExpStmt(e: Exp)
    | Seq(first: Stmt, second: Stmt)
    | If(c: Exp, t: Stmt)
    | IfElse(c: Exp, t: Stmt, f: Stmt)
    | While(c: Exp, body: Stmt)
    | Do(body: Stmt, c: Exp)
    | For(init: Option<Exp>, test: Option<Exp>, step: Option<Exp>, body: Stmt)
    | Break
    | Continue
    | Return(result: Option<Exp>)

  type Env = map<nat, int>

  function Get(s: Env, x: nat): int { if x in s then s[x] else 0 }

  /** What the operators compute is a parameter. */
  datatype Meaning = Meaning(un: (OpKind, int) -> int, bin: (OpKind, int, int) -> int)

  function Truth(b: bool): int { if b then 1 else 0 }

  /** Value and side effects; the right operand of && and || counts only when needed (section 6.5.13 of ISO/IEC
      9899:1999). */
  function Eval(m: Meaning, e: Exp, s: Env): (int, Env) {
    match e
    case Const(v) => (v, s)
    case Var(x) => (Get(s, x), s)
    case Unary(op, a) => var (v, s1) := Eval(m, a, s); (m.un(op, v), s1)
    case Binary(op, l, r, _) =>
      var (v1, s1) := Eval(m, l, s);
      var (v2, s2) := Eval(m, r, s1);
      (m.bin(op, v1, v2), s2)
    case Assign(x, a) => var (v, s1) := Eval(m, a, s); (v, s1[x := v])
    case Comma(l, r) => Eval(m, r, Eval(m, l, s).1)
    case And(l, r) =>
      var (v, s1) := Eval(m, l, s);
      if v == 0 then (0, s1) else var (w, s2) := Eval(m, r, s1); (Truth(w != 0), s2)
    case Or(l, r) =>
      var (v, s1) := Eval(m, l, s);
      if v != 0 then (1, s1) else var (w, s2) := Eval(m, r, s1); (Truth(w != 0), s2)
    case Cond(c, t, f) =>
      var (v, s1) := Eval(m, c, s);
      if v != 0 then Eval(m, t, s1) else Eval(m, f, s1)
  }

  datatype Outcome = Normal | Broke | Continued | Returned

  /** The name that receives the value of a return statement. */
  const RESULT: nat := 0

  function EvalOpt(m: Meaning, e: Option<Exp>, s: Env): Env {
    if e.Some? then Eval(m, e.value, s).1 else s
  }

  /** A missing test counts as true. */
  function Test(m: Meaning, e: Option<Exp>, s: Env): (bool, Env) {
    if e.Some? then (Eval(m, e.value, s).0 != 0, Eval(m, e.value, s).1) else (true, s)
  }

  /** Execution with a bound on loop iterations; None when the bound is used up. */
  function Exec(m: Meaning, st: Stmt, s: Env, fuel: nat): Option<(Outcome, Env)>
    decreases fuel, st
  {
    match st
    case Empty => Some((Normal, s))
    case ExpStmt(e) => Some((Normal, Eval(m, e, s).1))
    case Seq(a, b) =>
      (match Exec(m, a, s, fuel)
       case Some((Normal, s1)) => Exec(m, b, s1, fuel)
       case other => other)
    case If(c, t) =>
      var (v, s1) := Eval(m, c, s);
      if v != 0 then Exec(m, t, s1, fuel) else Some((Normal, s1))
    case IfElse(c, t, f) =>
      var (v, s1) := Eval(m, c, s);
      if v != 0 then Exec(m, t, s1, fuel) else Exec(m, f, s1, fuel)
    case While(c, body) =>
      var (v, s1) := Eval(m, c, s);
      if v != 0 then Iterate(m, body, None, Some(c), s1, fuel) else Some((Normal, s1))
    case Do(body, c) => Iterate(m, body, None, Some(c), s, fuel)
    case For(init, test, step, body) =>
      var (go, s1) := Test(m, test, EvalOpt(m, init, s));
      if go then Iterate(m, body, step, test, s1, fuel) else Some((Normal, s1))
    case Break => Some((Broke, s))
    case Continue => Some((Continued, s))
    case Return(e) =>
      Some((Returned, if e.Some? then var (v, s1) := Eval(m, e.value, s); s1[RESULT := v] else s))
  }

  /** A loop at the point where its body is entered. */
  function Iterate(m: Meaning, body: Stmt, step: Option<Exp>, test: Option<Exp>, s: Env, fuel: nat): Option<(Outcome,
      Env)>
    decreases fuel, body
  {
    if fuel == 0 then None
    else
      match Exec(m, body, s, fuel - 1)
      case None => None
      case Some((Returned, s1)) => Some((Returned, s1))
      case Some((Broke, s1)) => Some((Normal, s1))
      case Some((_, s1)) =>
        var (go, s2) := Test(m, test, EvalOpt(m, step, s1));
        if go then Iterate(m, body, step, test, s2, fuel - 1) else Some((Normal, s2))
  }

  /** The usual reading of while: test, body, and the loop again. */
  lemma WhileUnfolds(m: Meaning, c: Exp, body: Stmt, s: Env, fuel: nat)
    requires fuel > 0
    ensures var (v, s1) := Eval(m, c, s);
      var r := Exec(m, body, s1, fuel - 1);
      Exec(m, While(c, body), s, fuel) ==
        if v == 0 then Some((Normal, s1))
        else if r.None? || r.value.0.Returned? then r
        else if r.value.0.Broke? then Some((Normal, r.value.1))
        else Exec(m, While(c, body), r.value.1, fuel - 1)
  {
  }

  /** And of for: initialise, test, body, step, and the loop again without its first part. */
  lemma ForUnfolds(m: Meaning, init: Option<Exp>, test: Option<Exp>, step: Option<Exp>, body: Stmt, s: Env, fuel: nat)
    requires fuel > 0
    ensures var (go, s1) := Test(m, test, EvalOpt(m, init, s));
      var r := Exec(m, body, s1, fuel - 1);
      Exec(m, For(init, test, step, body), s, fuel) ==
        if !go then Some((Normal, s1))
        else if r.None? || r.value.0.Returned? then r
        else if r.value.0.Broke? then Some((Normal, r.value.1))
        else Exec(m, For(None, test, step, body), EvalOpt(m, step, r.value.1), fuel - 1)
  {
    var (go, s1) := Test(m, test, EvalOpt(m, init, s));
    hide Test, EvalOpt;
    if go {
      var r := Exec(m, body, s1, fuel - 1);
      if r.Some? && (r.value.0.Normal? || r.value.0.Continued?) {
        EvalNone(m, EvalOpt(m, step, r.value.1));
      }
    }
  }

  lemma EvalNone(m: Meaning, s: Env)
    ensures EvalOpt(m, None, s) == s
  {
  }

  // ------------------------------------------------------------------
  // Which programs have a meaning
  // ------------------------------------------------------------------

  function Writes(e: Exp): set<nat> {
    match e
    case Const(_) | Var(_) => {}
    case Unary(_, a) => Writes(a)
    case Binary(_, l, r, _) => Writes(l) + Writes(r)
    case Assign(x, a) => {x} + Writes(a)
    case Comma(l, r) => Writes(l) + Writes(r)
    case And(l, r) => Writes(l) + Writes(r)
    case Or(l, r) => Writes(l) + Writes(r)
    case Cond(c, t, f) => Writes(c) + Writes(t) + Writes(f)
  }

  function Vars(e: Exp): (r: set<nat>)
    ensures Writes(e) <= r
  {
    match e
    case Const(_) => {}
    case Var(x) => {x}
    case Unary(_, a) => Vars(a)
    case Binary(_, l, r, _) => Vars(l) + Vars(r)
    case Assign(x, a) => {x} + Vars(a)
    case Comma(l, r) => Vars(l) + Vars(r)
    case And(l, r) => Vars(l) + Vars(r)
    case Or(l, r) => Vars(l) + Vars(r)
    case Cond(c, t, f) => Vars(c) + Vars(t) + Vars(f)
  }

  /**
   * Variables come before `base`, and no operand of an operator changes what the other one uses: otherwise
   * the behaviour is undefined (section 6.5, paragraph 2).
   */
  predicate Defined(e: Exp, base: nat) {
    match e
    case Const(_) => true
    case Var(x) => RESULT < x < base
    case Unary(_, a) => Defined(a, base)
    case Binary(_, l, r, _) => Defined(l, base) && Defined(r, base) && Writes(l) !! Vars(r) && Writes(r) !! Vars(l)
    case Assign(x, a) => RESULT < x < base && Defined(a, base)
    case Comma(l, r) => Defined(l, base) && Defined(r, base)
    case And(l, r) => Defined(l, base) && Defined(r, base)
    case Or(l, r) => Defined(l, base) && Defined(r, base)
    case Cond(c, t, f) => Defined(c, base) && Defined(t, base) && Defined(f, base)
  }

  predicate DefinedOpt(e: Option<Exp>, base: nat) { e.Some? ==> Defined(e.value, base) }

  /** break and continue occur only inside loops. */
  predicate Legal(st: Stmt, base: nat, loop: bool) {
    match st
    case Empty => true
    case ExpStmt(e) => Defined(e, base)
    case Seq(a, b) => Legal(a, base, loop) && Legal(b, base, loop)
    case If(c, t) => Defined(c, base) && Legal(t, base, loop)
    case IfElse(c, t, f) => Defined(c, base) && Legal(t, base, loop) && Legal(f, base, loop)
    case While(c, body) => Defined(c, base) && Legal(body, base, true)
    case Do(body, c) => Defined(c, base) && Legal(body, base, true)
    case For(init, test, step, body) =>
      DefinedOpt(init, base) && DefinedOpt(test, base) && DefinedOpt(step, base) && Legal(body, base, true)
    case Break | Continue => loop
    case Return(e) => DefinedOpt(e, base)
  }

  lemma {:induction false} EvalFrame(m: Meaning, e: Exp, s: Env, x: nat)
    requires x !in Writes(e)
    ensures Get(Eval(m, e, s).1, x) == Get(s, x)
  {
    match e
    case Const(_) | Var(_) =>
    case Unary(_, a) => EvalFrame(m, a, s, x);
    case Assign(_, a) => EvalFrame(m, a, s, x);
    case Binary(_, l, r, _) =>
      EvalFrame(m, l, s, x);
      EvalFrame(m, r, Eval(m, l, s).1, x);
    case Comma(l, r) =>
      EvalFrame(m, l, s, x);
      EvalFrame(m, r, Eval(m, l, s).1, x);
    case And(l, r) =>
      EvalFrame(m, l, s, x);
      EvalFrame(m, r, Eval(m, l, s).1, x);
    case Or(l, r) =>
      EvalFrame(m, l, s, x);
      EvalFrame(m, r, Eval(m, l, s).1, x);
    case Cond(c, t, f) =>
      EvalFrame(m, c, s, x);
      EvalFrame(m, t, Eval(m, c, s).1, x);
      EvalFrame(m, f, Eval(m, c, s).1, x);
  }

  /** Two states that agree on these names. */
  predicate Same(s: Env, t: Env, names: set<nat>) {
    forall x :: x in names ==> Get(s, x) == Get(t, x)
  }

  /** An expression depends on nothing but its variables. */
  lemma {:induction false} EvalLocal(m: Meaning, e: Exp, s: Env, t: Env, names: set<nat>)
    requires Vars(e) <= names && Same(s, t, names)
    ensures Eval(m, e, s).0 == Eval(m, e, t).0 && Same(Eval(m, e, s).1, Eval(m, e, t).1, names)
  {
    match e
    case Const(_) =>
    case Var(x) => assert x in names;
    case Unary(_, a) => EvalLocal(m, a, s, t, names);
    case Assign(_, a) => EvalLocal(m, a, s, t, names);
    case Binary(_, l, r, _) =>
      EvalLocal(m, l, s, t, names);
      EvalLocal(m, r, Eval(m, l, s).1, Eval(m, l, t).1, names);
    case Comma(l, r) =>
      EvalLocal(m, l, s, t, names);
      EvalLocal(m, r, Eval(m, l, s).1, Eval(m, l, t).1, names);
    case And(l, r) =>
      EvalLocal(m, l, s, t, names);
      EvalLocal(m, r, Eval(m, l, s).1, Eval(m, l, t).1, names);
    case Or(l, r) =>
      EvalLocal(m, l, s, t, names);
      EvalLocal(m, r, Eval(m, l, s).1, Eval(m, l, t).1, names);
    case Cond(c, a, b) =>
      EvalLocal(m, c, s, t, names);
      EvalLocal(m, a, Eval(m, c, s).1, Eval(m, c, t).1, names);
      EvalLocal(m, b, Eval(m, c, s).1, Eval(m, c, t).1, names);
  }

  /** Operands that do not interfere may be evaluated in either order. */
  lemma Commutes(m: Meaning, l: Exp, r: Exp, s: Env, x: nat)
    requires Writes(l) !! Vars(r) && Writes(r) !! Vars(l)
    ensures Eval(m, l, Eval(m, r, s).1).0 == Eval(m, l, s).0
    ensures Eval(m, r, Eval(m, l, s).1).0 == Eval(m, r, s).0
    ensures Get(Eval(m, l, Eval(m, r, s).1).1, x) == Get(Eval(m, r, Eval(m, l, s).1).1, x)
  {
    var sl, sr := Eval(m, l, s).1, Eval(m, r, s).1;
    forall y | y in Vars(r) ensures Get(sl, y) == Get(s, y) { EvalFrame(m, l, s, y); }
    forall y | y in Vars(l) ensures Get(sr, y) == Get(s, y) { EvalFrame(m, r, s, y); }
    EvalLocal(m, r, sl, s, Vars(r));
    EvalLocal(m, l, sr, s, Vars(l));
    if x !in Writes(l) {
      EvalFrame(m, l, s, x);
      EvalFrame(m, l, sr, x);
    }
    if x !in Writes(r) {
      EvalFrame(m, r, s, x);
      EvalFrame(m, r, sl, x);
    }
  }

  // ------------------------------------------------------------------
  // Quads
  // ------------------------------------------------------------------

  datatype Operand = Imm(v: int) | Name(x: nat)

  datatype Instr =
    | Lab(l: nat)
    | Jmp(l: nat)
    | CBr(yes: nat, c: Operand, no: nat)
    | Op1(op: OpKind, tar: nat, a: Operand)
    | Op2(op: OpKind, tar: nat, a: Operand, b: Operand)
    | Asn(tar: nat, a: Operand)
    | Ret(a: Operand)

  function Fetch(a: Operand, s: Env): int { if a.Imm? then a.v else Get(s, a.x) }

  /** Where a label stands; the length of the code if nowhere. */
  function Find(code: seq<Instr>, l: nat): (k: nat)
    ensures k <= |code|
    ensures k < |code| ==> code[k] == Lab(l)
  {
    if code == [] then 0 else if code[0] == Lab(l) then 0 else 1 + Find(code[1..], l)
  }

  /** One step. At the end of the code the machine stands still. */
  function Step(m: Meaning, code: seq<Instr>, pc: nat, s: Env): (nat, Env) {
    if pc >= |code| then (pc, s)
    else
      match code[pc]
      case Lab(_) => (pc + 1, s)
      case Jmp(l) => (Find(code, l), s)
      case CBr(yes, c, no) => (Find(code, if Fetch(c, s) != 0 then yes else no), s)
      case Op1(op, tar, a) => (pc + 1, s[tar := m.un(op, Fetch(a, s))])
      case Op2(op, tar, a, b) => (pc + 1, s[tar := m.bin(op, Fetch(a, s), Fetch(b, s))])
      case Asn(tar, a) => (pc + 1, s[tar := Fetch(a, s)])
      case Ret(a) => (pc + 1, s[RESULT := Fetch(a, s)])
  }

  function Run(m: Meaning, code: seq<Instr>, pc: nat, s: Env, n: nat): (nat, Env)
    decreases n
  {
    if n == 0 then (pc, s) else var (pc1, s1) := Step(m, code, pc, s); Run(m, code, pc1, s1, n - 1)
  }

  lemma {:induction false} Chain(m: Meaning, code: seq<Instr>, pc: nat, s: Env, n1: nat, n2: nat)
    ensures Run(m, code, pc, s, n1 + n2) == Run(m, code, Run(m, code, pc, s, n1).0, Run(m, code, pc, s, n1).1, n2)
    decreases n1
  {
    if n1 > 0 {
      var (pc1, s1) := Step(m, code, pc, s);
      Chain(m, code, pc1, s1, n1 - 1, n2);
      assert n1 - 1 + n2 == n1 + n2 - 1;
    }
  }

  lemma RunOne(m: Meaning, code: seq<Instr>, pc: nat, s: Env)
    ensures Run(m, code, pc, s, 1) == Step(m, code, pc, s)
  {
    assert Run(m, code, Step(m, code, pc, s).0, Step(m, code, pc, s).1, 0) == Step(m, code, pc, s);
  }

  predicate Unique(code: seq<Instr>) {
    forall i, j :: 0 <= i < j < |code| && code[i].Lab? ==> code[i] != code[j]
  }

  lemma {:induction false} FindAt(code: seq<Instr>, k: nat, l: nat)
    requires Unique(code) && k < |code| && code[k] == Lab(l)
    ensures Find(code, l) == k
  {
    if k > 0 {
      assert code[0] != code[k];
      var rest := code[1..];
      assert rest[k - 1] == code[k];
      assert forall i, j :: 0 <= i < j < |rest| && rest[i].Lab? ==> rest[i] == code[i + 1] && rest[j] == code[j + 1];
      FindAt(rest, k - 1, l);
    }
  }

  // ------------------------------------------------------------------
  // Lowering
  // ------------------------------------------------------------------

  /** Code, where its value is, and the next unused label and temporary. */
  datatype Out = Out(code: seq<Instr>, arg: Operand, lab: nat, tmp: nat)

  /** The end of a && or || whose value is wanted. */
  function Tail(one: nat, zero: nat, end: nat, a: nat): seq<Instr> {
    [Lab(one), Asn(a, Imm(1)), Jmp(end), Lab(zero), Asn(a, Imm(0)), Lab(end)]
  }

  /** A test, the code for true behind the first label, the code for false behind the second, and the third. */
  function Diamond(c: seq<Instr>, c1: seq<Instr>, c2: seq<Instr>, lab: nat): seq<Instr> {
    c + [Lab(lab)] + (c1 + [Jmp(lab + 2)]) + ([Lab(lab + 1)] + (c2 + [Lab(lab + 2)]))
  }

  /** ic_expression without branch targets. */
  function LowerExp(e: Exp, lab: nat, tmp: nat): (o: Out)
    ensures o.lab >= lab && o.tmp >= tmp
    ensures o.arg.Name? ==> tmp <= o.arg.x < o.tmp || o.arg.x in Vars(e)
    decreases e, 0
  {
    match e
    case Const(v) => Out([], Imm(v), lab, tmp)
    case Var(x) => Out([], Name(x), lab, tmp)
    case Unary(op, a) =>
      var o := LowerExp(a, lab, tmp);
      Out(o.code + [Op1(op, o.tmp, o.arg)], Name(o.tmp), o.lab, o.tmp + 1)
    case Binary(op, l, r, true) =>
      var o1 := LowerExp(l, lab, tmp);
      var o2 := LowerExp(r, o1.lab, o1.tmp);
      Out(o1.code + o2.code + [Op2(op, o2.tmp, o1.arg, o2.arg)], Name(o2.tmp), o2.lab, o2.tmp + 1)
    case Binary(op, l, r, false) =>
      var o2 := LowerExp(r, lab, tmp);
      var o1 := LowerExp(l, o2.lab, o2.tmp);
      Out(o2.code + o1.code + [Op2(op, o1.tmp, o1.arg, o2.arg)], Name(o1.tmp), o1.lab, o1.tmp + 1)
    case Assign(x, a) =>
      var o := LowerExp(a, lab, tmp);
      Out(o.code + [Asn(x, o.arg)], Name(x), o.lab, o.tmp)
    case Comma(l, r) =>
      var o1 := LowerExp(l, lab, tmp);
      var o2 := LowerExp(r, o1.lab, o1.tmp);
      Out(o1.code + o2.code, o2.arg, o2.lab, o2.tmp)
    case Cond(c, t, f) =>
      var o := LowerCond(c, lab, lab + 1, lab + 3, tmp);
      var a := o.tmp;
      var o1 := LowerExp(t, o.lab, a + 1);
      var o2 := LowerExp(f, o1.lab, o1.tmp);
      Out(Diamond(o.code, o1.code + [Asn(a, o1.arg)], o2.code + [Asn(a, o2.arg)], lab), Name(a), o2.lab, o2.tmp)
    case Or(l, r) =>
      var o1 := LowerCond(l, lab, lab + 1, lab + 4, tmp + 1);
      var o2 := LowerCond(r, lab, lab + 2, o1.lab, o1.tmp);
      Out(o1.code + [Lab(lab + 1)] + o2.code + Tail(lab, lab + 2, lab + 3, tmp), Name(tmp), o2.lab, o2.tmp)
    case And(l, r) =>
      var o1 := LowerCond(l, lab, lab + 2, lab + 4, tmp + 1);
      var o2 := LowerCond(r, lab + 1, lab + 2, o1.lab, o1.tmp);
      Out(o1.code + [Lab(lab)] + o2.code + Tail(lab + 1, lab + 2, lab + 3, tmp), Name(tmp), o2.lab, o2.tmp)
  }

  /** ic_controlling_expression: control goes to `yes` or to `no`. */
  function LowerCond(e: Exp, yes: nat, no: nat, lab: nat, tmp: nat): (o: Out)
    ensures o.lab >= lab && o.tmp >= tmp
    decreases e, 1
  {
    match e
    case Or(l, r) =>
      var o1 := LowerCond(l, yes, lab, lab + 1, tmp);
      var o2 := LowerCond(r, yes, no, o1.lab, o1.tmp);
      Out(o1.code + [Lab(lab)] + o2.code, Imm(0), o2.lab, o2.tmp)
    case And(l, r) =>
      var o1 := LowerCond(l, lab, no, lab + 1, tmp);
      var o2 := LowerCond(r, yes, no, o1.lab, o1.tmp);
      Out(o1.code + [Lab(lab)] + o2.code, Imm(0), o2.lab, o2.tmp)
    case _ =>
      var o := LowerExp(e, lab, tmp);
      Out(o.code + [CBr(yes, o.arg, no)], Imm(0), o.lab, o.tmp)
  }

  function LowerOpt(e: Option<Exp>, lab: nat, tmp: nat): (o: Out)
    ensures o.lab >= lab && o.tmp >= tmp
  {
    if e.Some? then LowerExp(e.value, lab, tmp) else Out([], Imm(0), lab, tmp)
  }

  /** The label the code so far ends with, where `prev` is the one before this piece of code. */
  function LastLabel(prev: Option<nat>, code: seq<Instr>): Option<nat> {
    if code == [] then prev
    else if code[|code| - 1].Lab? then Some(code[|code| - 1].l) else None
  }

  /** Where break, continue and return go. */
  datatype Targets = Targets(brk: Option<nat>, cont: Option<nat>, exit: nat)

  /** ic_statement. */
  function LowerStmt(st: Stmt, g: Targets, prev: Option<nat>, lab: nat, tmp: nat): (o: Out)
    ensures o.lab >= lab && o.tmp >= tmp
    decreases st, 0
  {
    match st
    case Empty => Out([], Imm(0), lab, tmp)
    case ExpStmt(e) => LowerExp(e, lab, tmp)
    case Seq(a, b) =>
      var o1 := LowerStmt(a, g, prev, lab, tmp);
      var o2 := LowerStmt(b, g, LastLabel(prev, o1.code), o1.lab, o1.tmp);
      Out(o1.code + o2.code, Imm(0), o2.lab, o2.tmp)
    case If(c, t) =>
      var o := LowerCond(c, lab, lab + 1, lab + 2, tmp);
      var o1 := LowerStmt(t, g, Some(lab), o.lab, o.tmp);
      Out(o.code + [Lab(lab)] + o1.code + [Lab(lab + 1)], Imm(0), o1.lab, o1.tmp)
    case IfElse(c, t, f) =>
      var o := LowerCond(c, lab, lab + 1, lab + 3, tmp);
      var o1 := LowerStmt(t, g, Some(lab), o.lab, o.tmp);
      var o2 := LowerStmt(f, g, Some(lab + 1), o1.lab, o1.tmp);
      Out(Diamond(o.code, o1.code, o2.code, lab), Imm(0), o2.lab, o2.tmp)
    case While(c, body) =>
      var o := LowerCond(c, lab, lab + 2, lab + 3, tmp);
      var o1 := LowerLoop(body, None, Some(c), lab, lab + 1, lab + 2, g, o.lab, o.tmp);
      Out(o.code + [Lab(lab)] + o1.code, Imm(0), o1.lab, o1.tmp)
    case Do(body, c) =>
      if prev.Some? then LowerLoop(body, None, Some(c), prev.value, lab, lab + 1, g, lab + 2, tmp)
      else
        var o1 := LowerLoop(body, None, Some(c), lab + 2, lab, lab + 1, g, lab + 3, tmp);
        Out([Lab(lab + 2)] + o1.code, Imm(0), o1.lab, o1.tmp)
    case For(init, test, step, body) =>
      var o0 := LowerOpt(init, lab + 3, tmp);
      var o := if test.Some? then LowerCond(test.value, lab, lab + 2, o0.lab, o0.tmp)
          else Out([], Imm(0), o0.lab, o0.tmp);
      var o1 := LowerLoop(body, step, test, lab, lab + 1, lab + 2, g, o.lab, o.tmp);
      Out(o0.code + o.code + [Lab(lab)] + o1.code, Imm(0), o1.lab, o1.tmp)
    case Break => Out([Jmp(if g.brk.Some? then g.brk.value else 0)], Imm(0), lab, tmp)
    case Continue => Out([Jmp(if g.cont.Some? then g.cont.value else 0)], Imm(0), lab, tmp)
    case Return(e) =>
      if e.Some? then
        var o := LowerExp(e.value, lab, tmp);
        Out(o.code + [Ret(o.arg), Jmp(g.exit)], Imm(0), o.lab, o.tmp)
      else Out([Jmp(g.exit)], Imm(0), lab, tmp)
  }

  /** The parts of a loop behind its first label: body, step and the test again. */
  function LoopParts(body: Stmt, step: Option<Exp>, test: Option<Exp>, l1: nat, l2: nat, l3: nat, g: Targets,
      lab: nat, tmp: nat): (r: (Out, Out, Out))
    ensures r.0.lab <= r.1.lab <= r.2.lab && r.0.tmp <= r.1.tmp <= r.2.tmp && lab <= r.0.lab && tmp <= r.0.tmp
    decreases body, 1
  {
    var o1 := LowerStmt(body, Targets(Some(l3), Some(l2), g.exit), Some(l1), lab, tmp);
    var o2 := LowerOpt(step, o1.lab, o1.tmp);
    var o3 := if test.Some? then LowerCond(test.value, l1, l3, o2.lab, o2.tmp)
        else Out([Jmp(l1)], Imm(0), o2.lab, o2.tmp);
    (o1, o2, o3)
  }

  /** The common part of the three loops, from just behind their first label. */
  function LowerLoop(body: Stmt, step: Option<Exp>, test: Option<Exp>, l1: nat, l2: nat, l3: nat, g: Targets,
      lab: nat, tmp: nat): (o: Out)
    ensures o.lab >= lab && o.tmp >= tmp
    decreases body, 2
  {
    var (o1, o2, o3) := LoopParts(body, step, test, l1, l2, l3, g, lab, tmp);
    Out(o1.code + [Lab(l2)] + o2.code + o3.code + [Lab(l3)], Imm(0), o3.lab, o3.tmp)
  }

  // ------------------------------------------------------------------
  // Simulation
  // ------------------------------------------------------------------

  /** The piece of code stands at pos. */
  predicate At(final: seq<Instr>, pos: nat, code: seq<Instr>) {
    pos + |code| <= |final| && final[pos..pos + |code|] == code
  }

  lemma AtSplit(final: seq<Instr>, pos: nat, a: seq<Instr>, b: seq<Instr>)
    requires At(final, pos, a + b)
    ensures At(final, pos, a) && At(final, pos + |a|, b)
  {
    var ab := a + b;
    assert forall k :: 0 <= k < |ab| ==> final[pos..pos + |ab|][k] == ab[k];
    assert forall k :: 0 <= k < |ab| ==> final[pos + k] == ab[k];
    assert forall k :: 0 <= k < |a| ==> ab[k] == a[k];
    assert forall k :: 0 <= k < |b| ==> ab[|a| + k] == b[k];
  }

  lemma AtIndex(final: seq<Instr>, pos: nat, code: seq<Instr>, k: nat)
    requires At(final, pos, code) && k < |code|
    ensures pos + k < |final| && final[pos + k] == code[k]
  {
    assert final[pos..pos + |code|][k] == code[k];
  }

  lemma AtOne(final: seq<Instr>, pos: nat, i: Instr)
    requires At(final, pos, [i])
    ensures pos < |final| && final[pos] == i
  {
    assert final[pos..pos + 1][0] == i;
  }

  /** n steps lead from one configuration to the other. */
  predicate Goes(m: Meaning, code: seq<Instr>, pc: nat, s: Env, n: nat, pc': nat, s': Env) {
    Run(m, code, pc, s, n) == (pc', s')
  }

  lemma Stay(m: Meaning, code: seq<Instr>, pc: nat, s: Env)
    ensures Goes(m, code, pc, s, 0, pc, s)
  {
  }

  lemma Then(m: Meaning, code: seq<Instr>, pc: nat, s: Env, n1: nat, pc1: nat, s1: Env, n2: nat, pc2: nat, s2: Env)
    requires Goes(m, code, pc, s, n1, pc1, s1) && Goes(m, code, pc1, s1, n2, pc2, s2)
    ensures Goes(m, code, pc, s, n1 + n2, pc2, s2)
  {
    Chain(m, code, pc, s, n1, n2);
  }

  lemma Further(m: Meaning, code: seq<Instr>, pc: nat, s: Env, n1: nat, pc1: nat, s1: Env)
    requires Goes(m, code, pc, s, n1, pc1, s1)
    ensures Goes(m, code, pc, s, n1 + 1, Step(m, code, pc1, s1).0, Step(m, code, pc1, s1).1)
  {
    Chain(m, code, pc, s, n1, 1);
    RunOne(m, code, pc1, s1);
  }

  /** Source and target state agree on the names of the program. */
  predicate Agree(s: Env, t: Env, base: nat) {
    forall x :: 0 <= x < base ==> Get(s, x) == Get(t, x)
  }

  /** Temporaries already in use keep their values. */
  predicate Kept(t: Env, t': Env, base: nat, tmp: nat) {
    forall x :: base <= x < tmp ==> Get(t', x) == Get(t, x)
  }

  lemma KeptTrans(t: Env, t1: Env, t2: Env, base: nat, tmp: nat, tmp1: nat)
    requires Kept(t, t1, base, tmp) && Kept(t1, t2, base, tmp1) && tmp <= tmp1
    ensures Kept(t, t2, base, tmp)
  {
  }

  /** A temporary may be set. */
  lemma SetTemp(s: Env, t: Env, t1: Env, base: nat, tmp: nat, x: nat, v: int)
    requires Agree(s, t1, base) && Kept(t, t1, base, tmp) && base <= tmp <= x
    ensures Agree(s, t1[x := v], base) && Kept(t, t1[x := v], base, tmp)
  {
  }

  /** A variable of the program is set on both sides. */
  lemma SetVar(s: Env, t: Env, t1: Env, base: nat, tmp: nat, x: nat, v: int)
    requires Agree(s, t1, base) && Kept(t, t1, base, tmp) && x < base
    ensures Agree(s[x := v], t1[x := v], base) && Kept(t, t1[x := v], base, tmp)
  {
    forall y {:trigger Get(t1, y)} | 0 <= y < base ensures Get(s[x := v], y) == Get(t1[x := v], y) {
      assert Get(s, y) == Get(t1, y);
    }
  }

  lemma {:induction false} ExpSim(m: Meaning, final: seq<Instr>, pos: nat, e: Exp, lab: nat, tmp: nat, s: Env,
      t: Env, base: nat)
    returns (n: nat, t': Env)
    requires Unique(final) && Defined(e, base) && RESULT < base <= tmp && Agree(s, t, base)
    requires At(final, pos, LowerExp(e, lab, tmp).code)
    ensures var o, (v, s') := LowerExp(e, lab, tmp), Eval(m, e, s);
      Goes(m, final, pos, t, n, pos + |o.code|, t') && Agree(s', t', base) && Kept(t, t', base, tmp)
          && Fetch(o.arg, t') == v
    decreases e, 3
  {
    hide Run, Goes, Unique, Find, Kept, At, Agree;
    match e
    case Const(_) =>
      Stay(m, final, pos, t);
      KeptSelf(t, base, tmp);
      n, t' := 0, t;
    case Var(x) =>
      Stay(m, final, pos, t);
      KeptSelf(t, base, tmp);
      GetAgree(s, t, base, x);
      n, t' := 0, t;
    case Unary(_, _) =>
      n, t' := UnarySim(m, final, pos, e, lab, tmp, s, t, base);
    case Binary(_, _, _, leftFirst) =>
      if leftFirst {
        n, t' := LeftFirstSim(m, final, pos, e, lab, tmp, s, t, base);
      } else {
        n, t' := RightFirstSim(m, final, pos, e, lab, tmp, s, t, base);
      }
    case Assign(_, _) =>
      n, t' := AssignSim(m, final, pos, e, lab, tmp, s, t, base);
    case Comma(_, _) =>
      n, t' := CommaSim(m, final, pos, e, lab, tmp, s, t, base);
    case Cond(_, _, _) =>
      n, t' := CondExpSim(m, final, pos, e, lab, tmp, s, t, base);
    case Or(_, _) =>
      n, t' := LogicSim(m, final, pos, e, lab, tmp, s, t, base);
    case And(_, _) =>
      n, t' := LogicSim(m, final, pos, e, lab, tmp, s, t, base);
  }

  lemma {:induction false} UnarySim(m: Meaning, final: seq<Instr>, pos: nat, e: Exp, lab: nat, tmp: nat, s: Env,
      t: Env, base: nat)
    returns (n: nat, t': Env)
    requires Unique(final) && Defined(e, base) && RESULT < base <= tmp && Agree(s, t, base)
    requires e.Unary? && At(final, pos, LowerExp(e, lab, tmp).code)
    ensures var o, (v, s') := LowerExp(e, lab, tmp), Eval(m, e, s);
      Goes(m, final, pos, t, n, pos + |o.code|, t') && Agree(s', t', base) && Kept(t, t', base, tmp)
          && Fetch(o.arg, t') == v
    decreases e, 1
  {
    hide Run, Goes, Unique, Find, Kept, At, Agree;
    var o := LowerExp(e.e, lab, tmp);
    var i := Op1(e.op, o.tmp, o.arg);
    AtSplit(final, pos, o.code, [i]);
    var k, t1 := ExpSim(m, final, pos, e.e, lab, tmp, s, t, base);
    AtOne(final, pos + |o.code|, i);
    Further(m, final, pos, t, k, pos + |o.code|, t1);
    SetTemp(Eval(m, e.e, s).1, t, t1, base, tmp, o.tmp, m.un(e.op, Fetch(o.arg, t1)));
    n, t' := k + 1, t1[o.tmp := m.un(e.op, Fetch(o.arg, t1))];
  }

  lemma {:induction false} AssignSim(m: Meaning, final: seq<Instr>, pos: nat, e: Exp, lab: nat, tmp: nat, s: Env,
      t: Env, base: nat)
    returns (n: nat, t': Env)
    requires Unique(final) && Defined(e, base) && RESULT < base <= tmp && Agree(s, t, base)
    requires e.Assign? && At(final, pos, LowerExp(e, lab, tmp).code)
    ensures var o, (v, s') := LowerExp(e, lab, tmp), Eval(m, e, s);
      Goes(m, final, pos, t, n, pos + |o.code|, t') && Agree(s', t', base) && Kept(t, t', base, tmp)
          && Fetch(o.arg, t') == v
    decreases e, 1
  {
    hide Run, Goes, Unique, Find, Kept, At, Agree;
    var o := LowerExp(e.e, lab, tmp);
    var i := Asn(e.x, o.arg);
    AtSplit(final, pos, o.code, [i]);
    var k, t1 := ExpSim(m, final, pos, e.e, lab, tmp, s, t, base);
    AtOne(final, pos + |o.code|, i);
    Further(m, final, pos, t, k, pos + |o.code|, t1);
    SetVar(Eval(m, e.e, s).1, t, t1, base, tmp, e.x, Fetch(o.arg, t1));
    n, t' := k + 1, t1[e.x := Fetch(o.arg, t1)];
  }

  lemma {:induction false} CommaSim(m: Meaning, final: seq<Instr>, pos: nat, e: Exp, lab: nat, tmp: nat, s: Env,
      t: Env, base: nat)
    returns (n: nat, t': Env)
    requires Unique(final) && Defined(e, base) && RESULT < base <= tmp && Agree(s, t, base)
    requires e.Comma? && At(final, pos, LowerExp(e, lab, tmp).code)
    ensures var o, (v, s') := LowerExp(e, lab, tmp), Eval(m, e, s);
      Goes(m, final, pos, t, n, pos + |o.code|, t') && Agree(s', t', base) && Kept(t, t', base, tmp)
          && Fetch(o.arg, t') == v
    decreases e, 1
  {
    hide Run, Goes, Unique, Find, Kept, At, Agree;
    var o1 := LowerExp(e.l, lab, tmp);
    var o2 := LowerExp(e.r, o1.lab, o1.tmp);
    AtSplit(final, pos, o1.code, o2.code);
    var n1, t1 := ExpSim(m, final, pos, e.l, lab, tmp, s, t, base);
    var pc1 := pos + |o1.code|;
    n, t' := ExpSim(m, final, pc1, e.r, o1.lab, o1.tmp, Eval(m, e.l, s).1, t1, base);
    Then(m, final, pos, t, n1, pc1, t1, n, pc1 + |o2.code|, t');
    KeptTrans(t, t1, t', base, tmp, o1.tmp);
    n := n1 + n;
  }

  lemma KeptSelf(t: Env, base: nat, tmp: nat)
    ensures Kept(t, t, base, tmp)
  {
  }

  lemma GetAgree(s: Env, t: Env, base: nat, x: nat)
    requires Agree(s, t, base) && x < base
    ensures Get(s, x) == Get(t, x)
  {
  }

  lemma {:induction false} LeftFirstSim(m: Meaning, final: seq<Instr>, pos: nat, e: Exp, lab: nat, tmp: nat, s: Env,
      t: Env, base: nat)
    returns (n: nat, t': Env)
    requires Unique(final) && Defined(e, base) && RESULT < base <= tmp && Agree(s, t, base)
    requires e.Binary? && e.leftFirst && At(final, pos, LowerExp(e, lab, tmp).code)
    ensures var o, (v, s') := LowerExp(e, lab, tmp), Eval(m, e, s);
      Goes(m, final, pos, t, n, pos + |o.code|, t') && Agree(s', t', base) && Kept(t, t', base, tmp)
          && Fetch(o.arg, t') == v
    decreases e, 1
  {
    hide Run, Goes, Unique, Find, Kept, At, Agree, Vars, Writes;
    var o1 := LowerExp(e.l, lab, tmp);
    var o2 := LowerExp(e.r, o1.lab, o1.tmp);
    var last := Op2(e.op, o2.tmp, o1.arg, o2.arg);
    AtSplit(final, pos, o1.code + o2.code, [last]);
    AtSplit(final, pos, o1.code, o2.code);
    var pc1, pc2 := pos + |o1.code|, pos + |o1.code + o2.code|;
    AtOne(final, pc2, last);
    var n1, t1 := ExpSim(m, final, pos, e.l, lab, tmp, s, t, base);
    var s1 := Eval(m, e.l, s).1;
    var n2, t2 := ExpSim(m, final, pc1, e.r, o1.lab, o1.tmp, s1, t1, base);
    Then(m, final, pos, t, n1, pc1, t1, n2, pc2, t2);
    Further(m, final, pos, t, n1 + n2, pc2, t2);
    OperandKept(m, e.l, e.r, o1.arg, s1, t1, t2, base, tmp, o1.tmp);
    KeptTrans(t, t1, t2, base, tmp, o1.tmp);
    var v := m.bin(e.op, Fetch(o1.arg, t2), Fetch(o2.arg, t2));
    SetTemp(Eval(m, e.r, s1).1, t, t2, base, tmp, o2.tmp, v);
    n, t' := n1 + n2 + 1, t2[o2.tmp := v];
  }

  /** The value of the first operand survives the code of the second. */
  lemma OperandKept(m: Meaning, first: Exp, second: Exp, arg: Operand, s1: Env, t1: Env, t2: Env, base: nat,
      tmp: nat, tmp1: nat)
    requires arg.Name? ==> tmp <= arg.x < tmp1 || arg.x in Vars(first)
    requires Writes(second) !! Vars(first) && base <= tmp && Defined(first, base)
    requires Agree(s1, t1, base) && Agree(Eval(m, second, s1).1, t2, base) && Kept(t1, t2, base, tmp1)
    ensures Fetch(arg, t2) == Fetch(arg, t1)
  {
    if arg.Name? && arg.x in Vars(first) {
      VarsBelow(first, base, arg.x);
      EvalFrame(m, second, s1, arg.x);
    }
  }

  lemma {:induction false} VarsBelow(e: Exp, base: nat, x: nat)
    requires Defined(e, base) && x in Vars(e)
    ensures RESULT < x < base
  {
    match e
    case Const(_) | Var(_) =>
    case Unary(_, a) => VarsBelow(a, base, x);
    case Assign(y, a) => if x in Vars(a) { VarsBelow(a, base, x); }
    case Binary(_, l, r, _) => if x in Vars(l) { VarsBelow(l, base, x); } else { VarsBelow(r, base, x); }
    case Comma(l, r) => if x in Vars(l) { VarsBelow(l, base, x); } else { VarsBelow(r, base, x); }
    case And(l, r) => if x in Vars(l) { VarsBelow(l, base, x); } else { VarsBelow(r, base, x); }
    case Or(l, r) => if x in Vars(l) { VarsBelow(l, base, x); } else { VarsBelow(r, base, x); }
    case Cond(c, l, r) =>
      if x in Vars(c) { VarsBelow(c, base, x); } else if x in Vars(l) { VarsBelow(l, base, x); }
          else { VarsBelow(r, base, x); }
  }

  lemma {:induction false} RightFirstSim(m: Meaning, final: seq<Instr>, pos: nat, e: Exp, lab: nat, tmp: nat, s: Env,
      t: Env, base: nat)
    returns (n: nat, t': Env)
    requires Unique(final) && Defined(e, base) && RESULT < base <= tmp && Agree(s, t, base)
    requires e.Binary? && !e.leftFirst && At(final, pos, LowerExp(e, lab, tmp).code)
    ensures var o, (v, s') := LowerExp(e, lab, tmp), Eval(m, e, s);
      Goes(m, final, pos, t, n, pos + |o.code|, t') && Agree(s', t', base) && Kept(t, t', base, tmp)
          && Fetch(o.arg, t') == v
    decreases e, 1
  {
    hide Run, Goes, Unique, Find, Kept, At, Agree, Vars, Writes;
    var o2 := LowerExp(e.r, lab, tmp);
    var o1 := LowerExp(e.l, o2.lab, o2.tmp);
    var last := Op2(e.op, o1.tmp, o1.arg, o2.arg);
    AtSplit(final, pos, o2.code + o1.code, [last]);
    AtSplit(final, pos, o2.code, o1.code);
    var pc1, pc2 := pos + |o2.code|, pos + |o2.code + o1.code|;
    AtOne(final, pc2, last);
    var n1, t1 := ExpSim(m, final, pos, e.r, lab, tmp, s, t, base);
    var s1 := Eval(m, e.r, s).1;
    var n2, t2 := ExpSim(m, final, pc1, e.l, o2.lab, o2.tmp, s1, t1, base);
    Then(m, final, pos, t, n1, pc1, t1, n2, pc2, t2);
    Further(m, final, pos, t, n1 + n2, pc2, t2);
    OperandKept(m, e.r, e.l, o2.arg, s1, t1, t2, base, tmp, o2.tmp);
    KeptTrans(t, t1, t2, base, tmp, o2.tmp);
    CommutesAgree(m, e.l, e.r, s, t2, base);
    var v := m.bin(e.op, Fetch(o1.arg, t2), Fetch(o2.arg, t2));
    SetTemp(Eval(m, e, s).1, t, t2, base, tmp, o1.tmp, v);
    n, t' := n1 + n2 + 1, t2[o1.tmp := v];
  }

  lemma CommutesAgree(m: Meaning, l: Exp, r: Exp, s: Env, t: Env, base: nat)
    requires Writes(l) !! Vars(r) && Writes(r) !! Vars(l)
    requires Agree(Eval(m, l, Eval(m, r, s).1).1, t, base)
    ensures Agree(Eval(m, r, Eval(m, l, s).1).1, t, base)
    ensures Eval(m, l, Eval(m, r, s).1).0 == Eval(m, l, s).0
    ensures Eval(m, r, Eval(m, l, s).1).0 == Eval(m, r, s).0
  {
    Commutes(m, l, r, s, 0);
    forall x | 0 <= x < base ensures Get(Eval(m, r, Eval(m, l, s).1).1, x) == Get(t, x) {
      Commutes(m, l, r, s, x);
    }
  }

  /** A jump to a label that stands at pos goes on behind it. */
  lemma PassLabel(m: Meaning, final: seq<Instr>, pos: nat, l: nat, t: Env)
    requires Unique(final) && At(final, pos, [Lab(l)])
    ensures Goes(m, final, Find(final, l), t, 1, pos + 1, t)
  {
    AtOne(final, pos, Lab(l));
    FindAt(final, pos, l);
    RunOne(m, final, pos, t);
  }

  lemma TailSim(m: Meaning, final: seq<Instr>, pos: nat, one: nat, zero: nat, end: nat, a: nat, b: bool, t: Env)
    returns (n: nat)
    requires Unique(final) && At(final, pos, Tail(one, zero, end, a))
    ensures Goes(m, final, Find(final, if b then one else zero), t, n, pos + 6, t[a := Truth(b)])
  {
    AtIndex(final, pos, Tail(one, zero, end, a), 0);
    AtIndex(final, pos, Tail(one, zero, end, a), 1);
    AtIndex(final, pos, Tail(one, zero, end, a), 2);
    AtIndex(final, pos, Tail(one, zero, end, a), 3);
    AtIndex(final, pos, Tail(one, zero, end, a), 4);
    AtIndex(final, pos, Tail(one, zero, end, a), 5);
    FindAt(final, pos, one);
    FindAt(final, pos + 3, zero);
    FindAt(final, pos + 5, end);
    hide Run, Goes, Unique, Find, At;
    if b {
      Stay(m, final, pos, t);
      Further(m, final, pos, t, 0, pos, t);
      Further(m, final, pos, t, 1, pos + 1, t);
      var t' := t[a := 1];
      Further(m, final, pos, t, 2, pos + 2, t');
      Further(m, final, pos, t, 3, pos + 5, t');
      n := 4;
    } else {
      Stay(m, final, pos + 3, t);
      Further(m, final, pos + 3, t, 0, pos + 3, t);
      Further(m, final, pos + 3, t, 1, pos + 4, t);
      var t' := t[a := 0];
      Further(m, final, pos + 3, t, 2, pos + 5, t');
      n := 3;
    }
  }

  /** Both operands of && or ||, in branch form: `first` is where the left one goes to let the right one be
      evaluated. */
  lemma {:induction false} ShortSim(m: Meaning, final: seq<Instr>, pos: nat, e: Exp, mid: nat, yes: nat, no: nat,
      lab: nat, tmp: nat, s: Env, t: Env, base: nat)
    returns (n: nat, t': Env)
    requires Unique(final) && Defined(e, base) && RESULT < base <= tmp && Agree(s, t, base) && (e.And? || e.Or?)
    requires At(final, pos, ShortCode(e, mid, yes, no, lab, tmp).code)
    ensures var (v, s') := Eval(m, e, s);
      Goes(m, final, pos, t, n, Find(final, if v != 0 then yes else no), t') && Agree(s', t', base)
          && Kept(t, t', base, tmp)
    decreases e, 1
  {
    hide Run, Goes, Unique, Find, Kept, At, Agree;
    var y1, n1 := if e.And? then mid else yes, if e.And? then no else mid;
    var o1 := LowerCond(e.l, y1, n1, lab, tmp);
    var o2 := LowerCond(e.r, yes, no, o1.lab, o1.tmp);
    AtSplit(final, pos, o1.code + [Lab(mid)], o2.code);
    AtSplit(final, pos, o1.code, [Lab(mid)]);
    var k1, t1 := CondSim(m, final, pos, e.l, y1, n1, lab, tmp, s, t, base);
    var (v1, s1) := Eval(m, e.l, s);
    var pc1 := pos + |o1.code|;
    if (v1 != 0) == e.And? {
      PassLabel(m, final, pc1, mid, t1);
      Then(m, final, pos, t, k1, Find(final, mid), t1, 1, pc1 + 1, t1);
      var k2, t2 := CondSim(m, final, pc1 + 1, e.r, yes, no, o1.lab, o1.tmp, s1, t1, base);
      Then(m, final, pos, t, k1 + 1, pc1 + 1, t1, k2, Find(final, if Eval(m, e.r, s1).0 != 0 then yes else no), t2);
      KeptTrans(t, t1, t2, base, tmp, o1.tmp);
      n, t' := k1 + 1 + k2, t2;
    } else {
      n, t' := k1, t1;
    }
  }

  function ShortCode(e: Exp, mid: nat, yes: nat, no: nat, lab: nat, tmp: nat): Out
    requires e.And? || e.Or?
  {
    var o1 := LowerCond(e.l, if e.And? then mid else yes, if e.And? then no else mid, lab, tmp);
    var o2 := LowerCond(e.r, yes, no, o1.lab, o1.tmp);
    Out(o1.code + [Lab(mid)] + o2.code, Imm(0), o2.lab, o2.tmp)
  }

  lemma {:induction false} CondSim(m: Meaning, final: seq<Instr>, pos: nat, e: Exp, yes: nat, no: nat, lab: nat,
      tmp: nat, s: Env, t: Env, base: nat)
    returns (n: nat, t': Env)
    requires Unique(final) && Defined(e, base) && RESULT < base <= tmp && Agree(s, t, base)
    requires At(final, pos, LowerCond(e, yes, no, lab, tmp).code)
    ensures var (v, s') := Eval(m, e, s);
      Goes(m, final, pos, t, n, Find(final, if v != 0 then yes else no), t') && Agree(s', t', base)
          && Kept(t, t', base, tmp)
    decreases e, 4
  {
    hide Run, Goes, Unique, Find, Kept, At, Agree;
    if e.And? || e.Or? {
      assert LowerCond(e, yes, no, lab, tmp) == ShortCode(e, lab, yes, no, lab + 1, tmp);
      n, t' := ShortSim(m, final, pos, e, lab, yes, no, lab + 1, tmp, s, t, base);
    } else {
      var o := LowerExp(e, lab, tmp);
      var i := CBr(yes, o.arg, no);
      AtSplit(final, pos, o.code, [i]);
      n, t' := ExpSim(m, final, pos, e, lab, tmp, s, t, base);
      AtOne(final, pos + |o.code|, i);
      Further(m, final, pos, t, n, pos + |o.code|, t');
      n := n + 1;
    }
  }

  lemma {:induction false} LogicSim(m: Meaning, final: seq<Instr>, pos: nat, e: Exp, lab: nat, tmp: nat, s: Env,
      t: Env, base: nat)
    returns (n: nat, t': Env)
    requires Unique(final) && Defined(e, base) && RESULT < base <= tmp && Agree(s, t, base)
    requires (e.And? || e.Or?) && At(final, pos, LowerExp(e, lab, tmp).code)
    ensures var o, (v, s') := LowerExp(e, lab, tmp), Eval(m, e, s);
      Goes(m, final, pos, t, n, pos + |o.code|, t') && Agree(s', t', base) && Kept(t, t', base, tmp)
          && Fetch(o.arg, t') == v
    decreases e, 2
  {
    hide Run, Goes, Unique, Find, Kept, At, Agree;
    var mid, one := if e.And? then lab else lab + 1, if e.And? then lab + 1 else lab;
    var o := ShortCode(e, mid, one, lab + 2, lab + 4, tmp + 1);
    var tail := Tail(one, lab + 2, lab + 3, tmp);
    assert LowerExp(e, lab, tmp).code == o.code + tail;
    AtSplit(final, pos, o.code, tail);
    var n1, t1 := ShortSim(m, final, pos, e, mid, one, lab + 2, lab + 4, tmp + 1, s, t, base);
    var (v, s') := Eval(m, e, s);
    var n2 := TailSim(m, final, pos + |o.code|, one, lab + 2, lab + 3, tmp, v != 0, t1);
    Then(m, final, pos, t, n1, Find(final, if v != 0 then one else lab + 2), t1, n2, pos + |o.code| + 6,
        t1[tmp := Truth(v != 0)]);
    KeptLess(t, t1, base, tmp);
    SetTemp(s', t, t1, base, tmp, tmp, Truth(v != 0));
    n, t' := n1 + n2, t1[tmp := Truth(v != 0)];
  }

  lemma KeptLess(t: Env, t1: Env, base: nat, tmp: nat)
    requires Kept(t, t1, base, tmp + 1)
    ensures Kept(t, t1, base, tmp)
  {
  }

  /** Where the parts of a diamond stand. */
  lemma DiamondLayout(final: seq<Instr>, pos: nat, c: seq<Instr>, c1: seq<Instr>, c2: seq<Instr>, lab: nat)
    requires At(final, pos, Diamond(c, c1, c2, lab))
    ensures |Diamond(c, c1, c2, lab)| == |c| + |c1| + |c2| + 4
    ensures var p1 := pos + |c| + 1; var p2 := p1 + |c1| + 2; var end := p2 + |c2|;
      && At(final, pos, c) && At(final, p1 - 1, [Lab(lab)]) && At(final, p1, c1) && At(final, p2 - 2, [Jmp(lab + 2)])
      && At(final, p2 - 1, [Lab(lab + 1)]) && At(final, p2, c2) && At(final, end, [Lab(lab + 2)])
  {
    hide At;
    var left, right := c1 + [Jmp(lab + 2)], c2 + [Lab(lab + 2)];
    AtSplit(final, pos, c + [Lab(lab)] + left, [Lab(lab + 1)] + right);
    AtSplit(final, pos, c + [Lab(lab)], left);
    AtSplit(final, pos, c, [Lab(lab)]);
    AtSplit(final, pos + |c| + 1, c1, [Jmp(lab + 2)]);
    var p2 := pos + |c| + 1 + |left|;
    AtSplit(final, p2, [Lab(lab + 1)], right);
    AtSplit(final, p2 + 1, c2, [Lab(lab + 2)]);
  }

  lemma CondOpens(m: Meaning, e: Exp, lab: nat, tmp: nat, s: Env, base: nat)
    requires e.Cond?
    ensures var o := LowerCond(e.c, lab, lab + 1, lab + 3, tmp);
      var o1 := LowerExp(e.t, o.lab, o.tmp + 1);
      var o2 := LowerExp(e.f, o1.lab, o1.tmp);
      && LowerExp(e, lab, tmp).code == Diamond(o.code, o1.code + [Asn(o.tmp, o1.arg)],
          o2.code + [Asn(o.tmp, o2.arg)], lab)
      && LowerExp(e, lab, tmp).arg == Name(o.tmp)
    ensures Defined(e, base) <==> Defined(e.c, base) && Defined(e.t, base) && Defined(e.f, base)
    ensures var (v, s1) := Eval(m, e.c, s);
      Eval(m, e, s) == if v != 0 then Eval(m, e.t, s1) else Eval(m, e.f, s1)
  {
  }

  lemma {:induction false} CondExpSim(m: Meaning, final: seq<Instr>, pos: nat, e: Exp, lab: nat, tmp: nat, s: Env,
      t: Env, base: nat)
    returns (n: nat, t': Env)
    requires Unique(final) && Defined(e, base) && RESULT < base <= tmp && Agree(s, t, base)
    requires e.Cond? && At(final, pos, LowerExp(e, lab, tmp).code)
    ensures var o, (v, s') := LowerExp(e, lab, tmp), Eval(m, e, s);
      Goes(m, final, pos, t, n, pos + |o.code|, t') && Agree(s', t', base) && Kept(t, t', base, tmp)
          && Fetch(o.arg, t') == v
    decreases e, 2
  {
    hide Run, Goes, Unique, Find, Kept, At, Agree, Diamond, LowerExp, LowerCond, Eval, Defined;
    CondOpens(m, e, lab, tmp, s, base);
    var o := LowerCond(e.c, lab, lab + 1, lab + 3, tmp);
    var o1 := LowerExp(e.t, o.lab, o.tmp + 1);
    var o2 := LowerExp(e.f, o1.lab, o1.tmp);
    var c1, c2 := o1.code + [Asn(o.tmp, o1.arg)], o2.code + [Asn(o.tmp, o2.arg)];
    var c := o.code;
    DiamondLayout(final, pos, c, c1, c2, lab);
    var k, tc := CondSim(m, final, pos, e.c, lab, lab + 1, lab + 3, tmp, s, t, base);
    if Eval(m, e.c, s).0 != 0 {
      n, t' := TrueArm(m, final, pos, e, o, lab, tmp, s, t, base, |c1|, |c2|, k, tc);
    } else {
      n, t' := FalseArm(m, final, pos, e, o, o1.lab, o1.tmp, lab, tmp, s, t, base, |c1|, k, tc);
    }
  }

  lemma {:induction false} TrueArm(m: Meaning, final: seq<Instr>, pos: nat, e: Exp, o: Out, lab: nat, tmp: nat,
      s: Env, t: Env, base: nat,
                                   len1: nat, len2: nat, k: nat, tc: Env) returns (n: nat, t': Env)
    requires e.Cond? && Defined(e, base) && Unique(final) && RESULT < base <= tmp <= o.tmp && Agree(s, t, base)
             && Eval(m, e.c, s).0 != 0
    requires Goes(m, final, pos, t, k, Find(final, lab), tc) && Agree(Eval(m, e.c, s).1, tc, base)
             && Kept(t, tc, base, tmp)
    requires var o1, p1 := LowerExp(e.t, o.lab, o.tmp + 1), pos + |o.code| + 1;
      && len1 == |o1.code| + 1 && At(final, p1 - 1, [Lab(lab)]) && At(final, p1, o1.code + [Asn(o.tmp, o1.arg)])
      && At(final, p1 + len1, [Jmp(lab + 2)]) && At(final, p1 + len1 + 2 + len2, [Lab(lab + 2)])
    ensures var (v, s') := Eval(m, e, s);
      Goes(m, final, pos, t, n, pos + |o.code| + 1 + len1 + 2 + len2 + 1, t') && Agree(s', t', base)
          && Kept(t, t', base, tmp) && Get(t', o.tmp) == v
    decreases e, 1
  {
    hide Run, Goes, Unique, Find, Kept, At, Agree, LowerExp;
    var p1 := pos + |o.code| + 1;
    var pj, end := p1 + len1, p1 + len1 + 2 + len2;
    PassLabel(m, final, p1 - 1, lab, tc);
    Then(m, final, pos, t, k, Find(final, lab), tc, 1, p1, tc);
    var k1, t1 := ArmSim(m, final, p1, e.t, o.lab, o.tmp, o.tmp + 1, tmp, Eval(m, e.c, s).1, tc, base);
    Then(m, final, pos, t, k + 1, p1, tc, k1, pj, t1);
    AtOne(final, pj, Jmp(lab + 2));
    Further(m, final, pos, t, k + 1 + k1, pj, t1);
    PassLabel(m, final, end, lab + 2, t1);
    Then(m, final, pos, t, k + 1 + k1 + 1, Find(final, lab + 2), t1, 1, end + 1, t1);
    KeptTrans(t, tc, t1, base, tmp, tmp);
    n, t' := k + 1 + k1 + 1 + 1, t1;
  }

  lemma {:induction false} FalseArm(m: Meaning, final: seq<Instr>, pos: nat, e: Exp, o: Out, lab2: nat, tmp2: nat,
      lab: nat, tmp: nat, s: Env, t: Env, base: nat,
                                    len1: nat, k: nat, tc: Env) returns (n: nat, t': Env)
    requires e.Cond? && Defined(e, base) && Unique(final) && RESULT < base <= tmp <= o.tmp < tmp2
             && Agree(s, t, base) && Eval(m, e.c, s).0 == 0
    requires Goes(m, final, pos, t, k, Find(final, lab + 1), tc) && Agree(Eval(m, e.c, s).1, tc, base)
             && Kept(t, tc, base, tmp)
    requires var o2, p2 := LowerExp(e.f, lab2, tmp2), pos + |o.code| + 1 + len1 + 2;
      && At(final, p2 - 1, [Lab(lab + 1)]) && At(final, p2, o2.code + [Asn(o.tmp, o2.arg)])
      && At(final, p2 + |o2.code| + 1, [Lab(lab + 2)])
    ensures var (v, s') := Eval(m, e, s);
      Goes(m, final, pos, t, n, pos + |o.code| + 1 + len1 + 2 + |LowerExp(e.f, lab2, tmp2).code| + 2, t')
      && Agree(s', t', base) && Kept(t, t', base, tmp) && Get(t', o.tmp) == v
    decreases e, 1
  {
    hide Run, Goes, Unique, Find, Kept, At, Agree, LowerExp;
    var p2 := pos + |o.code| + 1 + len1 + 2;
    var end := p2 + |LowerExp(e.f, lab2, tmp2).code| + 1;
    PassLabel(m, final, p2 - 1, lab + 1, tc);
    Then(m, final, pos, t, k, Find(final, lab + 1), tc, 1, p2, tc);
    var k1, t1 := ArmSim(m, final, p2, e.f, lab2, o.tmp, tmp2, tmp, Eval(m, e.c, s).1, tc, base);
    Then(m, final, pos, t, k + 1, p2, tc, k1, end, t1);
    AtOne(final, end, Lab(lab + 2));
    Further(m, final, pos, t, k + 1 + k1, end, t1);
    KeptTrans(t, tc, t1, base, tmp, tmp);
    n, t' := k + 1 + k1 + 1, t1;
  }

  /** One arm of a conditional expression: its value goes to the common temporary a. */
  lemma {:induction false} ArmSim(m: Meaning, final: seq<Instr>, pos: nat, e: Exp, lab: nat, a: nat, tmp: nat,
      tmp0: nat, s: Env, t: Env, base: nat)
    returns (n: nat, t': Env)
    requires Unique(final) && Defined(e, base) && RESULT < base <= tmp0 <= a < tmp && Agree(s, t, base)
    requires At(final, pos, LowerExp(e, lab, tmp).code + [Asn(a, LowerExp(e, lab, tmp).arg)])
    ensures var o, (v, s') := LowerExp(e, lab, tmp), Eval(m, e, s);
      Goes(m, final, pos, t, n, pos + |o.code| + 1, t') && Agree(s', t', base) && Kept(t, t', base, tmp0)
          && Get(t', a) == v
    decreases e, 4
  {
    hide Run, Goes, Unique, Find, Kept, At, Agree;
    var o := LowerExp(e, lab, tmp);
    AtSplit(final, pos, o.code, [Asn(a, o.arg)]);
    AtOne(final, pos + |o.code|, Asn(a, o.arg));
    var k, t1 := ExpSim(m, final, pos, e, lab, tmp, s, t, base);
    Further(m, final, pos, t, k, pos + |o.code|, t1);
    KeptSelf(t, base, tmp0);
    KeptTrans(t, t, t1, base, tmp0, tmp);
    SetTemp(Eval(m, e, s).1, t, t1, base, tmp0, a, Fetch(o.arg, t1));
    n, t' := k + 1, t1[a := Fetch(o.arg, t1)];
  }

  // ------------------------------------------------------------------
  // Statements
  // ------------------------------------------------------------------

  /** How many loops are nested in a statement, at most. */
  function Slack(st: Stmt): nat {
    match st
    case Empty | ExpStmt(_) | Break | Continue | Return(_) => 0
    case Seq(a, b) => Slack(a) + Slack(b)
    case If(_, a) => Slack(a)
    case IfElse(_, a, b) => Slack(a) + Slack(b)
    case While(_, body) => 1 + Slack(body)
    case Do(body, _) => 1 + Slack(body)
    case For(_, _, _, body) => 1 + Slack(body)
  }

  function Target(final: seq<Instr>, g: Targets, next: nat, o: Outcome): nat {
    match o
    case Normal => next
    case Broke => Find(final, if g.brk.Some? then g.brk.value else 0)
    case Continued => Find(final, if g.cont.Some? then g.cont.value else 0)
    case Returned => Find(final, g.exit)
  }

  /**
   * Where the quads are after n steps. When the bound on the source's loops runs out, the quads
   * have made about as many steps and are still inside the code.
   */
  predicate Reached(final: seq<Instr>, g: Targets, next: nat, r: Option<(Outcome, Env)>, n: nat, bound: int, pc: nat,
      t': Env, base: nat) {
    match r
    case None => n >= bound && pc < |final|
    case Some((o, s')) => pc == Target(final, g, next, o) && Agree(s', t', base)
  }

  predicate Follows(final: seq<Instr>, pos: nat, prev: Option<nat>) {
    prev.Some? ==> pos > 0 && At(final, pos - 1, [Lab(prev.value)])
  }

  lemma FollowsNext(final: seq<Instr>, pos: nat, prev: Option<nat>, code: seq<Instr>)
    requires Follows(final, pos, prev) && At(final, pos, code)
    ensures Follows(final, pos + |code|, LastLabel(prev, code))
  {
    if code != [] && code[|code| - 1].Lab? {
      AtIndex(final, pos, code, |code| - 1);
    }
  }

  lemma {:induction false} OptSim(m: Meaning, final: seq<Instr>, pos: nat, e: Option<Exp>, lab: nat, tmp: nat,
      s: Env, t: Env, base: nat)
    returns (n: nat, t': Env)
    requires Unique(final) && DefinedOpt(e, base) && RESULT < base <= tmp && Agree(s, t, base)
    requires At(final, pos, LowerOpt(e, lab, tmp).code)
    ensures Goes(m, final, pos, t, n, pos + |LowerOpt(e, lab, tmp).code|, t') && Agree(EvalOpt(m, e, s), t', base)
  {
    hide Run, Goes, Unique, Find, Kept, At, Agree;
    if e.Some? {
      n, t' := ExpSim(m, final, pos, e.value, lab, tmp, s, t, base);
    } else {
      Stay(m, final, pos, t);
      n, t' := 0, t;
    }
  }

  lemma {:induction false} StmtSim(m: Meaning, final: seq<Instr>, pos: nat, st: Stmt, g: Targets, prev: Option<nat>,
      lab: nat, tmp: nat,
                                   s: Env, t: Env, fuel: nat, base: nat) returns (n: nat, pc: nat, t': Env)
    requires Unique(final) && RESULT < base <= tmp && Agree(s, t, base)
    requires Legal(st, base, g.brk.Some? && g.cont.Some?)
    requires At(final, pos, LowerStmt(st, g, prev, lab, tmp).code) && Follows(final, pos, prev)
    ensures Goes(m, final, pos, t, n, pc, t')
    ensures Reached(final, g, pos + |LowerStmt(st, g, prev, lab, tmp).code|, Exec(m, st, s, fuel), n,
            fuel - Slack(st), pc, t', base)
    decreases fuel, st, 3
  {
    hide Run, Goes, Unique, Find, Kept, At, Agree;
    Stay(m, final, pos, t);
    match st
    case Empty =>
      n, pc, t' := 0, pos, t;
    case ExpStmt(e) =>
      n, t' := ExpSim(m, final, pos, e, lab, tmp, s, t, base);
      pc := pos + |LowerExp(e, lab, tmp).code|;
    case Seq(a, b) =>
      n, pc, t' := SeqSim(m, final, pos, st, g, prev, lab, tmp, s, t, fuel, base);
    case If(_, _) =>
      n, pc, t' := IfSim(m, final, pos, st, g, prev, lab, tmp, s, t, fuel, base);
    case IfElse(_, _, _) =>
      n, pc, t' := IfElseSim(m, final, pos, st, g, prev, lab, tmp, s, t, fuel, base);
    case While(_, _) =>
      n, pc, t' := WhileSim(m, final, pos, st, g, prev, lab, tmp, s, t, fuel, base);
    case Do(_, _) =>
      n, pc, t' := DoSim(m, final, pos, st, g, prev, lab, tmp, s, t, fuel, base);
    case For(_, _, _, _) =>
      n, pc, t' := ForSim(m, final, pos, st, g, prev, lab, tmp, s, t, fuel, base);
    case Break =>
      AtOne(final, pos, Jmp(g.brk.value));
      Further(m, final, pos, t, 0, pos, t);
      n, pc, t' := 1, Find(final, g.brk.value), t;
    case Continue =>
      AtOne(final, pos, Jmp(g.cont.value));
      Further(m, final, pos, t, 0, pos, t);
      n, pc, t' := 1, Find(final, g.cont.value), t;
    case Return(_) =>
      n, pc, t' := ReturnSim(m, final, pos, st, g, lab, tmp, s, t, base);
  }

  lemma ReturnAt(final: seq<Instr>, pos: nat, st: Stmt, g: Targets, lab: nat, tmp: nat)
    requires st.Return? && st.result.Some? && At(final, pos, LowerStmt(st, g, None, lab, tmp).code)
    ensures var o := LowerExp(st.result.value, lab, tmp);
      var p1 := pos + |o.code|;
      At(final, pos, o.code) && At(final, p1, [Ret(o.arg)]) && At(final, p1 + 1, [Jmp(g.exit)])
  {
    hide At;
    var o := LowerExp(st.result.value, lab, tmp);
    assert o.code + [Ret(o.arg), Jmp(g.exit)] == o.code + [Ret(o.arg)] + [Jmp(g.exit)];
    AtSplit(final, pos, o.code + [Ret(o.arg)], [Jmp(g.exit)]);
    AtSplit(final, pos, o.code, [Ret(o.arg)]);
  }

  lemma {:induction false} ReturnSim(m: Meaning, final: seq<Instr>, pos: nat, st: Stmt, g: Targets, lab: nat, tmp: nat,
                                     s: Env, t: Env, base: nat) returns (n: nat, pc: nat, t': Env)
    requires Unique(final) && RESULT < base <= tmp && Agree(s, t, base)
    requires st.Return? && DefinedOpt(st.result, base)
    requires At(final, pos, LowerStmt(st, g, None, lab, tmp).code)
    ensures Goes(m, final, pos, t, n, pc, t') && pc == Find(final, g.exit)
    ensures Agree(Exec(m, st, s, 0).value.1, t', base)
  {
    hide Run, Goes, Unique, Find, Kept, At, Agree, LowerExp, Eval;
    if st.result.Some? {
      var e := st.result.value;
      var o := LowerExp(e, lab, tmp);
      ReturnAt(final, pos, st, g, lab, tmp);
      var p1 := pos + |o.code|;
      AtOne(final, p1, Ret(o.arg));
      AtOne(final, p1 + 1, Jmp(g.exit));
      var k, t1 := ExpSim(m, final, pos, e, lab, tmp, s, t, base);
      Further(m, final, pos, t, k, p1, t1);
      t' := t1[RESULT := Fetch(o.arg, t1)];
      Further(m, final, pos, t, k + 1, p1 + 1, t');
      SetVar(Eval(m, e, s).1, t, t1, base, tmp, RESULT, Fetch(o.arg, t1));
      n, pc := k + 2, Find(final, g.exit);
    } else {
      Stay(m, final, pos, t);
      AtOne(final, pos, Jmp(g.exit));
      Further(m, final, pos, t, 0, pos, t);
      n, pc, t' := 1, Find(final, g.exit), t;
    }
  }

  lemma SeqOpens(m: Meaning, st: Stmt, g: Targets, prev: Option<nat>, lab: nat, tmp: nat, s: Env, fuel: nat,
      base: nat, loop: bool)
    requires st.Seq?
    ensures var o1 := LowerStmt(st.first, g, prev, lab, tmp);
      LowerStmt(st, g, prev, lab, tmp).code == o1.code + LowerStmt(st.second, g, LastLabel(prev, o1.code), o1.lab,
          o1.tmp).code
    ensures var r := Exec(m, st.first, s, fuel);
      Exec(m, st, s, fuel) == if r.Some? && r.value.0.Normal? then Exec(m, st.second, r.value.1, fuel) else r
    ensures Slack(st) == Slack(st.first) + Slack(st.second)
    ensures Legal(st, base, loop) <==> Legal(st.first, base, loop) && Legal(st.second, base, loop)
  {
  }

  lemma {:induction false} SeqSim(m: Meaning, final: seq<Instr>, pos: nat, st: Stmt, g: Targets, prev: Option<nat>,
      lab: nat, tmp: nat,
                                  s: Env, t: Env, fuel: nat, base: nat) returns (n: nat, pc: nat, t': Env)
    requires Unique(final) && RESULT < base <= tmp && Agree(s, t, base)
    requires st.Seq? && Legal(st, base, g.brk.Some? && g.cont.Some?)
    requires At(final, pos, LowerStmt(st, g, prev, lab, tmp).code) && Follows(final, pos, prev)
    ensures Goes(m, final, pos, t, n, pc, t')
    ensures Reached(final, g, pos + |LowerStmt(st, g, prev, lab, tmp).code|, Exec(m, st, s, fuel), n,
            fuel - Slack(st), pc, t', base)
    decreases fuel, st, 2
  {
    hide Run, Goes, Unique, Find, Kept, At, Agree, Diamond, Follows, LowerStmt, LowerLoop, LoopParts, LowerExp,
      LowerCond, LowerOpt, Exec, Iterate, Eval, EvalOpt, Test, Slack, Legal, Defined, DefinedOpt;
    SeqOpens(m, st, g, prev, lab, tmp, s, fuel, base, g.brk.Some? && g.cont.Some?);
    var o1 := LowerStmt(st.first, g, prev, lab, tmp);
    var prev1 := LastLabel(prev, o1.code);
    var o2 := LowerStmt(st.second, g, prev1, o1.lab, o1.tmp);
    var r1 := Exec(m, st.first, s, fuel);
    AtSplit(final, pos, o1.code, o2.code);
    FollowsNext(final, pos, prev, o1.code);
    n, pc, t' := StmtSim(m, final, pos, st.first, g, prev, lab, tmp, s, t, fuel, base);
    if r1.Some? && r1.value.0.Normal? {
      var p1 := pos + |o1.code|;
      var n2, pc2, t2 := StmtSim(m, final, p1, st.second, g, prev1, o1.lab, o1.tmp, r1.value.1, t', fuel, base);
      Then(m, final, pos, t, n, p1, t', n2, pc2, t2);
      n, pc, t' := n + n2, pc2, t2;
    }
  }

  lemma IfOpens(m: Meaning, st: Stmt, g: Targets, prev: Option<nat>, lab: nat, tmp: nat, s: Env, fuel: nat,
      base: nat, loop: bool)
    requires st.If?
    ensures var o := LowerCond(st.c, lab, lab + 1, lab + 2, tmp);
      LowerStmt(st, g, prev, lab, tmp).code == o.code + [Lab(lab)] + LowerStmt(st.t, g, Some(lab), o.lab, o.tmp).code
          + [Lab(lab + 1)]
    ensures var (v, s1) := Eval(m, st.c, s);
      Exec(m, st, s, fuel) == if v != 0 then Exec(m, st.t, s1, fuel) else Some((Normal, s1))
    ensures Slack(st) == Slack(st.t)
    ensures Legal(st, base, loop) <==> Defined(st.c, base) && Legal(st.t, base, loop)
  {
  }

  lemma {:induction false} IfSim(m: Meaning, final: seq<Instr>, pos: nat, st: Stmt, g: Targets, prev: Option<nat>,
      lab: nat, tmp: nat,
                                 s: Env, t: Env, fuel: nat, base: nat) returns (n: nat, pc: nat, t': Env)
    requires Unique(final) && RESULT < base <= tmp && Agree(s, t, base)
    requires st.If? && Legal(st, base, g.brk.Some? && g.cont.Some?)
    requires At(final, pos, LowerStmt(st, g, prev, lab, tmp).code)
    ensures Goes(m, final, pos, t, n, pc, t')
    ensures Reached(final, g, pos + |LowerStmt(st, g, prev, lab, tmp).code|, Exec(m, st, s, fuel), n,
            fuel - Slack(st), pc, t', base)
    decreases fuel, st, 2
  {
    hide Run, Goes, Unique, Find, Kept, At, Agree, Diamond, LowerStmt, LowerLoop, LoopParts, LowerExp, LowerCond,
      LowerOpt, Exec, Iterate, Eval, EvalOpt, Test, Slack, Legal, Defined, DefinedOpt;
    IfOpens(m, st, g, prev, lab, tmp, s, fuel, base, g.brk.Some? && g.cont.Some?);
    var o := LowerCond(st.c, lab, lab + 1, lab + 2, tmp);
    var o1 := LowerStmt(st.t, g, Some(lab), o.lab, o.tmp);
    var (v, s1) := Eval(m, st.c, s);
    var r := Exec(m, st.t, s1, fuel);
    AtSplit(final, pos, o.code + [Lab(lab)] + o1.code, [Lab(lab + 1)]);
    AtSplit(final, pos, o.code + [Lab(lab)], o1.code);
    AtSplit(final, pos, o.code, [Lab(lab)]);
    var p1 := pos + |o.code| + 1;
    var end := p1 + |o1.code|;
    var k, tc := CondSim(m, final, pos, st.c, lab, lab + 1, lab + 2, tmp, s, t, base);
    if v != 0 {
      PassLabel(m, final, p1 - 1, lab, tc);
      Then(m, final, pos, t, k, Find(final, lab), tc, 1, p1, tc);
      var n1, pc1, t1 := StmtSim(m, final, p1, st.t, g, Some(lab), o.lab, o.tmp, s1, tc, fuel, base);
      Then(m, final, pos, t, k + 1, p1, tc, n1, pc1, t1);
      n, pc, t' := k + 1 + n1, pc1, t1;
      if r.Some? && r.value.0.Normal? {
        AtOne(final, end, Lab(lab + 1));
        Further(m, final, pos, t, n, end, t1);
        n, pc := n + 1, end + 1;
      }
    } else {
      PassLabel(m, final, end, lab + 1, tc);
      Then(m, final, pos, t, k, Find(final, lab + 1), tc, 1, end + 1, tc);
      n, pc, t' := k + 1, end + 1, tc;
    }
  }

  lemma IfElseOpens(m: Meaning, st: Stmt, g: Targets, prev: Option<nat>, lab: nat, tmp: nat, s: Env, fuel: nat,
      base: nat, loop: bool)
    requires st.IfElse?
    ensures var o := LowerCond(st.c, lab, lab + 1, lab + 3, tmp);
      var o1 := LowerStmt(st.t, g, Some(lab), o.lab, o.tmp);
      LowerStmt(st, g, prev, lab, tmp).code == Diamond(o.code, o1.code,
          LowerStmt(st.f, g, Some(lab + 1), o1.lab, o1.tmp).code, lab)
    ensures var (v, s1) := Eval(m, st.c, s);
      Exec(m, st, s, fuel) == Exec(m, if v != 0 then st.t else st.f, s1, fuel)
    ensures Slack(st) == Slack(st.t) + Slack(st.f)
    ensures Legal(st, base, loop) <==> Defined(st.c, base) && Legal(st.t, base, loop) && Legal(st.f, base, loop)
  {
  }

  lemma {:induction false} IfElseSim(m: Meaning, final: seq<Instr>, pos: nat, st: Stmt, g: Targets,
      prev: Option<nat>, lab: nat, tmp: nat,
                                     s: Env, t: Env, fuel: nat, base: nat) returns (n: nat, pc: nat, t': Env)
    requires Unique(final) && RESULT < base <= tmp && Agree(s, t, base)
    requires st.IfElse? && Legal(st, base, g.brk.Some? && g.cont.Some?)
    requires At(final, pos, LowerStmt(st, g, prev, lab, tmp).code)
    ensures Goes(m, final, pos, t, n, pc, t')
    ensures Reached(final, g, pos + |LowerStmt(st, g, prev, lab, tmp).code|, Exec(m, st, s, fuel), n,
            fuel - Slack(st), pc, t', base)
    decreases fuel, st, 2
  {
    hide Run, Goes, Unique, Find, Kept, At, Agree, Diamond, LowerStmt, LowerLoop, LoopParts, LowerExp, LowerCond,
      LowerOpt, Exec, Iterate, Eval, EvalOpt, Test, Slack, Legal, Defined, DefinedOpt;
    IfElseOpens(m, st, g, prev, lab, tmp, s, fuel, base, g.brk.Some? && g.cont.Some?);
    var o := LowerCond(st.c, lab, lab + 1, lab + 3, tmp);
    var o1 := LowerStmt(st.t, g, Some(lab), o.lab, o.tmp);
    var o2 := LowerStmt(st.f, g, Some(lab + 1), o1.lab, o1.tmp);
    var (v, s1) := Eval(m, st.c, s);
    var r := Exec(m, if v != 0 then st.t else st.f, s1, fuel);
    DiamondLayout(final, pos, o.code, o1.code, o2.code, lab);
    var p1 := pos + |o.code| + 1;
    var p2 := p1 + |o1.code| + 2;
    var end := p2 + |o2.code|;
    var k, tc := CondSim(m, final, pos, st.c, lab, lab + 1, lab + 3, tmp, s, t, base);
    if v != 0 {
      PassLabel(m, final, p1 - 1, lab, tc);
      Then(m, final, pos, t, k, Find(final, lab), tc, 1, p1, tc);
      var n1, pc1, t1 := StmtSim(m, final, p1, st.t, g, Some(lab), o.lab, o.tmp, s1, tc, fuel, base);
      Then(m, final, pos, t, k + 1, p1, tc, n1, pc1, t1);
      n, pc, t' := k + 1 + n1, pc1, t1;
      if r.Some? && r.value.0.Normal? {
        AtOne(final, p2 - 2, Jmp(lab + 2));
        Further(m, final, pos, t, n, p2 - 2, t1);
        PassLabel(m, final, end, lab + 2, t1);
        Then(m, final, pos, t, n + 1, Find(final, lab + 2), t1, 1, end + 1, t1);
        n, pc := n + 2, end + 1;
      }
    } else {
      PassLabel(m, final, p2 - 1, lab + 1, tc);
      Then(m, final, pos, t, k, Find(final, lab + 1), tc, 1, p2, tc);
      var n1, pc1, t1 := StmtSim(m, final, p2, st.f, g, Some(lab + 1), o1.lab, o1.tmp, s1, tc, fuel, base);
      Then(m, final, pos, t, k + 1, p2, tc, n1, pc1, t1);
      n, pc, t' := k + 1 + n1, pc1, t1;
      if r.Some? && r.value.0.Normal? {
        AtOne(final, end, Lab(lab + 2));
        Further(m, final, pos, t, n, end, t1);
        n, pc := n + 1, end + 1;
      }
    }
  }

  lemma WhileOpens(m: Meaning, st: Stmt, g: Targets, prev: Option<nat>, lab: nat, tmp: nat, s: Env, fuel: nat,
      base: nat, loop: bool)
    requires st.While?
    ensures var o := LowerCond(st.c, lab, lab + 2, lab + 3, tmp);
      LowerStmt(st, g, prev, lab, tmp).code
        == o.code + [Lab(lab)] + LowerLoop(st.body, None, Some(st.c), lab, lab + 1, lab + 2, g, o.lab, o.tmp).code
    ensures var (v, s1) := Eval(m, st.c, s);
      Exec(m, st, s, fuel) == if v != 0 then Iterate(m, st.body, None, Some(st.c), s1, fuel) else Some((Normal, s1))
    ensures Slack(st) == 1 + Slack(st.body)
    ensures Legal(st, base, loop) <==> Defined(st.c, base) && Legal(st.body, base, true)
    ensures DefinedOpt(Some(st.c), base) <==> Defined(st.c, base)
    ensures DefinedOpt(None, base)
  {
  }

  lemma {:induction false} WhileSim(m: Meaning, final: seq<Instr>, pos: nat, st: Stmt, g: Targets, prev: Option<nat>,
      lab: nat, tmp: nat,
                                    s: Env, t: Env, fuel: nat, base: nat) returns (n: nat, pc: nat, t': Env)
    requires Unique(final) && RESULT < base <= tmp && Agree(s, t, base)
    requires st.While? && Legal(st, base, g.brk.Some? && g.cont.Some?)
    requires At(final, pos, LowerStmt(st, g, prev, lab, tmp).code)
    ensures Goes(m, final, pos, t, n, pc, t')
    ensures Reached(final, g, pos + |LowerStmt(st, g, prev, lab, tmp).code|, Exec(m, st, s, fuel), n,
            fuel - Slack(st), pc, t', base)
    decreases fuel, st, 2
  {
    hide Run, Goes, Unique, Find, Kept, At, Agree, Diamond, LowerStmt, LowerLoop, LoopParts, LowerExp, LowerCond,
      LowerOpt, Exec, Iterate, Eval, EvalOpt, Test, Slack, Legal, Defined, DefinedOpt;
    WhileOpens(m, st, g, prev, lab, tmp, s, fuel, base, g.brk.Some? && g.cont.Some?);
    var o := LowerCond(st.c, lab, lab + 2, lab + 3, tmp);
    var o1 := LowerLoop(st.body, None, Some(st.c), lab, lab + 1, lab + 2, g, o.lab, o.tmp);
    var (v, s1) := Eval(m, st.c, s);
    AtSplit(final, pos, o.code + [Lab(lab)], o1.code);
    AtSplit(final, pos, o.code, [Lab(lab)]);
    var p1 := pos + |o.code| + 1;
    var k, tc := CondSim(m, final, pos, st.c, lab, lab + 2, lab + 3, tmp, s, t, base);
    if v != 0 {
      PassLabel(m, final, p1 - 1, lab, tc);
      Then(m, final, pos, t, k, Find(final, lab), tc, 1, p1, tc);
      var n1, pc1, t1 := LoopSim(m, final, p1, st.body, None, Some(st.c), lab, lab + 1, lab + 2, g, o.lab, o.tmp, s1,
          tc, fuel, base);
      Then(m, final, pos, t, k + 1, p1, tc, n1, pc1, t1);
      n, pc, t' := k + 1 + n1, pc1, t1;
    } else {
      LoopEnd(m, final, p1, st.body, None, Some(st.c), lab, lab + 1, lab + 2, g, o.lab, o.tmp, tc);
      Then(m, final, pos, t, k, Find(final, lab + 2), tc, 1, p1 + |o1.code|, tc);
      n, pc, t' := k + 1, p1 + |o1.code|, tc;
    }
  }

  /** The loop's last label. */
  lemma LoopEnd(m: Meaning, final: seq<Instr>, pos: nat, body: Stmt, step: Option<Exp>, test: Option<Exp>, l1: nat,
      l2: nat, l3: nat,
                g: Targets, lab: nat, tmp: nat, t: Env)
    requires Unique(final) && At(final, pos, LowerLoop(body, step, test, l1, l2, l3, g, lab, tmp).code)
    ensures Goes(m, final, Find(final, l3), t, 1, pos + |LowerLoop(body, step, test, l1, l2, l3, g, lab, tmp).code|, t)
  {
    LoopLayout(final, pos, body, step, test, l1, l2, l3, g, lab, tmp);
    PassLabel(m, final, pos + |LowerLoop(body, step, test, l1, l2, l3, g, lab, tmp).code| - 1, l3, t);
  }

  lemma LoopLayout(final: seq<Instr>, pos: nat, body: Stmt, step: Option<Exp>, test: Option<Exp>, l1: nat, l2: nat,
      l3: nat,
                   g: Targets, lab: nat, tmp: nat)
    requires At(final, pos, LowerLoop(body, step, test, l1, l2, l3, g, lab, tmp).code)
    ensures var (o1, o2, o3) := LoopParts(body, step, test, l1, l2, l3, g, lab, tmp);
      var p2 := pos + |o1.code|; var p3 := p2 + 1 + |o2.code|; var end := p3 + |o3.code|;
      && At(final, pos, o1.code) && At(final, p2, [Lab(l2)]) && At(final, p2 + 1, o2.code) && At(final, p3, o3.code)
          && At(final, end, [Lab(l3)])
      && |LowerLoop(body, step, test, l1, l2, l3, g, lab, tmp).code| == end + 1 - pos
  {
    hide At;
    var (o1, o2, o3) := LoopParts(body, step, test, l1, l2, l3, g, lab, tmp);
    AtSplit(final, pos, o1.code + [Lab(l2)] + o2.code + o3.code, [Lab(l3)]);
    AtSplit(final, pos, o1.code + [Lab(l2)] + o2.code, o3.code);
    AtSplit(final, pos, o1.code + [Lab(l2)], o2.code);
    AtSplit(final, pos, o1.code, [Lab(l2)]);
  }

  lemma DoOpens(m: Meaning, st: Stmt, g: Targets, prev: Option<nat>, lab: nat, tmp: nat, s: Env, fuel: nat,
      base: nat, loop: bool)
    requires st.Do?
    ensures LowerStmt(st, g, prev, lab, tmp).code ==
      if prev.Some? then LowerLoop(st.body, None, Some(st.c), prev.value, lab, lab + 1, g, lab + 2, tmp).code
      else [Lab(lab + 2)] + LowerLoop(st.body, None, Some(st.c), lab + 2, lab, lab + 1, g, lab + 3, tmp).code
    ensures Exec(m, st, s, fuel) == Iterate(m, st.body, None, Some(st.c), s, fuel)
    ensures Slack(st) == 1 + Slack(st.body)
    ensures Legal(st, base, loop) <==> Defined(st.c, base) && Legal(st.body, base, true)
    ensures DefinedOpt(Some(st.c), base) <==> Defined(st.c, base)
    ensures DefinedOpt(None, base)
  {
  }

  lemma {:induction false} DoSim(m: Meaning, final: seq<Instr>, pos: nat, st: Stmt, g: Targets, prev: Option<nat>,
      lab: nat, tmp: nat,
                                 s: Env, t: Env, fuel: nat, base: nat) returns (n: nat, pc: nat, t': Env)
    requires Unique(final) && RESULT < base <= tmp && Agree(s, t, base)
    requires st.Do? && Legal(st, base, g.brk.Some? && g.cont.Some?)
    requires At(final, pos, LowerStmt(st, g, prev, lab, tmp).code) && Follows(final, pos, prev)
    ensures Goes(m, final, pos, t, n, pc, t')
    ensures Reached(final, g, pos + |LowerStmt(st, g, prev, lab, tmp).code|, Exec(m, st, s, fuel), n,
            fuel - Slack(st), pc, t', base)
    decreases fuel, st, 2
  {
    hide Run, Goes, Unique, Find, Kept, At, Agree, Diamond, LowerStmt, LowerLoop, LoopParts, LowerExp, LowerCond,
      LowerOpt, Exec, Iterate, Eval, EvalOpt, Test, Slack, Legal, Defined, DefinedOpt;
    DoOpens(m, st, g, prev, lab, tmp, s, fuel, base, g.brk.Some? && g.cont.Some?);
    if prev.Some? {
      n, pc, t' := LoopSim(m, final, pos, st.body, None, Some(st.c), prev.value, lab, lab + 1, g, lab + 2, tmp, s, t,
          fuel, base);
    } else {
      var o1 := LowerLoop(st.body, None, Some(st.c), lab + 2, lab, lab + 1, g, lab + 3, tmp);
      AtSplit(final, pos, [Lab(lab + 2)], o1.code);
      AtOne(final, pos, Lab(lab + 2));
      Stay(m, final, pos, t);
      Further(m, final, pos, t, 0, pos, t);
      var n1, pc1, t1 := LoopSim(m, final, pos + 1, st.body, None, Some(st.c), lab + 2, lab, lab + 1, g, lab + 3,
          tmp, s, t, fuel, base);
      Then(m, final, pos, t, 1, pos + 1, t, n1, pc1, t1);
      n, pc, t' := 1 + n1, pc1, t1;
    }
  }

  lemma ForOpens(m: Meaning, st: Stmt, g: Targets, prev: Option<nat>, lab: nat, tmp: nat, s: Env, fuel: nat,
      base: nat, loop: bool)
    requires st.For?
    ensures var o0 := LowerOpt(st.init, lab + 3, tmp);
      var o := if st.test.Some? then LowerCond(st.test.value, lab, lab + 2, o0.lab, o0.tmp)
          else Out([], Imm(0), o0.lab, o0.tmp);
      LowerStmt(st, g, prev, lab, tmp).code
        == o0.code + o.code + [Lab(lab)] + LowerLoop(st.body, st.step, st.test, lab, lab + 1, lab + 2, g, o.lab,
            o.tmp).code
    ensures var (go, s1) := Test(m, st.test, EvalOpt(m, st.init, s));
      Exec(m, st, s, fuel) == if go then Iterate(m, st.body, st.step, st.test, s1, fuel) else Some((Normal, s1))
    ensures Slack(st) == 1 + Slack(st.body)
    ensures Legal(st, base, loop) <==>
      DefinedOpt(st.init, base) && DefinedOpt(st.test, base) && DefinedOpt(st.step, base) && Legal(st.body, base, true)
  {
  }

  lemma {:induction false} ForSim(m: Meaning, final: seq<Instr>, pos: nat, st: Stmt, g: Targets, prev: Option<nat>,
      lab: nat, tmp: nat,
                                  s: Env, t: Env, fuel: nat, base: nat) returns (n: nat, pc: nat, t': Env)
    requires Unique(final) && RESULT < base <= tmp && Agree(s, t, base)
    requires st.For? && Legal(st, base, g.brk.Some? && g.cont.Some?)
    requires At(final, pos, LowerStmt(st, g, prev, lab, tmp).code)
    ensures Goes(m, final, pos, t, n, pc, t')
    ensures Reached(final, g, pos + |LowerStmt(st, g, prev, lab, tmp).code|, Exec(m, st, s, fuel), n,
            fuel - Slack(st), pc, t', base)
    decreases fuel, st, 2
  {
    hide Run, Goes, Unique, Find, Kept, At, Agree, Diamond, LowerStmt, LowerLoop, LoopParts, LowerExp, LowerCond,
      LowerOpt, Exec, Iterate, Eval, EvalOpt, Test, Slack, Legal, Defined, DefinedOpt;
    ForOpens(m, st, g, prev, lab, tmp, s, fuel, base, g.brk.Some? && g.cont.Some?);
    var o0 := LowerOpt(st.init, lab + 3, tmp);
    var o := if st.test.Some? then LowerCond(st.test.value, lab, lab + 2, o0.lab, o0.tmp)
        else Out([], Imm(0), o0.lab, o0.tmp);
    var o1 := LowerLoop(st.body, st.step, st.test, lab, lab + 1, lab + 2, g, o.lab, o.tmp);
    var s0 := EvalOpt(m, st.init, s);
    var (go, s1) := Test(m, st.test, s0);
    AtSplit(final, pos, o0.code + o.code + [Lab(lab)], o1.code);
    AtSplit(final, pos, o0.code + o.code, [Lab(lab)]);
    AtSplit(final, pos, o0.code, o.code);
    var p0 := pos + |o0.code|;
    var p1 := p0 + |o.code| + 1;
    var k0, t0 := OptSim(m, final, pos, st.init, lab + 3, tmp, s, t, base);
    var k, tc := TestSim(m, final, p0, st.test, lab, lab + 2, o0.lab, o0.tmp, s0, t0, base);
    Then(m, final, pos, t, k0, p0, t0, k, if go then p1 else Find(final, lab + 2), tc);
    if go {
      var n1, pc1, t1 := LoopSim(m, final, p1, st.body, st.step, st.test, lab, lab + 1, lab + 2, g, o.lab, o.tmp, s1,
          tc, fuel, base);
      Then(m, final, pos, t, k0 + k, p1, tc, n1, pc1, t1);
      n, pc, t' := k0 + k + n1, pc1, t1;
    } else {
      LoopEnd(m, final, p1, st.body, st.step, st.test, lab, lab + 1, lab + 2, g, o.lab, o.tmp, tc);
      Then(m, final, pos, t, k0 + k, Find(final, lab + 2), tc, 1, p1 + |o1.code|, tc);
      n, pc, t' := k0 + k + 1, p1 + |o1.code|, tc;
    }
  }

  /** The test before a loop, up to behind the label `yes` that follows it. */
  lemma {:induction false} TestSim(m: Meaning, final: seq<Instr>, pos: nat, e: Option<Exp>, yes: nat, no: nat,
      lab: nat, tmp: nat, s: Env, t: Env, base: nat)
    returns (n: nat, t': Env)
    requires Unique(final) && DefinedOpt(e, base) && RESULT < base <= tmp && Agree(s, t, base)
    requires e.Some? ==> At(final, pos, LowerCond(e.value, yes, no, lab, tmp).code)
    requires At(final, pos + (if e.Some? then |LowerCond(e.value, yes, no, lab, tmp).code| else 0), [Lab(yes)])
    ensures var (go, s') := Test(m, e, s);
      Goes(m, final, pos, t, n, if go then pos + (if e.Some? then |LowerCond(e.value, yes, no, lab, tmp).code|
          else 0) + 1 else Find(final, no), t')
      && Agree(s', t', base)
  {
    hide Run, Goes, Unique, Find, Kept, At, Agree;
    if e.Some? {
      var p1 := pos + |LowerCond(e.value, yes, no, lab, tmp).code|;
      n, t' := CondSim(m, final, pos, e.value, yes, no, lab, tmp, s, t, base);
      if Eval(m, e.value, s).0 != 0 {
        PassLabel(m, final, p1, yes, t');
        Then(m, final, pos, t, n, Find(final, yes), t', 1, p1 + 1, t');
        n := n + 1;
      }
    } else {
      AtOne(final, pos, Lab(yes));
      Stay(m, final, pos, t);
      Further(m, final, pos, t, 0, pos, t);
      n, t' := 1, t;
    }
  }

  lemma LoopBody(body: Stmt, step: Option<Exp>, test: Option<Exp>, l1: nat, l2: nat, l3: nat, g: Targets, lab: nat,
      tmp: nat)
    ensures LoopParts(body, step, test, l1, l2, l3, g, lab, tmp).0
            == LowerStmt(body, Targets(Some(l3), Some(l2), g.exit), Some(l1), lab, tmp)
  {
    hide LowerStmt;
  }

  lemma LoopOpens(m: Meaning, body: Stmt, step: Option<Exp>, test: Option<Exp>, s: Env, fuel: nat)
    ensures var r := if fuel == 0 then None else Exec(m, body, s, fuel - 1);
      Iterate(m, body, step, test, s, fuel) ==
        if r == None || r.value.0.Returned? then r
        else if r.value.0.Broke? then Some((Normal, r.value.1))
        else
          var (go, s2) := Test(m, test, EvalOpt(m, step, r.value.1));
          if go then Iterate(m, body, step, test, s2, fuel - 1) else Some((Normal, s2))
  {
    hide Exec, Eval;
  }

  /** A loop from just behind its first label, which stands at pos - 1. */
  lemma {:induction false} LoopSim(m: Meaning, final: seq<Instr>, pos: nat, body: Stmt, step: Option<Exp>,
      test: Option<Exp>, l1: nat, l2: nat, l3: nat,
                                   g: Targets, lab: nat, tmp: nat, s: Env, t: Env, fuel: nat,
                                       base: nat) returns (n: nat, pc: nat, t': Env)
    requires Unique(final) && RESULT < base <= tmp && Agree(s, t, base)
    requires Legal(body, base, true) && DefinedOpt(step, base) && DefinedOpt(test, base)
    requires At(final, pos, LowerLoop(body, step, test, l1, l2, l3, g, lab, tmp).code) && Follows(final, pos, Some(l1))
    ensures Goes(m, final, pos, t, n, pc, t')
    ensures Reached(final, g, pos + |LowerLoop(body, step, test, l1, l2, l3, g, lab, tmp).code|,
            Iterate(m, body, step, test, s, fuel),
                    n, fuel - 1 - Slack(body), pc, t', base)
    decreases fuel, body, 4
  {
    hide Run, Goes, Unique, Find, Kept, At, Agree, Diamond, LowerStmt, LowerLoop, LoopParts, LowerExp, LowerCond,
      LowerOpt, Exec, Iterate, Eval, EvalOpt, Test, Slack, Legal, Defined, DefinedOpt;
    LoopBody(body, step, test, l1, l2, l3, g, lab, tmp);
    LoopOpens(m, body, step, test, s, fuel);
    var r := if fuel == 0 then None else Exec(m, body, s, fuel - 1);
    var g' := Targets(Some(l3), Some(l2), g.exit);
    LoopLayout(final, pos, body, step, test, l1, l2, l3, g, lab, tmp);
    var (o1, o2, o3) := LoopParts(body, step, test, l1, l2, l3, g, lab, tmp);
    var end := pos + |LowerLoop(body, step, test, l1, l2, l3, g, lab, tmp).code|;
    if fuel == 0 {
      Stay(m, final, pos, t);
      AtOne(final, end - 1, Lab(l3));
      n, pc, t' := 0, pos, t;
    } else {
      n, pc, t' := StmtSim(m, final, pos, body, g', Some(l1), lab, tmp, s, t, fuel - 1, base);
      if r.Some? && r.value.0.Broke? {
        LoopEnd(m, final, pos, body, step, test, l1, l2, l3, g, lab, tmp, t');
        Then(m, final, pos, t, n, Find(final, l3), t', 1, end, t');
        n, pc := n + 1, end;
      } else if r.Some? && !r.value.0.Returned? {
        n := AfterBody(m, final, pos, t, pos + |o1.code|, l2, n, pc, t');
        var n2, pc2, t2 := NextRound(m, final, pos, body, step, test, l1, l2, l3, g, lab, tmp, r.value.1, t', fuel,
            base);
        Then(m, final, pos, t, n, pos + |o1.code| + 1, t', n2, pc2, t2);
        n, pc, t' := n + n2, pc2, t2;
      }
    }
  }

  /** Falling out of the body or jumping to the continue label comes to the same. */
  lemma AfterBody(m: Meaning, final: seq<Instr>, pos: nat, t: Env, p2: nat, l2: nat, n: nat, pc: nat, t': Env)
    returns (n': nat)
    requires Unique(final) && At(final, p2, [Lab(l2)]) && Goes(m, final, pos, t, n, pc, t')
             && (pc == p2 || pc == Find(final, l2))
    ensures Goes(m, final, pos, t, n', p2 + 1, t') && n' == n + 1
  {
    AtOne(final, p2, Lab(l2));
    FindAt(final, p2, l2);
    hide Run, Goes, Unique, Find, At;
    Further(m, final, pos, t, n, p2, t');
    n' := n + 1;
  }

  lemma PartsOpen(body: Stmt, step: Option<Exp>, test: Option<Exp>, l1: nat, l2: nat, l3: nat, g: Targets, lab: nat,
      tmp: nat)
    ensures var (o1, o2, o3) := LoopParts(body, step, test, l1, l2, l3, g, lab, tmp);
      && o2 == LowerOpt(step, o1.lab, o1.tmp)
      && o3.code == if test.Some? then LowerCond(test.value, l1, l3, o2.lab, o2.tmp).code else [Jmp(l1)]
  {
  }

  /** Step and test behind the body, and the rounds that follow. */
  lemma {:induction false} NextRound(m: Meaning, final: seq<Instr>, pos: nat, body: Stmt, step: Option<Exp>,
      test: Option<Exp>, l1: nat, l2: nat, l3: nat,
                                     g: Targets, lab: nat, tmp: nat, s: Env, t: Env, fuel: nat,
                                         base: nat) returns (n: nat, pc: nat, t': Env)
    requires fuel > 0 && Unique(final) && RESULT < base <= tmp && Agree(s, t, base)
    requires Legal(body, base, true) && DefinedOpt(step, base) && DefinedOpt(test, base)
    requires At(final, pos, LowerLoop(body, step, test, l1, l2, l3, g, lab, tmp).code) && Follows(final, pos, Some(l1))
    ensures Goes(m, final, pos + |LoopParts(body, step, test, l1, l2, l3, g, lab, tmp).0.code| + 1, t, n, pc, t')
    ensures var (go, s2) := Test(m, test, EvalOpt(m, step, s));
      Reached(final, g, pos + |LowerLoop(body, step, test, l1, l2, l3, g, lab, tmp).code|,
              if go then Iterate(m, body, step, test, s2, fuel - 1) else Some((Normal, s2)), n,
                  fuel - 1 - Slack(body), pc, t', base)
    decreases fuel, body, 1
  {
    hide Run, Goes, Unique, Find, Kept, At, Agree, LowerStmt, LowerLoop, LoopParts, LowerExp, LowerCond, LowerOpt, Exec,
      Iterate, Eval, EvalOpt, Test, Slack, Legal, Defined, DefinedOpt;
    PartsOpen(body, step, test, l1, l2, l3, g, lab, tmp);
    LoopLayout(final, pos, body, step, test, l1, l2, l3, g, lab, tmp);
    var (o1, o2, o3) := LoopParts(body, step, test, l1, l2, l3, g, lab, tmp);
    var p2 := pos + |o1.code| + 1;
    var p3 := p2 + |o2.code|;
    var k, tk := OptSim(m, final, p2, step, o1.lab, o1.tmp, s, t, base);
    var sk := EvalOpt(m, step, s);
    var (go, s2) := Test(m, test, sk);
    var j, tj := AgainSim(m, final, p3, test, l1, l3, o2.lab, o2.tmp, sk, tk, base);
    Then(m, final, p2, t, k, p3, tk, j, Find(final, if go then l1 else l3), tj);
    if go {
      PassLabel(m, final, pos - 1, l1, tj);
      Then(m, final, p2, t, k + j, Find(final, l1), tj, 1, pos, tj);
      var n1, pc1, t1 := LoopSim(m, final, pos, body, step, test, l1, l2, l3, g, lab, tmp, s2, tj, fuel - 1, base);
      Then(m, final, p2, t, k + j + 1, pos, tj, n1, pc1, t1);
      n, pc, t' := k + j + 1 + n1, pc1, t1;
    } else {
      LoopEnd(m, final, pos, body, step, test, l1, l2, l3, g, lab, tmp, tj);
      pc := pos + |LowerLoop(body, step, test, l1, l2, l3, g, lab, tmp).code|;
      Then(m, final, p2, t, k + j, Find(final, l3), tj, 1, pc, tj);
      n, t' := k + j + 1, tj;
    }
  }

  /** The test at the end of a loop. */
  lemma {:induction false} AgainSim(m: Meaning, final: seq<Instr>, pos: nat, test: Option<Exp>, yes: nat, no: nat,
      lab: nat, tmp: nat, s: Env, t: Env, base: nat)
    returns (n: nat, t': Env)
    requires Unique(final) && DefinedOpt(test, base) && RESULT < base <= tmp && Agree(s, t, base)
    requires At(final, pos, if test.Some? then LowerCond(test.value, yes, no, lab, tmp).code else [Jmp(yes)])
    ensures var (go, s') := Test(m, test, s);
      Goes(m, final, pos, t, n, Find(final, if go then yes else no), t') && Agree(s', t', base)
  {
    hide Run, Goes, Unique, Find, Kept, At, Agree;
    if test.Some? {
      n, t' := CondSim(m, final, pos, test.value, yes, no, lab, tmp, s, t, base);
    } else {
      AtOne(final, pos, Jmp(yes));
      Stay(m, final, pos, t);
      Further(m, final, pos, t, 0, pos, t);
      n, t' := 1, t;
    }
  }

  // ------------------------------------------------------------------
  // Every label is emitted once
  // ------------------------------------------------------------------

  function Labels(code: seq<Instr>): set<nat> {
    set k | 0 <= k < |code| && code[k].Lab? :: code[k].l
  }

  /** Labels emitted once each, all of them in this range. */
  predicate Fresh(code: seq<Instr>, lo: nat, hi: nat) {
    Unique(code) && forall l :: l in Labels(code) ==> lo <= l < hi
  }

  lemma LabelsConcat(a: seq<Instr>, b: seq<Instr>)
    ensures Labels(a + b) == Labels(a) + Labels(b)
  {
    var ab := a + b;
    forall l | l in Labels(a) + Labels(b) ensures l in Labels(ab) {
      if l in Labels(a) {
        var k :| 0 <= k < |a| && a[k].Lab? && a[k].l == l;
        assert ab[k] == a[k];
      } else {
        var k :| 0 <= k < |b| && b[k].Lab? && b[k].l == l;
        assert ab[|a| + k] == b[k];
      }
    }
  }

  lemma UniqueConcat(a: seq<Instr>, b: seq<Instr>)
    requires Unique(a) && Unique(b) && Labels(a) !! Labels(b)
    ensures Unique(a + b) && Labels(a + b) == Labels(a) + Labels(b)
  {
    LabelsConcat(a, b);
    var ab := a + b;
    forall i, j | 0 <= i < j < |ab| && ab[i].Lab? ensures ab[i] != ab[j] {
      if i < |a| <= j && ab[j].Lab? {
        assert ab[i].l in Labels(a) && ab[j].l in Labels(b);
      }
    }
  }

  lemma OneLabel(l: nat)
    ensures Unique([Lab(l)]) && Labels([Lab(l)]) == {l}
  {
    assert [Lab(l)][0] == Lab(l);
  }

  lemma NoLabel(i: Instr)
    requires !i.Lab?
    ensures Unique([i]) && Labels([i]) == {}
  {
  }

  lemma UniqueTail(one: nat, zero: nat, end: nat, a: nat)
    requires one != zero && one != end && zero != end
    ensures Unique(Tail(one, zero, end, a)) && Labels(Tail(one, zero, end, a)) == {one, zero, end}
  {
    var t := Tail(one, zero, end, a);
    assert t[0] == Lab(one) && t[3] == Lab(zero) && t[5] == Lab(end);
  }

  lemma UniqueDiamond(c: seq<Instr>, c1: seq<Instr>, c2: seq<Instr>, lab: nat, x: nat, y: nat, z: nat)
    requires lab + 3 <= x <= y <= z && Fresh(c, lab + 3, x) && Fresh(c1, x, y) && Fresh(c2, y, z)
    ensures Fresh(Diamond(c, c1, c2, lab), lab, z)
  {
    hide Unique, Labels;
    OneLabel(lab);
    OneLabel(lab + 1);
    OneLabel(lab + 2);
    NoLabel(Jmp(lab + 2));
    UniqueConcat(c, [Lab(lab)]);
    UniqueConcat(c1, [Jmp(lab + 2)]);
    UniqueConcat(c + [Lab(lab)], c1 + [Jmp(lab + 2)]);
    UniqueConcat(c2, [Lab(lab + 2)]);
    UniqueConcat([Lab(lab + 1)], c2 + [Lab(lab + 2)]);
    UniqueConcat(c + [Lab(lab)] + (c1 + [Jmp(lab + 2)]), [Lab(lab + 1)] + (c2 + [Lab(lab + 2)]));
  }

  lemma {:induction false} FreshExp(e: Exp, lab: nat, tmp: nat)
    ensures var o := LowerExp(e, lab, tmp); Fresh(o.code, lab, o.lab)
    decreases e, 2
  {
    hide Unique, Labels, Diamond, Tail;
    match e
    case Const(_) => NoLabels();
    case Var(_) => NoLabels();
    case Unary(op, a) =>
      var o := LowerExp(a, lab, tmp);
      FreshExp(a, lab, tmp);
      FreshThen(o.code, Op1(op, o.tmp, o.arg), lab, o.lab);
    case Binary(op, l, r, true) =>
      var o1 := LowerExp(l, lab, tmp);
      var o2 := LowerExp(r, o1.lab, o1.tmp);
      FreshExp(l, lab, tmp);
      FreshExp(r, o1.lab, o1.tmp);
      FreshBoth(o1.code, o2.code, lab, o1.lab, o2.lab);
      FreshThen(o1.code + o2.code, Op2(op, o2.tmp, o1.arg, o2.arg), lab, o2.lab);
    case Binary(op, l, r, false) =>
      var o2 := LowerExp(r, lab, tmp);
      var o1 := LowerExp(l, o2.lab, o2.tmp);
      FreshExp(r, lab, tmp);
      FreshExp(l, o2.lab, o2.tmp);
      FreshBoth(o2.code, o1.code, lab, o2.lab, o1.lab);
      FreshThen(o2.code + o1.code, Op2(op, o1.tmp, o1.arg, o2.arg), lab, o1.lab);
    case Assign(x, a) =>
      var o := LowerExp(a, lab, tmp);
      FreshExp(a, lab, tmp);
      FreshThen(o.code, Asn(x, o.arg), lab, o.lab);
    case Comma(l, r) =>
      var o1 := LowerExp(l, lab, tmp);
      FreshExp(l, lab, tmp);
      FreshExp(r, o1.lab, o1.tmp);
      FreshBoth(o1.code, LowerExp(r, o1.lab, o1.tmp).code, lab, o1.lab, LowerExp(r, o1.lab, o1.tmp).lab);
    case Cond(c, a, b) =>
      var o := LowerCond(c, lab, lab + 1, lab + 3, tmp);
      var o1 := LowerExp(a, o.lab, o.tmp + 1);
      var o2 := LowerExp(b, o1.lab, o1.tmp);
      FreshCond(c, lab, lab + 1, lab + 3, tmp);
      FreshExp(a, o.lab, o.tmp + 1);
      FreshExp(b, o1.lab, o1.tmp);
      FreshThen(o1.code, Asn(o.tmp, o1.arg), o.lab, o1.lab);
      FreshThen(o2.code, Asn(o.tmp, o2.arg), o1.lab, o2.lab);
      UniqueDiamond(o.code, o1.code + [Asn(o.tmp, o1.arg)], o2.code + [Asn(o.tmp, o2.arg)], lab, o.lab, o1.lab, o2.lab);
    case Or(_, _) => FreshLogic(e, lab, tmp);
    case And(_, _) => FreshLogic(e, lab, tmp);
  }

  lemma NoLabels()
    ensures Unique([]) && Labels([]) == {}
  {
  }

  lemma FreshThen(code: seq<Instr>, i: Instr, lo: nat, hi: nat)
    requires Fresh(code, lo, hi) && !i.Lab?
    ensures Fresh(code + [i], lo, hi)
  {
    NoLabel(i);
    UniqueConcat(code, [i]);
  }

  lemma FreshBoth(a: seq<Instr>, b: seq<Instr>, lo: nat, mid: nat, hi: nat)
    requires lo <= mid <= hi && Fresh(a, lo, mid) && Fresh(b, mid, hi)
    ensures Fresh(a + b, lo, hi)
  {
    UniqueConcat(a, b);
  }

  lemma {:induction false} FreshLogic(e: Exp, lab: nat, tmp: nat)
    requires e.And? || e.Or?
    ensures var o := LowerExp(e, lab, tmp); Fresh(o.code, lab, o.lab)
    decreases e, 1
  {
    hide Unique, Labels, Tail;
    var mid, one := if e.And? then lab else lab + 1, if e.And? then lab + 1 else lab;
    FreshShort(e, mid, one, lab + 2, lab + 4, tmp + 1);
    UniqueTail(one, lab + 2, lab + 3, tmp);
    UniqueConcat(ShortCode(e, mid, one, lab + 2, lab + 4, tmp + 1).code, Tail(one, lab + 2, lab + 3, tmp));
  }

  lemma {:induction false} FreshShort(e: Exp, mid: nat, yes: nat, no: nat, lab: nat, tmp: nat)
    requires (e.And? || e.Or?) && mid < lab
    ensures var o := ShortCode(e, mid, yes, no, lab, tmp);
      Unique(o.code) && o.lab >= lab && forall l :: l in Labels(o.code) ==> l == mid || lab <= l < o.lab
    decreases e, 0
  {
    hide Unique, Labels;
    var y1, n1 := if e.And? then mid else yes, if e.And? then no else mid;
    var o1 := LowerCond(e.l, y1, n1, lab, tmp);
    var o2 := LowerCond(e.r, yes, no, o1.lab, o1.tmp);
    FreshCond(e.l, y1, n1, lab, tmp);
    FreshCond(e.r, yes, no, o1.lab, o1.tmp);
    OneLabel(mid);
    UniqueConcat(o1.code, [Lab(mid)]);
    UniqueConcat(o1.code + [Lab(mid)], o2.code);
  }

  lemma {:induction false} FreshCond(e: Exp, yes: nat, no: nat, lab: nat, tmp: nat)
    ensures var o := LowerCond(e, yes, no, lab, tmp); Fresh(o.code, lab, o.lab)
    decreases e, 3
  {
    hide Unique, Labels;
    if e.And? || e.Or? {
      FreshShort(e, lab, yes, no, lab + 1, tmp);
    } else {
      var o := LowerExp(e, lab, tmp);
      FreshExp(e, lab, tmp);
      FreshThen(o.code, CBr(yes, o.arg, no), lab, o.lab);
    }
  }

  lemma {:induction false} FreshOpt(e: Option<Exp>, lab: nat, tmp: nat)
    ensures var o := LowerOpt(e, lab, tmp); Fresh(o.code, lab, o.lab)
  {
    if e.Some? {
      FreshExp(e.value, lab, tmp);
    }
  }

  lemma {:induction false} FreshStmt(st: Stmt, g: Targets, prev: Option<nat>, lab: nat, tmp: nat)
    ensures var o := LowerStmt(st, g, prev, lab, tmp); Fresh(o.code, lab, o.lab)
    decreases st, 1
  {
    hide Unique, Labels, Diamond, LowerLoop, LoopParts, LowerExp, LowerCond, LowerOpt;
    NoLabels();
    match st
    case Empty =>
    case Break => NoLabel(LowerStmt(st, g, prev, lab, tmp).code[0]);
    case Continue => NoLabel(LowerStmt(st, g, prev, lab, tmp).code[0]);
    case ExpStmt(e) => FreshExp(e, lab, tmp);
    case Return(e) =>
      NoLabel(Jmp(g.exit));
      if e.Some? {
        var o := LowerExp(e.value, lab, tmp);
        FreshExp(e.value, lab, tmp);
        FreshThen(o.code, Ret(o.arg), lab, o.lab);
        FreshThen(o.code + [Ret(o.arg)], Jmp(g.exit), lab, o.lab);
        assert o.code + [Ret(o.arg), Jmp(g.exit)] == o.code + [Ret(o.arg)] + [Jmp(g.exit)];
      }
    case Seq(a, b) =>
      var o1 := LowerStmt(a, g, prev, lab, tmp);
      var o2 := LowerStmt(b, g, LastLabel(prev, o1.code), o1.lab, o1.tmp);
      FreshStmt(a, g, prev, lab, tmp);
      FreshStmt(b, g, LastLabel(prev, o1.code), o1.lab, o1.tmp);
      FreshBoth(o1.code, o2.code, lab, o1.lab, o2.lab);
    case If(c, a) =>
      var o := LowerCond(c, lab, lab + 1, lab + 2, tmp);
      var o1 := LowerStmt(a, g, Some(lab), o.lab, o.tmp);
      FreshCond(c, lab, lab + 1, lab + 2, tmp);
      FreshStmt(a, g, Some(lab), o.lab, o.tmp);
      OneLabel(lab);
      OneLabel(lab + 1);
      UniqueConcat(o.code, [Lab(lab)]);
      UniqueConcat(o.code + [Lab(lab)], o1.code);
      UniqueConcat(o.code + [Lab(lab)] + o1.code, [Lab(lab + 1)]);
    case IfElse(c, a, b) =>
      var o := LowerCond(c, lab, lab + 1, lab + 3, tmp);
      var o1 := LowerStmt(a, g, Some(lab), o.lab, o.tmp);
      var o2 := LowerStmt(b, g, Some(lab + 1), o1.lab, o1.tmp);
      FreshCond(c, lab, lab + 1, lab + 3, tmp);
      FreshStmt(a, g, Some(lab), o.lab, o.tmp);
      FreshStmt(b, g, Some(lab + 1), o1.lab, o1.tmp);
      UniqueDiamond(o.code, o1.code, o2.code, lab, o.lab, o1.lab, o2.lab);
    case While(c, body) =>
      var o := LowerCond(c, lab, lab + 2, lab + 3, tmp);
      FreshCond(c, lab, lab + 2, lab + 3, tmp);
      FreshWhole(o.code, body, None, Some(c), lab, lab + 1, lab + 2, g, o.lab, o.tmp, lab + 3);
    case Do(body, c) =>
      if prev.Some? {
        FreshLoop(body, None, Some(c), prev.value, lab, lab + 1, g, lab + 2, tmp);
      } else {
        FreshWhole([], body, None, Some(c), lab + 2, lab, lab + 1, g, lab + 3, tmp, lab + 3);
        assert [] + [Lab(lab + 2)] == [Lab(lab + 2)];
      }
    case For(init, test, step, body) =>
      var o0 := LowerOpt(init, lab + 3, tmp);
      var o := if test.Some? then LowerCond(test.value, lab, lab + 2, o0.lab, o0.tmp)
          else Out([], Imm(0), o0.lab, o0.tmp);
      FreshOpt(init, lab + 3, tmp);
      if test.Some? {
        FreshCond(test.value, lab, lab + 2, o0.lab, o0.tmp);
      }
      FreshBoth(o0.code, o.code, lab + 3, o0.lab, o.lab);
      FreshWhole(o0.code + o.code, body, step, test, lab, lab + 1, lab + 2, g, o.lab, o.tmp, lab + 3);
  }

  /** A loop with what comes before it. */
  lemma {:induction false} FreshWhole(before: seq<Instr>, body: Stmt, step: Option<Exp>, test: Option<Exp>, l1: nat,
      l2: nat, l3: nat,
                                      g: Targets, lab: nat, tmp: nat, lo: nat)
    requires Fresh(before, lo, lab) && lo - 3 <= l1 < lo && lo - 3 <= l2 < lo && lo - 3 <= l3 < lo && l1 != l2
             && l1 != l3 && l2 != l3 && lo <= lab
    ensures var o := LowerLoop(body, step, test, l1, l2, l3, g, lab, tmp);
      && Unique(before + [Lab(l1)] + o.code)
      && forall l :: l in Labels(before + [Lab(l1)] + o.code) ==> lo - 3 <= l < o.lab
    decreases body, 3
  {
    hide Unique, Labels, LowerLoop;
    FreshLoop(body, step, test, l1, l2, l3, g, lab, tmp);
    OneLabel(l1);
    UniqueConcat(before, [Lab(l1)]);
    UniqueConcat(before + [Lab(l1)], LowerLoop(body, step, test, l1, l2, l3, g, lab, tmp).code);
  }

  lemma {:induction false} FreshLoop(body: Stmt, step: Option<Exp>, test: Option<Exp>, l1: nat, l2: nat, l3: nat,
      g: Targets, lab: nat, tmp: nat)
    requires l2 < lab && l3 < lab && l2 != l3
    ensures var o := LowerLoop(body, step, test, l1, l2, l3, g, lab, tmp);
      Unique(o.code) && forall l :: l in Labels(o.code) ==> l == l2 || l == l3 || lab <= l < o.lab
    decreases body, 2
  {
    hide Unique, Labels, LowerStmt, LowerExp, LowerCond, LowerOpt;
    var (o1, o2, o3) := LoopParts(body, step, test, l1, l2, l3, g, lab, tmp);
    FreshStmt(body, Targets(Some(l3), Some(l2), g.exit), Some(l1), lab, tmp);
    FreshOpt(step, o1.lab, o1.tmp);
    if test.Some? {
      FreshCond(test.value, l1, l3, o2.lab, o2.tmp);
    } else {
      NoLabel(Jmp(l1));
    }
    OneLabel(l2);
    OneLabel(l3);
    UniqueConcat(o1.code, [Lab(l2)]);
    UniqueConcat(o1.code + [Lab(l2)], o2.code);
    UniqueConcat(o1.code + [Lab(l2)] + o2.code, o3.code);
    UniqueConcat(o1.code + [Lab(l2)] + o2.code + o3.code, [Lab(l3)]);
  }

  // ------------------------------------------------------------------
  // Functions
  // ------------------------------------------------------------------

  /** The labels of the function's entry and of its return point. */
  const ENTRY: nat := 0
  const EXIT: nat := 1

  /** A function body between its entry and exit blocks. */
  function LowerFunction(st: Stmt, base: nat): seq<Instr> {
    var o := LowerStmt(st, Targets(None, None, EXIT), Some(ENTRY), 2, base);
    [Jmp(ENTRY), Lab(ENTRY)] + o.code + [Lab(EXIT), Jmp(o.lab), Lab(o.lab)]
  }

  lemma UniqueFunction(st: Stmt, base: nat)
    ensures Unique(LowerFunction(st, base))
  {
    hide Unique, Labels;
    var o := LowerStmt(st, Targets(None, None, EXIT), Some(ENTRY), 2, base);
    FreshStmt(st, Targets(None, None, EXIT), Some(ENTRY), 2, base);
    NoLabel(Jmp(ENTRY));
    OneLabel(ENTRY);
    OneLabel(EXIT);
    NoLabel(Jmp(o.lab));
    OneLabel(o.lab);
    assert [Jmp(ENTRY), Lab(ENTRY)] == [Jmp(ENTRY)] + [Lab(ENTRY)];
    UniqueConcat([Jmp(ENTRY)], [Lab(ENTRY)]);
    UniqueConcat([Jmp(ENTRY), Lab(ENTRY)], o.code);
    var tail := [Lab(EXIT), Jmp(o.lab), Lab(o.lab)];
    assert tail == [Lab(EXIT)] + [Jmp(o.lab)] + [Lab(o.lab)];
    UniqueConcat([Lab(EXIT)], [Jmp(o.lab)]);
    UniqueConcat([Lab(EXIT)] + [Jmp(o.lab)], [Lab(o.lab)]);
    UniqueConcat([Jmp(ENTRY), Lab(ENTRY)] + o.code, tail);
  }

  /** A run of the quads, for a bounded run of the source: both come to an end in the same state, or both go on. */
  lemma FunctionSim(m: Meaning, st: Stmt, s: Env, t: Env, fuel: nat, base: nat) returns (n: nat, pc: nat, t': Env)
    requires Legal(st, base, false) && RESULT < base && Agree(s, t, base)
    ensures Goes(m, LowerFunction(st, base), 0, t, n, pc, t')
    ensures var r := Exec(m, st, s, fuel);
      if r.None? then n >= fuel - Slack(st) && pc < |LowerFunction(st, base)|
      else pc == |LowerFunction(st, base)| && Agree(r.value.1, t', base)
  {
    hide Run, Goes, Unique, Find, Agree, At, LowerStmt, Exec, Slack, Legal;
    var g := Targets(None, None, EXIT);
    var o := LowerStmt(st, g, Some(ENTRY), 2, base);
    var final := LowerFunction(st, base);
    var end := 2 + |o.code|;
    UniqueFunction(st, base);
    FunctionLayout(st, base);
    Stay(m, final, 0, t);
    AtOne(final, 0, Jmp(ENTRY));
    Further(m, final, 0, t, 0, 0, t);
    PassLabel(m, final, 1, ENTRY, t);
    Then(m, final, 0, t, 1, Find(final, ENTRY), t, 1, 2, t);
    var n1, pc1, t1 := StmtSim(m, final, 2, st, g, Some(ENTRY), 2, base, s, t, fuel, base);
    Then(m, final, 0, t, 2, 2, t, n1, pc1, t1);
    n, pc, t' := 2 + n1, pc1, t1;
    NoStrayJump(m, st, s, fuel, base);
    if Exec(m, st, s, fuel).Some? {
      AtOne(final, end, Lab(EXIT));
      AtOne(final, end + 1, Jmp(o.lab));
      FindAt(final, end, EXIT);
      Further(m, final, 0, t, n, end, t');
      Further(m, final, 0, t, n + 1, end + 1, t');
      PassLabel(m, final, end + 2, o.lab, t');
      Then(m, final, 0, t, n + 2, Find(final, o.lab), t', 1, end + 3, t');
      n, pc := n + 3, end + 3;
    }
  }

  lemma FunctionLayout(st: Stmt, base: nat)
    ensures var o := LowerStmt(st, Targets(None, None, EXIT), Some(ENTRY), 2, base);
      var final := LowerFunction(st, base); var end := 2 + |o.code|;
      && At(final, 0, [Jmp(ENTRY)]) && At(final, 1, [Lab(ENTRY)]) && At(final, 2, o.code)
          && Follows(final, 2, Some(ENTRY))
      && At(final, end, [Lab(EXIT)]) && At(final, end + 1, [Jmp(o.lab)]) && At(final, end + 2, [Lab(o.lab)])
          && |final| == end + 3
  {
    hide LowerStmt;
  }

  /** Outside all loops nothing ends in break or continue. */
  lemma {:induction false} NoStrayJump(m: Meaning, st: Stmt, s: Env, fuel: nat, base: nat)
    requires Legal(st, base, false)
    ensures var r := Exec(m, st, s, fuel); r.Some? ==> r.value.0.Normal? || r.value.0.Returned?
    decreases st
  {
    match st
    case Seq(a, b) =>
      NoStrayJump(m, a, s, fuel, base);
      var r := Exec(m, a, s, fuel);
      if r.Some? && r.value.0.Normal? {
        NoStrayJump(m, b, r.value.1, fuel, base);
      }
    case If(c, a) => NoStrayJump(m, a, Eval(m, c, s).1, fuel, base);
    case IfElse(c, a, b) =>
      NoStrayJump(m, a, Eval(m, c, s).1, fuel, base);
      NoStrayJump(m, b, Eval(m, c, s).1, fuel, base);
    case While(c, body) => LoopOutcome(m, body, None, Some(c), Eval(m, c, s).1, fuel);
    case Do(body, c) => LoopOutcome(m, body, None, Some(c), s, fuel);
    case For(init, test, step, body) => LoopOutcome(m, body, step, test, Test(m, test, EvalOpt(m, init, s)).1, fuel);
    case Empty | ExpStmt(_) | Break | Continue | Return(_) =>
  }

  lemma {:induction false} LoopOutcome(m: Meaning, body: Stmt, step: Option<Exp>, test: Option<Exp>, s: Env, fuel: nat)
    ensures var r := Iterate(m, body, step, test, s, fuel); r.Some? ==> r.value.0.Normal? || r.value.0.Returned?
    decreases fuel
  {
    if fuel > 0 {
      var r := Exec(m, body, s, fuel - 1);
      if r.Some? {
        LoopOutcome(m, body, step, test, Test(m, test, EvalOpt(m, step, r.value.1)).1, fuel - 1);
      }
    }
  }

  /** The end of the code is where a run stays. */
  lemma {:induction false} Halted(m: Meaning, code: seq<Instr>, s: Env, n: nat)
    ensures Run(m, code, |code|, s, n) == (|code|, s)
  {
    if n > 0 {
      Halted(m, code, s, n - 1);
    }
  }

  lemma SameEnd(m: Meaning, code: seq<Instr>, s: Env, n1: nat, n2: nat)
    requires Run(m, code, 0, s, n1).0 == |code| && n1 <= n2
    ensures Run(m, code, 0, s, n2) == Run(m, code, 0, s, n1)
  {
    Chain(m, code, 0, s, n1, n2 - n1);
    Halted(m, code, Run(m, code, 0, s, n1).1, n2 - n1);
    assert n1 + (n2 - n1) == n2;
  }

  /** A terminating source run is matched by the quads. */
  lemma Preserved(m: Meaning, st: Stmt, s: Env, t: Env, fuel: nat, base: nat) returns (n: nat)
    requires Legal(st, base, false) && RESULT < base && Agree(s, t, base) && Exec(m, st, s, fuel).Some?
    ensures var (pc, t') := Run(m, LowerFunction(st, base), 0, t, n);
      pc == |LowerFunction(st, base)| && Agree(Exec(m, st, s, fuel).value.1, t', base)
  {
    var pc, t';
    n, pc, t' := FunctionSim(m, st, s, t, fuel, base);
  }

  /** When the quads come to their end, so does the source, in the same state. */
  lemma Reflected(m: Meaning, st: Stmt, s: Env, t: Env, n: nat, base: nat) returns (fuel: nat)
    requires Legal(st, base, false) && RESULT < base && Agree(s, t, base)
    requires Run(m, LowerFunction(st, base), 0, t, n).0 == |LowerFunction(st, base)|
    ensures Exec(m, st, s, fuel).Some?
    ensures Agree(Exec(m, st, s, fuel).value.1, Run(m, LowerFunction(st, base), 0, t, n).1, base)
  {
    fuel := n + Slack(st);
    var k, pc, t' := FunctionSim(m, st, s, t, fuel, base);
    if n <= k {
      SameEnd(m, LowerFunction(st, base), t, n, k);
    } else {
      SameEnd(m, LowerFunction(st, base), t, k, n);
    }
  }
}
