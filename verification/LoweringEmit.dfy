/** The emitter that lowers statements: quads and counters in global variables, break and continue targets on stacks. */
module LoweringEmit {
  import opened Ic
  import opened Lowering

  /** lab2instr maps the labels of the code to where they stand. */
  ghost predicate Table(code: seq<Instr>, lab2instr: map<nat, nat>) {
    && (forall k :: 0 <= k < |code| && code[k].Lab? ==> code[k].l in lab2instr)
    && (forall l :: l in lab2instr ==> lab2instr[l] < |code| && code[lab2instr[l]] == Lab(l))
  }

  lemma TableGrows(code: seq<Instr>, lab2instr: map<nat, nat>, i: Instr)
    requires Table(code, lab2instr)
    ensures Table(code + [i], if i.Lab? then lab2instr[i.l := |code|] else lab2instr)
  {
  }

  /** Once every label is unique, the table finds what a search of the code would find. */
  lemma TableFinds(code: seq<Instr>, lab2instr: map<nat, nat>, l: nat)
    requires Table(code, lab2instr) && Unique(code)
    ensures l in lab2instr ==> Find(code, l) == lab2instr[l]
    ensures l !in lab2instr ==> Find(code, l) == |code|
  {
    if l in lab2instr {
      FindAt(code, lab2instr[l], l);
    }
  }

  class Emitter {
    var code: seq<Instr>
    var labels: nat
    var temps: nat
    var btargets: seq<nat>
    var ctargets: seq<nat>
    var exit: nat
    var lab2instr: map<nat, nat>

    constructor (base: nat)
      ensures code == [] && labels == 0 && temps == base && btargets == [] && ctargets == [] && Table(code, lab2instr)
    {
      code, labels, temps, btargets, ctargets, exit, lab2instr := [], 0, base, [], [], 0, map[];
    }

    method Emit(i: Instr)
      requires Table(code, lab2instr) && !i.Lab?
      modifies this`code
      ensures code == old(code) + [i] && Table(code, lab2instr)
    {
      TableGrows(code, lab2instr, i);
      code := code + [i];
    }

    method EmitLabel(l: nat)
      requires Table(code, lab2instr)
      modifies this`code, this`lab2instr
      ensures code == old(code) + [Lab(l)] && Table(code, lab2instr)
    {
      TableGrows(code, lab2instr, Lab(l));
      lab2instr := lab2instr[l := |code|];
      code := code + [Lab(l)];
    }

    method NewLabel() returns (l: nat)
      modifies this`labels
      ensures l == old(labels) && labels == l + 1
    {
      l := labels;
      labels := labels + 1;
    }

    method NewTemp() returns (x: nat)
      modifies this`temps
      ensures x == old(temps) && temps == x + 1
    {
      x := temps;
      temps := temps + 1;
    }

    /** The piece of code o has been added, and the counters are where it leaves them. */
    twostate predicate Added(o: Out)
      reads this
    {
      code == old(code) + o.code && labels == o.lab && temps == o.tmp && Table(code, lab2instr)
    }

    method Expression(e: Exp) returns (a: Operand)
      requires Table(code, lab2instr)
      modifies this`code, this`labels, this`temps, this`lab2instr
      ensures var o := LowerExp(e, old(labels), old(temps)); Added(o) && a == o.arg
      decreases e, 2
    {
      hide Table, LowerExp, LowerCond, Tail, Diamond;
      match e
      case Const(v) =>
        LeafOpens(e, labels, temps);
        assert code + [] == code;
        a := Imm(v);
      case Var(x) =>
        LeafOpens(e, labels, temps);
        assert code + [] == code;
        a := Name(x);
      case Unary(_, _) =>
        a := UnaryOperator(e);
      case Binary(_, _, _, leftFirst) =>
        if leftFirst {
          a := BinaryLeftFirst(e);
        } else {
          a := BinaryRightFirst(e);
        }
      case Assign(_, _) =>
        a := Assignment(e);
      case Comma(_, _) =>
        a := CommaOperator(e);
      case Cond(_, _, _) =>
        a := Conditional(e);
      case Or(_, _) =>
        a := LogicValue(e);
      case And(_, _) =>
        a := LogicValue(e);
    }

    method UnaryOperator(e: Exp) returns (a: Operand)
      requires e.Unary? && Table(code, lab2instr)
      modifies this`code, this`labels, this`temps, this`lab2instr
      ensures var o := LowerExp(e, old(labels), old(temps)); Added(o) && a == o.arg
      decreases e, 1
    {
      hide Table, LowerExp, LowerCond, Tail, Diamond;
      ghost var was, o := code, LowerExp(e.e, labels, temps);
      UnaryOpens(e, labels, temps);
      var a1 := Expression(e.e);
      var t := NewTemp();
      Emit(Op1(e.op, t, a1));
      Regroup(was, o.code, [Op1(e.op, t, a1)]);
      a := Name(t);
    }

    method BinaryLeftFirst(e: Exp) returns (a: Operand)
      requires e.Binary? && e.leftFirst && Table(code, lab2instr)
      modifies this`code, this`labels, this`temps, this`lab2instr
      ensures var o := LowerExp(e, old(labels), old(temps)); Added(o) && a == o.arg
      decreases e, 1
    {
      hide Table, LowerExp, LowerCond, Tail, Diamond;
      ghost var was, o1 := code, LowerExp(e.l, labels, temps);
      ghost var o2 := LowerExp(e.r, o1.lab, o1.tmp);
      BinaryOpens(e, labels, temps);
      var a1 := Expression(e.l);
      var a2 := Expression(e.r);
      Regroup(was, o1.code, o2.code);
      var t := NewTemp();
      Emit(Op2(e.op, t, a1, a2));
      Regroup(was, o1.code + o2.code, [Op2(e.op, t, a1, a2)]);
      a := Name(t);
    }

    method BinaryRightFirst(e: Exp) returns (a: Operand)
      requires e.Binary? && !e.leftFirst && Table(code, lab2instr)
      modifies this`code, this`labels, this`temps, this`lab2instr
      ensures var o := LowerExp(e, old(labels), old(temps)); Added(o) && a == o.arg
      decreases e, 1
    {
      hide Table, LowerExp, LowerCond, Tail, Diamond;
      ghost var was, o2 := code, LowerExp(e.r, labels, temps);
      ghost var o1 := LowerExp(e.l, o2.lab, o2.tmp);
      BinaryOpens(e, labels, temps);
      var a2 := Expression(e.r);
      var a1 := Expression(e.l);
      Regroup(was, o2.code, o1.code);
      var t := NewTemp();
      Emit(Op2(e.op, t, a1, a2));
      Regroup(was, o2.code + o1.code, [Op2(e.op, t, a1, a2)]);
      a := Name(t);
    }

    method Assignment(e: Exp) returns (a: Operand)
      requires e.Assign? && Table(code, lab2instr)
      modifies this`code, this`labels, this`temps, this`lab2instr
      ensures var o := LowerExp(e, old(labels), old(temps)); Added(o) && a == o.arg
      decreases e, 1
    {
      hide Table, LowerExp, LowerCond, Tail, Diamond;
      ghost var was, o := code, LowerExp(e.e, labels, temps);
      AssignOpens(e, labels, temps);
      var a1 := Expression(e.e);
      Emit(Asn(e.x, a1));
      Regroup(was, o.code, [Asn(e.x, a1)]);
      a := Name(e.x);
    }

    method CommaOperator(e: Exp) returns (a: Operand)
      requires e.Comma? && Table(code, lab2instr)
      modifies this`code, this`labels, this`temps, this`lab2instr
      ensures var o := LowerExp(e, old(labels), old(temps)); Added(o) && a == o.arg
      decreases e, 1
    {
      hide Table, LowerExp, LowerCond, Tail, Diamond;
      ghost var was, o1 := code, LowerExp(e.l, labels, temps);
      ghost var o2 := LowerExp(e.r, o1.lab, o1.tmp);
      CommaOpens(e, labels, temps);
      var a1 := Expression(e.l);
      a := Expression(e.r);
      Regroup(was, o1.code, o2.code);
    }

    method Conditional(e: Exp) returns (a: Operand)
      requires e.Cond? && Table(code, lab2instr)
      modifies this`code, this`labels, this`temps, this`lab2instr
      ensures var o := LowerExp(e, old(labels), old(temps)); Added(o) && a == o.arg
      decreases e, 1
    {
      hide Table, LowerExp, LowerCond, Tail, Diamond;
      ghost var was := code;
      ConditionalOpens(e, labels, temps);
      var l1 := NewLabel();
      var l2 := NewLabel();
      var l3 := NewLabel();
      ghost var o := LowerCond(e.c, l1, l2, labels, temps);
      Controlling(e.c, l1, l2);
      EmitLabel(l1);
      Regroup(was, o.code, [Lab(l1)]);
      var t := NewTemp();
      ghost var c1 := Arm(e.t, t);
      Emit(Jmp(l3));
      Regroup(was + (o.code + [Lab(l1)]), c1, [Jmp(l3)]);
      ghost var c2 := SecondArm(e.f, t, l2, l3);
      DiamondFrom(was, o.code, c1, c2, l1);
      a := Name(t);
    }

    /** The arm for false, between its label and the last one. */
    method SecondArm(e: Exp, t: nat, l2: nat, l3: nat) returns (ghost c: seq<Instr>)
      requires Table(code, lab2instr)
      modifies this`code, this`labels, this`temps, this`lab2instr
      ensures var o := LowerExp(e, old(labels), old(temps));
        c == o.code + [Asn(t, o.arg)] && Added(Out([Lab(l2)] + (c + [Lab(l3)]), o.arg, o.lab, o.tmp))
      decreases e, 4
    {
      hide Table, LowerExp, LowerCond, Tail, Diamond;
      ghost var was := code;
      EmitLabel(l2);
      c := Arm(e, t);
      EmitLabel(l3);
      Regroup(was + [Lab(l2)], c, [Lab(l3)]);
      Regroup(was, [Lab(l2)], c + [Lab(l3)]);
    }

    /** One arm of a conditional expression. */
    method Arm(e: Exp, t: nat) returns (ghost c: seq<Instr>)
      requires Table(code, lab2instr)
      modifies this`code, this`labels, this`temps, this`lab2instr
      ensures var o := LowerExp(e, old(labels), old(temps));
        c == o.code + [Asn(t, o.arg)] && Added(Out(c, o.arg, o.lab, o.tmp))
      decreases e, 3
    {
      hide Table, LowerExp, LowerCond, Tail, Diamond;
      ghost var was, o := code, LowerExp(e, labels, temps);
      var a := Expression(e);
      Emit(Asn(t, a));
      Regroup(was, o.code, [Asn(t, a)]);
      c := o.code + [Asn(t, a)];
    }

    /** && and || where the value is wanted. */
    method LogicValue(e: Exp) returns (a: Operand)
      requires (e.And? || e.Or?) && Table(code, lab2instr)
      modifies this`code, this`labels, this`temps, this`lab2instr
      ensures var o := LowerExp(e, old(labels), old(temps)); Added(o) && a == o.arg
      decreases e, 1
    {
      hide Table, LowerExp, LowerCond, Tail, Diamond;
      ghost var was := code;
      LogicOpens(e, labels, temps);
      var l1 := NewLabel();
      var l2 := NewLabel();
      var l3 := NewLabel();
      var l4 := NewLabel();
      var t := NewTemp();
      ghost var mid, one := if e.And? then l1 else l2, if e.And? then l2 else l1;
      ghost var o := ShortCode(e, mid, one, l3, labels, temps);
      if e.Or? {
        Operands(e, l1, l2, l2, l1, l3);
        EmitTail(l1, l3, l4, t);
      } else {
        Operands(e, l1, l3, l1, l2, l3);
        EmitTail(l2, l3, l4, t);
      }
      Regroup(was, o.code, Tail(one, l3, l4, t));
      a := Name(t);
    }

    /** The left operand with its targets, the label that leads to the right operand, and that operand. */
    method Operands(e: Exp, yes1: nat, no1: nat, mid: nat, yes: nat, no: nat)
      requires (e.And? || e.Or?) && Table(code, lab2instr)
      requires yes1 == (if e.And? then mid else yes) && no1 == if e.And? then no else mid
      modifies this`code, this`labels, this`temps, this`lab2instr
      ensures Added(ShortCode(e, mid, yes, no, old(labels), old(temps)))
      decreases e, 0
    {
      hide Table, LowerExp, LowerCond, Tail, Diamond;
      ghost var was, o1 := code, LowerCond(e.l, yes1, no1, labels, temps);
      Controlling(e.l, yes1, no1);
      EmitLabel(mid);
      Regroup(was, o1.code, [Lab(mid)]);
      ghost var o2 := LowerCond(e.r, yes, no, labels, temps);
      Controlling(e.r, yes, no);
      Regroup(was, o1.code + [Lab(mid)], o2.code);
    }

    method EmitTail(one: nat, zero: nat, end: nat, t: nat)
      requires Table(code, lab2instr)
      modifies this`code, this`lab2instr
      ensures code == old(code) + Tail(one, zero, end, t) && Table(code, lab2instr)
    {
      hide Table;
      EmitLabel(one);
      Emit(Asn(t, Imm(1)));
      Emit(Jmp(end));
      EmitLabel(zero);
      Emit(Asn(t, Imm(0)));
      EmitLabel(end);
    }

    /** ic_controlling_expression. */
    method Controlling(e: Exp, yes: nat, no: nat)
      requires Table(code, lab2instr)
      modifies this`code, this`labels, this`temps, this`lab2instr
      ensures Added(LowerCond(e, yes, no, old(labels), old(temps)))
      decreases e, 4
    {
      hide Table, LowerExp, LowerCond, Tail, Diamond, ShortCode;
      ghost var was := code;
      ControllingOpens(e, yes, no, labels, temps);
      if e.Or? {
        var l1 := NewLabel();
        Operands(e, yes, l1, l1, yes, no);
      } else if e.And? {
        var l1 := NewLabel();
        Operands(e, l1, no, l1, yes, no);
      } else {
        ghost var o := LowerExp(e, labels, temps);
        var a := Expression(e);
        Emit(CBr(yes, a, no));
        Regroup(was, o.code, [CBr(yes, a, no)]);
      }
    }

    ghost function Goals(): Targets
      reads this
    {
      Targets(Top(btargets), Top(ctargets), exit)
    }

    /** ic_statement. */
    method Statement(st: Stmt)
      requires Table(code, lab2instr)
      modifies this`code, this`labels, this`temps, this`lab2instr, this`btargets, this`ctargets
      ensures Added(LowerStmt(st, old(Goals()), LastLabel(None, old(code)), old(labels), old(temps)))
      ensures btargets == old(btargets) && ctargets == old(ctargets)
      decreases st, 2
    {
      hide Table, LowerStmt, LowerExp, LowerCond, LowerLoop, LoopParts, LowerOpt, LastLabel;
      ghost var prev := LastLabel(None, code);
      SimpleOpens(st, Goals(), prev, labels, temps);
      match st
      case Empty =>
        assert code + [] == code;
      case ExpStmt(e) =>
        var a := Expression(e);
      case Seq(first, second) =>
        ghost var was, o1 := code, LowerStmt(first, Goals(), prev, labels, temps);
        Statement(first);
        LastOfBoth(was, o1.code);
        ghost var o2 := LowerStmt(second, Goals(), LastLabel(prev, o1.code), labels, temps);
        Statement(second);
        Regroup(was, o1.code, o2.code);
      case If(_, _) =>
        IfStatement(st);
      case IfElse(_, _, _) =>
        IfElseStatement(st);
      case While(_, _) =>
        WhileStatement(st);
      case Do(_, _) =>
        DoStatement(st);
      case For(_, _, _, _) =>
        ForStatement(st);
      case Break =>
        Emit(Jmp(if btargets == [] then 0 else btargets[|btargets| - 1]));
      case Continue =>
        Emit(Jmp(if ctargets == [] then 0 else ctargets[|ctargets| - 1]));
      case Return(_) =>
        ReturnStatement(st);
    }

    method ReturnStatement(st: Stmt)
      requires st.Return? && Table(code, lab2instr)
      modifies this`code, this`labels, this`temps, this`lab2instr
      ensures Added(LowerStmt(st, old(Goals()), LastLabel(None, old(code)), old(labels), old(temps)))
    {
      hide Table, LowerExp, LowerCond;
      if st.result.Some? {
        ghost var was, o := code, LowerExp(st.result.value, labels, temps);
        var a := Expression(st.result.value);
        Emit(Ret(a));
        Emit(Jmp(exit));
        Regroup(was + o.code, [Ret(a)], [Jmp(exit)]);
        Regroup(was, o.code, [Ret(a), Jmp(exit)]);
      } else {
        Emit(Jmp(exit));
      }
    }

    method IfStatement(st: Stmt)
      requires st.If? && Table(code, lab2instr)
      modifies this`code, this`labels, this`temps, this`lab2instr, this`btargets, this`ctargets
      ensures Added(LowerStmt(st, old(Goals()), LastLabel(None, old(code)), old(labels), old(temps)))
      ensures btargets == old(btargets) && ctargets == old(ctargets)
      decreases st, 1
    {
      hide Table, LowerStmt, LowerExp, LowerCond, LowerLoop, LoopParts, LowerOpt, LastLabel;
      ghost var was := code;
      IfEmits(st, Goals(), LastLabel(None, code), labels, temps);
      var l1 := NewLabel();
      var l2 := NewLabel();
      ghost var o := LowerCond(st.c, l1, l2, labels, temps);
      Controlling(st.c, l1, l2);
      EmitLabel(l1);
      Regroup(was, o.code, [Lab(l1)]);
      EndsInLabel(code, l1);
      ghost var o1 := LowerStmt(st.t, Goals(), Some(l1), labels, temps);
      Statement(st.t);
      Regroup(was, o.code + [Lab(l1)], o1.code);
      EmitLabel(l2);
      Regroup(was, o.code + [Lab(l1)] + o1.code, [Lab(l2)]);
    }

    method IfElseStatement(st: Stmt)
      requires st.IfElse? && Table(code, lab2instr)
      modifies this`code, this`labels, this`temps, this`lab2instr, this`btargets, this`ctargets
      ensures Added(LowerStmt(st, old(Goals()), LastLabel(None, old(code)), old(labels), old(temps)))
      ensures btargets == old(btargets) && ctargets == old(ctargets)
      decreases st, 1
    {
      hide Table, LowerStmt, LowerExp, LowerCond, LowerLoop, LoopParts, LowerOpt, LastLabel, Diamond;
      ghost var was := code;
      IfElseEmits(st, Goals(), LastLabel(None, code), labels, temps);
      var l1 := NewLabel();
      var l2 := NewLabel();
      var l3 := NewLabel();
      ghost var o := LowerCond(st.c, l1, l2, labels, temps);
      Controlling(st.c, l1, l2);
      EmitLabel(l1);
      Regroup(was, o.code, [Lab(l1)]);
      EndsInLabel(code, l1);
      ghost var o1 := LowerStmt(st.t, Goals(), Some(l1), labels, temps);
      Statement(st.t);
      Emit(Jmp(l3));
      Regroup(was + (o.code + [Lab(l1)]), o1.code, [Jmp(l3)]);
      ghost var o2 := ElseBranch(st.f, l2, l3);
      DiamondFrom(was, o.code, o1.code, o2.code, l1);
    }

    /** The code for false, between its label and the last one. */
    method ElseBranch(st: Stmt, l2: nat, l3: nat) returns (ghost o: Out)
      requires Table(code, lab2instr)
      modifies this`code, this`labels, this`temps, this`lab2instr, this`btargets, this`ctargets
      ensures o == LowerStmt(st, old(Goals()), Some(l2), old(labels), old(temps))
      ensures Added(Out([Lab(l2)] + (o.code + [Lab(l3)]), o.arg, o.lab, o.tmp))
      ensures btargets == old(btargets) && ctargets == old(ctargets)
      decreases st, 3
    {
      hide Table, LowerStmt, LastLabel;
      ghost var was := code;
      o := LowerStmt(st, Goals(), Some(l2), labels, temps);
      EmitLabel(l2);
      EndsInLabel(code, l2);
      Statement(st);
      EmitLabel(l3);
      Regroup(was + [Lab(l2)], o.code, [Lab(l3)]);
      Regroup(was, [Lab(l2)], o.code + [Lab(l3)]);
    }

    method WhileStatement(st: Stmt)
      requires st.While? && Table(code, lab2instr)
      modifies this`code, this`labels, this`temps, this`lab2instr, this`btargets, this`ctargets
      ensures Added(LowerStmt(st, old(Goals()), LastLabel(None, old(code)), old(labels), old(temps)))
      ensures btargets == old(btargets) && ctargets == old(ctargets)
      decreases st, 1
    {
      hide Table, LowerStmt, LowerExp, LowerCond, LowerLoop, LoopParts, LowerOpt, LastLabel;
      ghost var was := code;
      WhileEmits(st, Goals(), LastLabel(None, code), labels, temps);
      var l1 := NewLabel();
      var l2 := NewLabel();
      var l3 := NewLabel();
      ghost var o := LowerCond(st.c, l1, l3, labels, temps);
      Controlling(st.c, l1, l3);
      EmitLabel(l1);
      Regroup(was, o.code, [Lab(l1)]);
      EndsInLabel(code, l1);
      ghost var o1 := LowerLoop(st.body, None, Some(st.c), l1, l2, l3, Goals(), labels, temps);
      Loop(st.body, None, Some(st.c), l1, l2, l3);
      Regroup(was, o.code + [Lab(l1)], o1.code);
    }

    /** A label that ends the code so far is used again. */
    method DoStatement(st: Stmt)
      requires st.Do? && Table(code, lab2instr)
      modifies this`code, this`labels, this`temps, this`lab2instr, this`btargets, this`ctargets
      ensures Added(LowerStmt(st, old(Goals()), LastLabel(None, old(code)), old(labels), old(temps)))
      ensures btargets == old(btargets) && ctargets == old(ctargets)
      decreases st, 1
    {
      hide Table, LowerStmt, LowerExp, LowerCond, LowerLoop, LoopParts, LowerOpt;
      ghost var was := code;
      DoEmits(st, Goals(), LastLabel(None, code), labels, temps);
      var l2 := NewLabel();
      var l3 := NewLabel();
      if code != [] && code[|code| - 1].Lab? {
        Loop(st.body, None, Some(st.c), code[|code| - 1].l, l2, l3);
      } else {
        var l1 := NewLabel();
        EmitLabel(l1);
        ghost var o1 := LowerLoop(st.body, None, Some(st.c), l1, l2, l3, Goals(), labels, temps);
        Loop(st.body, None, Some(st.c), l1, l2, l3);
        Regroup(was, [Lab(l1)], o1.code);
      }
    }

    method ForStatement(st: Stmt)
      requires st.For? && Table(code, lab2instr)
      modifies this`code, this`labels, this`temps, this`lab2instr, this`btargets, this`ctargets
      ensures Added(LowerStmt(st, old(Goals()), LastLabel(None, old(code)), old(labels), old(temps)))
      ensures btargets == old(btargets) && ctargets == old(ctargets)
      decreases st, 1
    {
      hide Table, LowerStmt, LowerExp, LowerCond, LowerLoop, LoopParts, LowerOpt, LastLabel;
      ghost var was := code;
      ForEmits(st, Goals(), LastLabel(None, code), labels, temps);
      var l1 := NewLabel();
      var l2 := NewLabel();
      var l3 := NewLabel();
      ghost var o0 := LowerOpt(st.init, labels, temps);
      Optional(st.init);
      ghost var o := if st.test.Some? then LowerCond(st.test.value, l1, l3, labels, temps)
          else Out([], Imm(0), labels, temps);
      if st.test.Some? {
        Controlling(st.test.value, l1, l3);
      } else {
        assert code + [] == code;
      }
      Regroup(was, o0.code, o.code);
      EmitLabel(l1);
      Regroup(was, o0.code + o.code, [Lab(l1)]);
      EndsInLabel(code, l1);
      ghost var o1 := LowerLoop(st.body, st.step, st.test, l1, l2, l3, Goals(), labels, temps);
      Loop(st.body, st.step, st.test, l1, l2, l3);
      Regroup(was, o0.code + o.code + [Lab(l1)], o1.code);
    }

    method Optional(e: Option<Exp>)
      requires Table(code, lab2instr)
      modifies this`code, this`labels, this`temps, this`lab2instr
      ensures Added(LowerOpt(e, old(labels), old(temps)))
    {
      hide Table, LowerExp;
      if e.Some? {
        var a := Expression(e.value);
      } else {
        assert code + [] == code;
      }
    }

    /** The body, with its targets pushed and popped again, the step and the second copy of the test. */
    method Loop(body: Stmt, step: Option<Exp>, test: Option<Exp>, l1: nat, l2: nat, l3: nat)
      requires Table(code, lab2instr) && LastLabel(None, code) == Some(l1)
      modifies this`code, this`labels, this`temps, this`lab2instr, this`btargets, this`ctargets
      ensures Added(LowerLoop(body, step, test, l1, l2, l3, old(Goals()), old(labels), old(temps)))
      ensures btargets == old(btargets) && ctargets == old(ctargets)
      decreases body, 3
    {
      hide Table, LowerStmt, LowerExp, LowerCond, LowerLoop, LoopParts, LowerOpt, LastLabel;
      ghost var was := code;
      LoopEmits(body, step, test, l1, l2, l3, Goals(), labels, temps);
      ghost var (o1, o2, o3) := LoopParts(body, step, test, l1, l2, l3, Goals(), labels, temps);
      btargets, ctargets := btargets + [l3], ctargets + [l2];
      Statement(body);
      btargets, ctargets := btargets[..|btargets| - 1], ctargets[..|ctargets| - 1];
      EmitLabel(l2);
      Regroup(was, o1.code, [Lab(l2)]);
      Optional(step);
      Regroup(was, o1.code + [Lab(l2)], o2.code);
      if test.Some? {
        Controlling(test.value, l1, l3);
      } else {
        Emit(Jmp(l1));
      }
      Regroup(was, o1.code + [Lab(l2)] + o2.code, o3.code);
      EmitLabel(l3);
      Regroup(was, o1.code + [Lab(l2)] + o2.code + o3.code, [Lab(l3)]);
    }

    /** A function: entry block, body, the target of return, exit block. */
    method Function(st: Stmt)
      requires Table(code, lab2instr) && code == [] && labels == 0 && btargets == [] && ctargets == []
      modifies this
      ensures code == LowerFunction(st, old(temps)) && Table(code, lab2instr)
      ensures forall l :: l in lab2instr ==> lab2instr[l] == Find(code, l)
    {
      hide Table, LowerFunction, Find;
      FunctionParts(st);
      UniqueFunction(st, old(temps));
      forall l | l in lab2instr ensures lab2instr[l] == Find(code, l) {
        TableFinds(code, lab2instr, l);
      }
    }

    /** The jump into the function, and the label of its body. */
    method Entry()
      requires Table(code, lab2instr) && code == [] && labels == 0
      modifies this`code, this`labels, this`exit, this`lab2instr
      ensures Table(code, lab2instr) && code == [Jmp(0), Lab(0)] && labels == 2 && exit == 1
    {
      hide Table, Find;
      var entry := NewLabel();
      exit := NewLabel();
      Emit(Jmp(entry));
      EmitLabel(entry);
    }

    method FunctionParts(st: Stmt)
      requires Table(code, lab2instr) && code == [] && labels == 0 && btargets == [] && ctargets == []
      modifies this
      ensures code == LowerFunction(st, old(temps)) && Table(code, lab2instr)
    {
      hide Table, LowerStmt, LastLabel, LowerFunction, Find;
      FunctionEmits(st, temps);
      Entry();
      assert code == [Jmp(0)] + [Lab(0)];
      EndsInLabel(code, 0);
      Statement(st);
      EmitLabel(exit);
      exit := NewLabel();
      Emit(Jmp(exit));
      EmitLabel(exit);
    }
  }

  lemma Regroup(a: seq<Instr>, b: seq<Instr>, c: seq<Instr>)
    ensures a + b + c == a + (b + c)
  {
  }

  lemma DiamondFrom(was: seq<Instr>, c: seq<Instr>, c1: seq<Instr>, c2: seq<Instr>, lab: nat)
    ensures was + (c + [Lab(lab)]) + (c1 + [Jmp(lab + 2)]) + ([Lab(lab + 1)] + (c2 + [Lab(lab + 2)])) == was
            + Diamond(c, c1, c2, lab)
  {
    Regroup(was, c + [Lab(lab)], c1 + [Jmp(lab + 2)]);
    Regroup(was, c + [Lab(lab)] + (c1 + [Jmp(lab + 2)]), [Lab(lab + 1)] + (c2 + [Lab(lab + 2)]));
  }

  // The lowering functions, opened one level.

  lemma LeafOpens(e: Exp, lab: nat, tmp: nat)
    ensures e.Const? ==> LowerExp(e, lab, tmp) == Out([], Imm(e.v), lab, tmp)
    ensures e.Var? ==> LowerExp(e, lab, tmp) == Out([], Name(e.x), lab, tmp)
  {
  }

  lemma UnaryOpens(e: Exp, lab: nat, tmp: nat)
    requires e.Unary?
    ensures var o := LowerExp(e.e, lab, tmp);
      LowerExp(e, lab, tmp) == Out(o.code + [Op1(e.op, o.tmp, o.arg)], Name(o.tmp), o.lab, o.tmp + 1)
  {
  }

  lemma BinaryOpens(e: Exp, lab: nat, tmp: nat)
    requires e.Binary?
    ensures e.leftFirst ==>
      var o1 := LowerExp(e.l, lab, tmp);
      var o2 := LowerExp(e.r, o1.lab, o1.tmp);
      LowerExp(e, lab, tmp) == Out(o1.code + o2.code + [Op2(e.op, o2.tmp, o1.arg, o2.arg)], Name(o2.tmp), o2.lab,
          o2.tmp + 1)
    ensures !e.leftFirst ==>
      var o2 := LowerExp(e.r, lab, tmp);
      var o1 := LowerExp(e.l, o2.lab, o2.tmp);
      LowerExp(e, lab, tmp) == Out(o2.code + o1.code + [Op2(e.op, o1.tmp, o1.arg, o2.arg)], Name(o1.tmp), o1.lab,
          o1.tmp + 1)
  {
  }

  lemma AssignOpens(e: Exp, lab: nat, tmp: nat)
    requires e.Assign?
    ensures var o := LowerExp(e.e, lab, tmp);
      LowerExp(e, lab, tmp) == Out(o.code + [Asn(e.x, o.arg)], Name(e.x), o.lab, o.tmp)
  {
  }

  lemma CommaOpens(e: Exp, lab: nat, tmp: nat)
    requires e.Comma?
    ensures var o1 := LowerExp(e.l, lab, tmp);
      var o2 := LowerExp(e.r, o1.lab, o1.tmp);
      LowerExp(e, lab, tmp) == Out(o1.code + o2.code, o2.arg, o2.lab, o2.tmp)
  {
  }

  lemma ConditionalOpens(e: Exp, lab: nat, tmp: nat)
    requires e.Cond?
    ensures var o := LowerCond(e.c, lab, lab + 1, lab + 3, tmp);
      var o1 := LowerExp(e.t, o.lab, o.tmp + 1);
      var o2 := LowerExp(e.f, o1.lab, o1.tmp);
      LowerExp(e, lab, tmp) == Out(Diamond(o.code, o1.code + [Asn(o.tmp, o1.arg)], o2.code + [Asn(o.tmp, o2.arg)],
          lab), Name(o.tmp), o2.lab, o2.tmp)
  {
  }

  lemma LogicOpens(e: Exp, lab: nat, tmp: nat)
    requires e.And? || e.Or?
    ensures var one := if e.And? then lab + 1 else lab;
      var o := ShortCode(e, if e.And? then lab else lab + 1, one, lab + 2, lab + 4, tmp + 1);
      LowerExp(e, lab, tmp) == Out(o.code + Tail(one, lab + 2, lab + 3, tmp), Name(tmp), o.lab, o.tmp)
  {
  }

  lemma ControllingOpens(e: Exp, yes: nat, no: nat, lab: nat, tmp: nat)
    ensures e.And? || e.Or? ==> LowerCond(e, yes, no, lab, tmp) == ShortCode(e, lab, yes, no, lab + 1, tmp)
    ensures !e.And? && !e.Or? ==>
      var o := LowerExp(e, lab, tmp);
      LowerCond(e, yes, no, lab, tmp) == Out(o.code + [CBr(yes, o.arg, no)], Imm(0), o.lab, o.tmp)
  {
  }

  function Top(s: seq<nat>): Option<nat> { if s == [] then None else Some(s[|s| - 1]) }

  lemma LastOfBoth(a: seq<Instr>, b: seq<Instr>)
    ensures LastLabel(None, a + b) == LastLabel(LastLabel(None, a), b)
  {
    if b == [] {
      assert a + b == a;
    } else {
      assert (a + b)[|a + b| - 1] == b[|b| - 1];
    }
  }

  lemma EndsInLabel(code: seq<Instr>, l: nat)
    requires code != [] && code[|code| - 1] == Lab(l)
    ensures LastLabel(None, code) == Some(l)
  {
  }

  lemma SimpleOpens(st: Stmt, g: Targets, prev: Option<nat>, lab: nat, tmp: nat)
    ensures st.Empty? ==> LowerStmt(st, g, prev, lab, tmp) == Out([], Imm(0), lab, tmp)
    ensures st.ExpStmt? ==> LowerStmt(st, g, prev, lab, tmp) == LowerExp(st.e, lab, tmp)
    ensures st.Seq? ==>
      var o1 := LowerStmt(st.first, g, prev, lab, tmp);
      var o2 := LowerStmt(st.second, g, LastLabel(prev, o1.code), o1.lab, o1.tmp);
      LowerStmt(st, g, prev, lab, tmp) == Out(o1.code + o2.code, Imm(0), o2.lab, o2.tmp)
    ensures st.Break? ==> LowerStmt(st, g, prev, lab, tmp) == Out([Jmp(if g.brk.Some? then g.brk.value else 0)],
            Imm(0), lab, tmp)
    ensures st.Continue? ==>
      LowerStmt(st, g, prev, lab, tmp) == Out([Jmp(if g.cont.Some? then g.cont.value else 0)], Imm(0), lab, tmp)
  {
  }

  lemma IfEmits(st: Stmt, g: Targets, prev: Option<nat>, lab: nat, tmp: nat)
    requires st.If?
    ensures var o := LowerCond(st.c, lab, lab + 1, lab + 2, tmp);
      var o1 := LowerStmt(st.t, g, Some(lab), o.lab, o.tmp);
      LowerStmt(st, g, prev, lab, tmp) == Out(o.code + [Lab(lab)] + o1.code + [Lab(lab + 1)], Imm(0), o1.lab, o1.tmp)
  {
  }

  lemma IfElseEmits(st: Stmt, g: Targets, prev: Option<nat>, lab: nat, tmp: nat)
    requires st.IfElse?
    ensures var o := LowerCond(st.c, lab, lab + 1, lab + 3, tmp);
      var o1 := LowerStmt(st.t, g, Some(lab), o.lab, o.tmp);
      var o2 := LowerStmt(st.f, g, Some(lab + 1), o1.lab, o1.tmp);
      LowerStmt(st, g, prev, lab, tmp) == Out(Diamond(o.code, o1.code, o2.code, lab), Imm(0), o2.lab, o2.tmp)
  {
  }

  lemma WhileEmits(st: Stmt, g: Targets, prev: Option<nat>, lab: nat, tmp: nat)
    requires st.While?
    ensures var o := LowerCond(st.c, lab, lab + 2, lab + 3, tmp);
      var o1 := LowerLoop(st.body, None, Some(st.c), lab, lab + 1, lab + 2, g, o.lab, o.tmp);
      LowerStmt(st, g, prev, lab, tmp) == Out(o.code + [Lab(lab)] + o1.code, Imm(0), o1.lab, o1.tmp)
  {
  }

  lemma DoEmits(st: Stmt, g: Targets, prev: Option<nat>, lab: nat, tmp: nat)
    requires st.Do?
    ensures prev.Some? ==>
      LowerStmt(st, g, prev, lab, tmp) == LowerLoop(st.body, None, Some(st.c), prev.value, lab, lab + 1, g, lab + 2,
          tmp)
    ensures prev.None? ==>
      var o1 := LowerLoop(st.body, None, Some(st.c), lab + 2, lab, lab + 1, g, lab + 3, tmp);
      LowerStmt(st, g, prev, lab, tmp) == Out([Lab(lab + 2)] + o1.code, Imm(0), o1.lab, o1.tmp)
  {
  }

  lemma ForEmits(st: Stmt, g: Targets, prev: Option<nat>, lab: nat, tmp: nat)
    requires st.For?
    ensures var o0 := LowerOpt(st.init, lab + 3, tmp);
      var o := if st.test.Some? then LowerCond(st.test.value, lab, lab + 2, o0.lab, o0.tmp)
          else Out([], Imm(0), o0.lab, o0.tmp);
      var o1 := LowerLoop(st.body, st.step, st.test, lab, lab + 1, lab + 2, g, o.lab, o.tmp);
      LowerStmt(st, g, prev, lab, tmp) == Out(o0.code + o.code + [Lab(lab)] + o1.code, Imm(0), o1.lab, o1.tmp)
  {
  }

  lemma LoopEmits(body: Stmt, step: Option<Exp>, test: Option<Exp>, l1: nat, l2: nat, l3: nat, g: Targets, lab: nat,
      tmp: nat)
    ensures var (o1, o2, o3) := LoopParts(body, step, test, l1, l2, l3, g, lab, tmp);
      && LowerLoop(body, step, test, l1, l2, l3, g, lab, tmp)
          == Out(o1.code + [Lab(l2)] + o2.code + o3.code + [Lab(l3)], Imm(0), o3.lab, o3.tmp)
      && o1 == LowerStmt(body, Targets(Some(l3), Some(l2), g.exit), Some(l1), lab, tmp)
      && o2 == LowerOpt(step, o1.lab, o1.tmp)
      && o3 == if test.Some? then LowerCond(test.value, l1, l3, o2.lab, o2.tmp)
          else Out([Jmp(l1)], Imm(0), o2.lab, o2.tmp)
  {
  }

  lemma FunctionEmits(st: Stmt, base: nat)
    ensures var o := LowerStmt(st, Targets(None, None, EXIT), Some(ENTRY), 2, base);
      LowerFunction(st, base) == [] + [Jmp(ENTRY)] + [Lab(ENTRY)] + o.code + [Lab(EXIT)] + [Jmp(o.lab)] + [Lab(o.lab)]
  {
    hide LowerStmt;
  }
}
