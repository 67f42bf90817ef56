/** Lowered functions have the form that the construction of basic blocks relies on. */
module LoweredCfg {
  import opened Lowering
  import opened Cfg
  import LoweringEmit

  /** The labels an instruction, or a piece of code, can jump to. */
  function RefsOf(i: Instr): set<nat> {
    match i
    case Jmp(l) => {l}
    case CBr(yes, _, no) => {yes, no}
    case _ => {}
  }

  function Refs(code: seq<Instr>): set<nat> {
    set k, l | 0 <= k < |code| && l in RefsOf(code[k]) :: l
  }

  predicate Closed(code: seq<Instr>) { code != [] ==> !code[|code| - 1].CBr? }

  /** Behind every conditional branch stands a label that something jumps to. */
  predicate Tidy(code: seq<Instr>) {
    forall i :: 0 <= i < |code| - 1 && code[i].CBr? ==> code[i + 1].Lab? && code[i + 1].l in Refs(code)
  }

  /** Tidy, and jumping only to its own labels and to these. */
  predicate Shaped(code: seq<Instr>, ext: set<nat>) {
    Tidy(code) && Refs(code) <= Labels(code) + ext
  }

  lemma RefsConcat(a: seq<Instr>, b: seq<Instr>)
    ensures Refs(a + b) == Refs(a) + Refs(b)
  {
    var ab := a + b;
    forall l | l in Refs(a) + Refs(b) ensures l in Refs(ab) {
      if l in Refs(a) {
        var k :| 0 <= k < |a| && l in RefsOf(a[k]);
        assert ab[k] == a[k];
      } else {
        var k :| 0 <= k < |b| && l in RefsOf(b[k]);
        assert ab[|a| + k] == b[k];
      }
    }
    forall l | l in Refs(ab) ensures l in Refs(a) + Refs(b) {
      var k :| 0 <= k < |ab| && l in RefsOf(ab[k]);
      assert k >= |a| ==> ab[k] == b[k - |a|];
    }
  }

  lemma Join(a: seq<Instr>, b: seq<Instr>, extA: set<nat>, extB: set<nat>, ext: set<nat>)
    requires Shaped(a, extA) && Shaped(b, extB) && extA + extB <= ext + Labels(a) + Labels(b)
    requires Closed(a) || (b != [] && b[0].Lab? && b[0].l in Refs(a))
    ensures Shaped(a + b, ext) && Refs(a + b) == Refs(a) + Refs(b) && Labels(a + b) == Labels(a) + Labels(b)
    ensures Closed(b) && (b != [] || Closed(a)) ==> Closed(a + b)
  {
    RefsConcat(a, b);
    LabelsConcat(a, b);
    var ab := a + b;
    forall i | 0 <= i < |ab| - 1 && ab[i].CBr? ensures ab[i + 1].Lab? && ab[i + 1].l in Refs(ab) {
      if i >= |a| {
        assert ab[i] == b[i - |a|] && ab[i + 1] == b[i - |a| + 1];
      } else if i == |a| - 1 {
        assert ab[i] == a[i] && ab[i + 1] == b[0];
      } else {
        assert ab[i] == a[i] && ab[i + 1] == a[i + 1];
      }
    }
  }

  lemma One(i: Instr)
    ensures Shaped([i], RefsOf(i)) && Refs([i]) == RefsOf(i) && Labels([i]) == if i.Lab? then {i.l} else {}
    ensures Closed([i]) <==> !i.CBr?
  {
    assert [i][0] == i;
  }

  lemma EmptyShaped()
    ensures Shaped([], {}) && Closed([]) && Refs([]) == {} && Labels([]) == {}
  {
  }

  /** One more instruction that is no branch. */
  lemma Push(code: seq<Instr>, was: set<nat>, i: Instr, ext: set<nat>)
    requires Shaped(code, was) && !i.CBr? && (Closed(code) || (i.Lab? && i.l in Refs(code)))
    requires was + RefsOf(i) <= ext + Labels(code) + if i.Lab? then {i.l} else {}
    ensures Shaped(code + [i], ext) && Closed(code + [i])
    ensures Refs(code + [i]) == Refs(code) + RefsOf(i) && Labels(code + [i]) == Labels(code) + if i.Lab? then {i.l}
            else {}
  {
    hide Shaped, Refs, Labels, Closed;
    One(i);
    Join(code, [i], was, RefsOf(i), ext);
  }

  lemma ShapedTail(one: nat, zero: nat, end: nat, a: nat)
    ensures var t := Tail(one, zero, end, a);
      Shaped(t, {}) && Closed(t) && Labels(t) == {one, zero, end} && t != [] && t[0] == Lab(one)
  {
    var t := Tail(one, zero, end, a);
    assert t[0] == Lab(one) && t[2] == Jmp(end) && t[3] == Lab(zero) && t[5] == Lab(end);
    forall l | l in Refs(t) ensures l == end {
      var k :| 0 <= k < |t| && l in RefsOf(t[k]);
    }
  }

  lemma ShapedDiamond(c: seq<Instr>, c1: seq<Instr>, c2: seq<Instr>, lab: nat, ext: set<nat>)
    requires Shaped(c, {lab, lab + 1}) && {lab, lab + 1} <= Refs(c)
    requires Shaped(c1, ext + {lab}) && Closed(c1) && Shaped(c2, ext + {lab + 1}) && Closed(c2)
    ensures Shaped(Diamond(c, c1, c2, lab), ext) && Closed(Diamond(c, c1, c2, lab))
  {
    hide Shaped, Refs, Labels, Closed;
    var e1, e2 := ext + {lab + 1, lab + 2}, ext;
    Push(c, {lab, lab + 1}, Lab(lab), {lab + 1});
    Push(c1, ext + {lab}, Jmp(lab + 2), ext + {lab, lab + 2});
    Join(c + [Lab(lab)], c1 + [Jmp(lab + 2)], {lab + 1}, ext + {lab, lab + 2}, e1);
    Push(c2, ext + {lab + 1}, Lab(lab + 2), ext + {lab + 1});
    One(Lab(lab + 1));
    Join([Lab(lab + 1)], c2 + [Lab(lab + 2)], {}, ext + {lab + 1}, e2);
    Join(c + [Lab(lab)] + (c1 + [Jmp(lab + 2)]), [Lab(lab + 1)] + (c2 + [Lab(lab + 2)]), e1, e2, ext);
  }

  lemma {:induction false} ShapedExp(e: Exp, lab: nat, tmp: nat)
    ensures var o := LowerExp(e, lab, tmp); Shaped(o.code, {}) && Closed(o.code)
    decreases e, 2
  {
    hide Shaped, Refs, Labels, Closed, Diamond, Tail;
    EmptyShaped();
    match e
    case Const(_) =>
    case Var(_) =>
    case Unary(op, a) =>
      var o := LowerExp(a, lab, tmp);
      ShapedExp(a, lab, tmp);
      Push(o.code, {}, Op1(op, o.tmp, o.arg), {});
    case Binary(op, l, r, true) =>
      var o1 := LowerExp(l, lab, tmp);
      var o2 := LowerExp(r, o1.lab, o1.tmp);
      ShapedExp(l, lab, tmp);
      ShapedExp(r, o1.lab, o1.tmp);
      Join(o1.code, o2.code, {}, {}, {});
      ClosedJoin(o1.code, o2.code);
      Push(o1.code + o2.code, {}, Op2(op, o2.tmp, o1.arg, o2.arg), {});
    case Binary(op, l, r, false) =>
      var o2 := LowerExp(r, lab, tmp);
      var o1 := LowerExp(l, o2.lab, o2.tmp);
      ShapedExp(r, lab, tmp);
      ShapedExp(l, o2.lab, o2.tmp);
      Join(o2.code, o1.code, {}, {}, {});
      ClosedJoin(o2.code, o1.code);
      Push(o2.code + o1.code, {}, Op2(op, o1.tmp, o1.arg, o2.arg), {});
    case Assign(x, a) =>
      var o := LowerExp(a, lab, tmp);
      ShapedExp(a, lab, tmp);
      Push(o.code, {}, Asn(x, o.arg), {});
    case Comma(l, r) =>
      var o1 := LowerExp(l, lab, tmp);
      var o2 := LowerExp(r, o1.lab, o1.tmp);
      ShapedExp(l, lab, tmp);
      ShapedExp(r, o1.lab, o1.tmp);
      Join(o1.code, o2.code, {}, {}, {});
      ClosedJoin(o1.code, o2.code);
    case Cond(_, _, _) => ShapedCondExp(e, lab, tmp);
    case Or(_, _) => ShapedLogic(e, lab, tmp);
    case And(_, _) => ShapedLogic(e, lab, tmp);
  }

  lemma {:induction false} ShapedCondExp(e: Exp, lab: nat, tmp: nat)
    requires e.Cond?
    ensures var o := LowerExp(e, lab, tmp); Shaped(o.code, {}) && Closed(o.code)
    decreases e, 1
  {
    hide Shaped, Refs, Labels, Closed, Diamond;
    var o := LowerCond(e.c, lab, lab + 1, lab + 3, tmp);
    var o1 := LowerExp(e.t, o.lab, o.tmp + 1);
    var o2 := LowerExp(e.f, o1.lab, o1.tmp);
    ShapedCond(e.c, lab, lab + 1, lab + 3, tmp);
    ShapedExp(e.t, o.lab, o.tmp + 1);
    ShapedExp(e.f, o1.lab, o1.tmp);
    Push(o1.code, {}, Asn(o.tmp, o1.arg), {} + {lab});
    Push(o2.code, {}, Asn(o.tmp, o2.arg), {} + {lab + 1});
    ShapedDiamond(o.code, o1.code + [Asn(o.tmp, o1.arg)], o2.code + [Asn(o.tmp, o2.arg)], lab, {});
  }

  lemma ClosedJoin(a: seq<Instr>, b: seq<Instr>)
    requires Closed(a) && Closed(b)
    ensures Closed(a + b)
  {
    if b == [] {
      assert a + b == a;
    }
  }

  lemma {:induction false} ShapedLogic(e: Exp, lab: nat, tmp: nat)
    requires e.And? || e.Or?
    ensures var o := LowerExp(e, lab, tmp); Shaped(o.code, {}) && Closed(o.code)
    decreases e, 1
  {
    hide Shaped, Refs, Labels, Closed, Tail;
    var mid, one := if e.And? then lab else lab + 1, if e.And? then lab + 1 else lab;
    var o := ShortCode(e, mid, one, lab + 2, lab + 4, tmp + 1);
    ShapedShort(e, mid, one, lab + 2, lab + 4, tmp + 1);
    ShapedTail(one, lab + 2, lab + 3, tmp);
    var tail := Tail(one, lab + 2, lab + 3, tmp);
    Join(o.code, tail, {one, lab + 2}, {}, {});
  }

  lemma {:induction false} ShapedShort(e: Exp, mid: nat, yes: nat, no: nat, lab: nat, tmp: nat)
    requires e.And? || e.Or?
    ensures var o := ShortCode(e, mid, yes, no, lab, tmp); Shaped(o.code, {yes, no}) && {yes, no} <= Refs(o.code)
    decreases e, 0
  {
    hide Shaped, Refs, Labels, Closed;
    var y1, n1 := if e.And? then mid else yes, if e.And? then no else mid;
    var o1 := LowerCond(e.l, y1, n1, lab, tmp);
    var o2 := LowerCond(e.r, yes, no, o1.lab, o1.tmp);
    ShapedCond(e.l, y1, n1, lab, tmp);
    ShapedCond(e.r, yes, no, o1.lab, o1.tmp);
    Push(o1.code, {y1, n1}, Lab(mid), {yes, no});
    Join(o1.code + [Lab(mid)], o2.code, {yes, no}, {yes, no}, {yes, no});
  }

  lemma {:induction false} ShapedCond(e: Exp, yes: nat, no: nat, lab: nat, tmp: nat)
    ensures var o := LowerCond(e, yes, no, lab, tmp); Shaped(o.code, {yes, no}) && {yes, no} <= Refs(o.code)
    decreases e, 3
  {
    hide Shaped, Refs, Labels, Closed;
    if e.And? || e.Or? {
      ShapedShort(e, lab, yes, no, lab + 1, tmp);
    } else {
      var o := LowerExp(e, lab, tmp);
      ShapedExp(e, lab, tmp);
      One(CBr(yes, o.arg, no));
      Join(o.code, [CBr(yes, o.arg, no)], {}, {yes, no}, {yes, no});
    }
  }

  lemma {:induction false} ShapedOpt(e: Option<Exp>, lab: nat, tmp: nat)
    ensures var o := LowerOpt(e, lab, tmp); Shaped(o.code, {}) && Closed(o.code)
  {
    if e.Some? {
      ShapedExp(e.value, lab, tmp);
    }
  }

  /** The labels a statement may jump to besides its own. */
  function Outer(g: Targets, prev: Option<nat>): set<nat> {
    {g.exit} + (if g.brk.Some? then {g.brk.value} else {}) + (if g.cont.Some? then {g.cont.value} else {})
    + (if prev.Some? then {prev.value} else {})
  }

  lemma {:induction false} ShapedStmt(st: Stmt, g: Targets, prev: Option<nat>, lab: nat, tmp: nat, base: nat)
    requires Legal(st, base, g.brk.Some? && g.cont.Some?)
    ensures var o := LowerStmt(st, g, prev, lab, tmp); Shaped(o.code, Outer(g, prev)) && Closed(o.code)
    decreases st, 1
  {
    hide Shaped, Refs, Labels, Closed, Diamond, LowerLoop, LoopParts, LowerExp, LowerCond, LowerOpt;
    EmptyShaped();
    var ext := Outer(g, prev);
    match st
    case Empty => Wider([], {}, ext);
    case Break | Continue | Return(_) => ShapedJump(st, g, prev, lab, tmp, base);
    case ExpStmt(e) =>
      ShapedExp(e, lab, tmp);
      Wider(LowerExp(e, lab, tmp).code, {}, ext);
    case Seq(a, b) =>
      var o1 := LowerStmt(a, g, prev, lab, tmp);
      var prev1 := LastLabel(prev, o1.code);
      var o2 := LowerStmt(b, g, prev1, o1.lab, o1.tmp);
      ShapedStmt(a, g, prev, lab, tmp, base);
      ShapedStmt(b, g, prev1, o1.lab, o1.tmp, base);
      LastIsLabel(prev, o1.code);
      Join(o1.code, o2.code, ext, Outer(g, prev1), ext);
      ClosedJoin(o1.code, o2.code);
    case If(_, _) => ShapedIf(st, g, prev, lab, tmp, base);
    case IfElse(c, a, b) =>
      var o := LowerCond(c, lab, lab + 1, lab + 3, tmp);
      var o1 := LowerStmt(a, g, Some(lab), o.lab, o.tmp);
      var o2 := LowerStmt(b, g, Some(lab + 1), o1.lab, o1.tmp);
      ShapedCond(c, lab, lab + 1, lab + 3, tmp);
      ShapedStmt(a, g, Some(lab), o.lab, o.tmp, base);
      ShapedStmt(b, g, Some(lab + 1), o1.lab, o1.tmp, base);
      Wider(o1.code, Outer(g, Some(lab)), ext + {lab});
      Wider(o2.code, Outer(g, Some(lab + 1)), ext + {lab + 1});
      ShapedDiamond(o.code, o1.code, o2.code, lab, ext);
    case While(c, body) =>
      var o := LowerCond(c, lab, lab + 2, lab + 3, tmp);
      var o1 := LowerLoop(body, None, Some(c), lab, lab + 1, lab + 2, g, o.lab, o.tmp);
      ShapedCond(c, lab, lab + 2, lab + 3, tmp);
      Push(o.code, {lab, lab + 2}, Lab(lab), {lab + 2});
      ShapedLoop(body, None, Some(c), lab, lab + 1, lab + 2, g, o.lab, o.tmp, base);
      Join(o.code + [Lab(lab)], o1.code, {lab + 2}, Outer(g, Some(lab)), ext);
      ClosedJoin(o.code + [Lab(lab)], o1.code);
    case Do(body, c) =>
      if prev.Some? {
        ShapedLoop(body, None, Some(c), prev.value, lab, lab + 1, g, lab + 2, tmp, base);
      } else {
        var o1 := LowerLoop(body, None, Some(c), lab + 2, lab, lab + 1, g, lab + 3, tmp);
        One(Lab(lab + 2));
        ShapedLoop(body, None, Some(c), lab + 2, lab, lab + 1, g, lab + 3, tmp, base);
        Join([Lab(lab + 2)], o1.code, {}, Outer(g, Some(lab + 2)), ext);
        ClosedJoin([Lab(lab + 2)], o1.code);
      }
    case For(_, _, _, _) => ShapedFor(st, g, prev, lab, tmp, base);
  }

  lemma ShapedJump(st: Stmt, g: Targets, prev: Option<nat>, lab: nat, tmp: nat, base: nat)
    requires (st.Break? || st.Continue? || st.Return?) && Legal(st, base, g.brk.Some? && g.cont.Some?)
    ensures var o := LowerStmt(st, g, prev, lab, tmp); Shaped(o.code, Outer(g, prev)) && Closed(o.code)
  {
    hide Shaped, Refs, Labels, Closed, LowerExp;
    var ext := Outer(g, prev);
    var code := LowerStmt(st, g, prev, lab, tmp).code;
    if st.Return? && st.result.Some? {
      var o := LowerExp(st.result.value, lab, tmp);
      ShapedExp(st.result.value, lab, tmp);
      Push(o.code, {}, Ret(o.arg), {});
      Push(o.code + [Ret(o.arg)], {}, Jmp(g.exit), ext);
      assert code == o.code + [Ret(o.arg)] + [Jmp(g.exit)];
    } else {
      One(code[0]);
      Wider(code, RefsOf(code[0]), ext);
    }
  }

  lemma {:induction false} ShapedIf(st: Stmt, g: Targets, prev: Option<nat>, lab: nat, tmp: nat, base: nat)
    requires st.If? && Legal(st, base, g.brk.Some? && g.cont.Some?)
    ensures var o := LowerStmt(st, g, prev, lab, tmp); Shaped(o.code, Outer(g, prev)) && Closed(o.code)
    decreases st, 0
  {
    hide Shaped, Refs, Labels, Closed, LowerCond;
    var ext := Outer(g, prev);
    var o := LowerCond(st.c, lab, lab + 1, lab + 2, tmp);
    var o1 := LowerStmt(st.t, g, Some(lab), o.lab, o.tmp);
    ShapedCond(st.c, lab, lab + 1, lab + 2, tmp);
    ShapedStmt(st.t, g, Some(lab), o.lab, o.tmp, base);
    Push(o.code, {lab, lab + 1}, Lab(lab), {lab + 1});
    Join(o.code + [Lab(lab)], o1.code, {lab + 1}, Outer(g, Some(lab)), ext + {lab + 1});
    ClosedJoin(o.code + [Lab(lab)], o1.code);
    Push(o.code + [Lab(lab)] + o1.code, ext + {lab + 1}, Lab(lab + 1), ext);
  }

  lemma Wider(code: seq<Instr>, ext: set<nat>, more: set<nat>)
    requires Shaped(code, ext) && ext <= more
    ensures Shaped(code, more)
  {
  }

  lemma LastIsLabel(prev: Option<nat>, code: seq<Instr>)
    ensures var p := LastLabel(prev, code); p.Some? ==> p == prev || p.value in Labels(code)
  {
  }

  lemma {:induction false} ShapedFor(st: Stmt, g: Targets, prev: Option<nat>, lab: nat, tmp: nat, base: nat)
    requires st.For? && Legal(st, base, g.brk.Some? && g.cont.Some?)
    ensures var o := LowerStmt(st, g, prev, lab, tmp); Shaped(o.code, Outer(g, prev)) && Closed(o.code)
    decreases st, 0
  {
    hide Shaped, Refs, Labels, Closed, LowerLoop, LoopParts, LowerExp, LowerCond, LowerOpt;
    var ext := Outer(g, prev);
    var o0 := LowerOpt(st.init, lab + 3, tmp);
    var o := if st.test.Some? then LowerCond(st.test.value, lab, lab + 2, o0.lab, o0.tmp)
        else Out([], Imm(0), o0.lab, o0.tmp);
    var o1 := LowerLoop(st.body, st.step, st.test, lab, lab + 1, lab + 2, g, o.lab, o.tmp);
    ShapedOpt(st.init, lab + 3, tmp);
    EmptyShaped();
    if st.test.Some? {
      ShapedCond(st.test.value, lab, lab + 2, o0.lab, o0.tmp);
      Join(o0.code, o.code, {}, {lab, lab + 2}, {lab, lab + 2});
    } else {
      Join(o0.code, o.code, {}, {}, {lab, lab + 2});
      ClosedJoin(o0.code, o.code);
    }
    Push(o0.code + o.code, {lab, lab + 2}, Lab(lab), {lab + 2});
    ShapedLoop(st.body, st.step, st.test, lab, lab + 1, lab + 2, g, o.lab, o.tmp, base);
    Join(o0.code + o.code + [Lab(lab)], o1.code, {lab + 2}, Outer(g, Some(lab)), ext);
    ClosedJoin(o0.code + o.code + [Lab(lab)], o1.code);
  }

  lemma {:induction false} ShapedLoop(body: Stmt, step: Option<Exp>, test: Option<Exp>, l1: nat, l2: nat, l3: nat,
      g: Targets, lab: nat, tmp: nat, base: nat)
    requires Legal(body, base, true)
    ensures var o := LowerLoop(body, step, test, l1, l2, l3, g, lab, tmp);
      Shaped(o.code, Outer(g, Some(l1))) && Closed(o.code) && l3 in Labels(o.code)
    decreases body, 2
  {
    hide Shaped, Refs, Labels, Closed, LowerStmt, LowerExp, LowerCond, LowerOpt;
    var ext := Outer(g, Some(l1));
    var (o1, o2, o3) := LoopParts(body, step, test, l1, l2, l3, g, lab, tmp);
    var g' := Targets(Some(l3), Some(l2), g.exit);
    ShapedStmt(body, g', Some(l1), lab, tmp, base);
    ShapedOpt(step, o1.lab, o1.tmp);
    Push(o1.code, Outer(g', Some(l1)), Lab(l2), ext + {l3});
    Join(o1.code + [Lab(l2)], o2.code, ext + {l3}, {}, ext + {l3});
    ClosedJoin(o1.code + [Lab(l2)], o2.code);
    var front := o1.code + [Lab(l2)] + o2.code;
    if test.Some? {
      ShapedCond(test.value, l1, l3, o2.lab, o2.tmp);
    } else {
      One(Jmp(l1));
    }
    Join(front, o3.code, ext + {l3}, if test.Some? then {l1, l3} else {l1}, ext + {l3});
    if test.None? {
      ClosedJoin(front, o3.code);
    }
    Push(front + o3.code, ext + {l3}, Lab(l3), ext);
  }

  // ------------------------------------------------------------------
  // Functions
  // ------------------------------------------------------------------

  /** Every function that is lowered can be cut into blocks. */
  lemma LoweredIsStructured(st: Stmt, base: nat)
    requires Legal(st, base, false)
    ensures Structured(LowerFunction(st, base))
  {
    var g := Targets(None, None, EXIT);
    var o := LowerStmt(st, g, Some(ENTRY), 2, base);
    var final := LowerFunction(st, base);
    ShapedStmt(st, g, Some(ENTRY), 2, base, base);
    UniqueFunction(st, base);
    ShapedFunction(o.code, o.lab);
    FunctionForm(final, [Jmp(ENTRY), Lab(ENTRY)] + o.code + [Lab(EXIT), Jmp(o.lab)], o.lab);
  }

  /** The exit block comes last, so that its node is the function's last. */
  lemma LoweredHasExit(st: Stmt, base: nat)
    requires Legal(st, base, false)
    ensures ExitForm(LowerFunction(st, base))
  {
    var g := Targets(None, None, EXIT);
    var o := LowerStmt(st, g, Some(ENTRY), 2, base);
    var final := LowerFunction(st, base);
    var n := |final|;
    ShapedStmt(st, g, Some(ENTRY), 2, base, base);
    FreshStmt(st, g, Some(ENTRY), 2, base);
    UniqueFunction(st, base);
    hide LowerStmt, Unique;
    assert final[n - 1] == Lab(o.lab) && final[n - 2] == Jmp(o.lab) && final[n - 3] == Lab(EXIT);
    FindAt(final, n - 1, o.lab);
    NotToExit(final, o.code, o.lab);
  }

  /** Nothing before the last jump refers to the last label. */
  lemma NotToExit(final: seq<Instr>, code: seq<Instr>, l: nat)
    requires final == [Jmp(ENTRY), Lab(ENTRY)] + code + [Lab(EXIT), Jmp(l), Lab(l)] && l >= 2
    requires Shaped(code, Outer(Targets(None, None, EXIT), Some(ENTRY))) && Fresh(code, 2, l)
    ensures !LeaderBelow(final, |final| - 2, |final| - 1)
  {
    var n, last := |final|, |final| - 1;
    hide Shaped, Unique;
    if k :| 0 <= k < n - 2 && Makes(final, k, last) {
      RefersBelow(final, code, l, k);
      MakesRefers(final, k, last);
    }
  }

  lemma RefersBelow(final: seq<Instr>, code: seq<Instr>, l: nat, i: nat)
    requires final == [Jmp(ENTRY), Lab(ENTRY)] + code + [Lab(EXIT), Jmp(l), Lab(l)] && i < |final| - 2 && l >= 2
    requires Shaped(code, Outer(Targets(None, None, EXIT), Some(ENTRY))) && Fresh(code, 2, l)
    ensures l !in RefsOf(final[i])
  {
    if i < 2 {
      assert final[i] == [Jmp(ENTRY), Lab(ENTRY)][i];
    } else if i < 2 + |code| {
      assert final[i] == code[i - 2];
      RefIn(code, i - 2, l);
    } else {
      assert final[i] == Lab(EXIT);
    }
  }

  lemma RefIn(code: seq<Instr>, k: nat, l: nat)
    requires k < |code|
    ensures l in RefsOf(code[k]) ==> l in Refs(code)
  {
  }

  /** A target is the place of a label referred to. */
  lemma MakesRefers(code: seq<Instr>, i: nat, k: nat)
    requires i < |code| && k < |code| && Makes(code, i, k) && k != i + 1
    ensures code[k].Lab? && code[k].l in RefsOf(code[i])
  {
  }

  lemma ShapedFunction(code: seq<Instr>, l: nat)
    requires Shaped(code, Outer(Targets(None, None, EXIT), Some(ENTRY))) && Closed(code)
    ensures Shaped([Jmp(ENTRY), Lab(ENTRY)] + code + [Lab(EXIT), Jmp(l), Lab(l)], {})
  {
    hide Shaped, Refs, Labels, Closed;
    var head, ext := [Jmp(ENTRY), Lab(ENTRY)], Outer(Targets(None, None, EXIT), Some(ENTRY));
    One(Jmp(ENTRY));
    Push([Jmp(ENTRY)], {ENTRY}, Lab(ENTRY), {});
    assert [Jmp(ENTRY)] + [Lab(ENTRY)] == head;
    Join(head, code, {}, ext, {EXIT});
    ClosedJoin(head, code);
    Push(head + code, {EXIT}, Lab(EXIT), {});
    Push(head + code + [Lab(EXIT)], {}, Jmp(l), {l});
    Push(head + code + [Lab(EXIT)] + [Jmp(l)], {l}, Lab(l), {});
    assert head + code + [Lab(EXIT)] + [Jmp(l)] + [Lab(l)] == head + code + [Lab(EXIT), Jmp(l), Lab(l)];
  }

  lemma FunctionForm(final: seq<Instr>, front: seq<Instr>, l: nat)
    requires Unique(final) && Shaped(final, {}) && final == front + [Lab(l)]
    requires |front| >= 2 && front[0] == Jmp(ENTRY) && front[1] == Lab(ENTRY)
    ensures Structured(final)
  {
    FindAt(final, 1, ENTRY);
    forall i, k | 0 <= i < |final| && k in JumpTargets(final, i) ensures k < |final| {
      var r :| r in RefsOf(final[i]) && k == Find(final, r);
      Resolves(final, i, r);
    }
    forall i | 0 <= i < |final| && final[i].CBr? ensures Leader(final, i + 1) {
      assert final[i + 1].l in Refs(final);
      var j :| 0 <= j < |final| && final[i + 1].l in RefsOf(final[j]);
      FindAt(final, i + 1, final[i + 1].l);
      assert Makes(final, j, i + 1);
    }
  }

  lemma Resolves(final: seq<Instr>, i: nat, r: nat)
    requires Unique(final) && Shaped(final, {}) && i < |final| && r in RefsOf(final[i])
    ensures Find(final, r) < |final|
  {
    assert r in Refs(final);
    assert r in Labels(final);
    var k :| 0 <= k < |final| && final[k].Lab? && final[k].l == r;
    FindAt(final, k, r);
  }

  /** The label table of the emitter is the one the graph is built with. */
  lemma TableResolves(code: seq<Instr>, lab2instr: map<nat, nat>)
    requires Structured(code) && LoweringEmit.Table(code, lab2instr)
    requires forall l :: l in lab2instr ==> lab2instr[l] == Find(code, l)
    ensures Resolved(code, lab2instr)
  {
    forall i, r | 0 <= i < |code| && r in RefsOf(code[i]) ensures r in lab2instr {
      assert Find(code, r) in JumpTargets(code, i);
      assert code[Find(code, r)] == Lab(r);
    }
  }

  /** From a function body to its numbered flow graph. */
  method BuildFunction(st: Stmt, base: nat)
    returns (code: seq<Instr>, leaders: seq<nat>, last: seq<nat>, out: seq<seq<nat>>, po: seq<nat>,
        ghost edges: set<(nat, nat)>)
    requires Legal(st, base, false)
    ensures code == LowerFunction(st, base)
    ensures forall k :: 0 <= k < |code| ==> (k in leaders <==> Leader(code, k))
    ensures |out| == |leaders| && Exact(code, leaders, last, edges, |leaders|)
    ensures forall b, c :: 0 <= b < |out| ==> (c in out[b] <==> (b, c) in edges)
    ensures Permutation(po, |out|) && Ordered(out, po)
    ensures |leaders| > 0 && leaders[|leaders| - 1] == |code| - 1
  {
    hide ExitForm, LowerFunction, Structured, Resolved, Find, LoweringEmit.Table, Ordered, Exact;
    var em := new LoweringEmit.Emitter(base);
    em.Function(st);
    code := em.code;
    LoweredIsStructured(st, base);
    LoweredHasExit(st, base);
    TableResolves(code, em.lab2instr);
    var bl := new Builder(code, em.lab2instr);
    edges := bl.Build();
    LeadersFound(code, bl.leader2node[..], bl.leaders);
    leaders, last, out := bl.leaders, bl.last, bl.out;
    EdgesInRange(bl.out, bl.inn, edges, |bl.leaders|);
    var nu := new Numberer(bl.out);
    nu.NumberCfg();
    po := nu.po;
  }

  lemma LeadersFound(code: seq<Instr>, l2n: seq<int>, leaders: seq<nat>)
    requires Nodes(l2n, leaders) && Found(code, |code|, l2n)
    ensures forall k :: 0 <= k < |code| ==> (k in leaders <==> Leader(code, k))
  {
    forall k | 0 <= k < |code| ensures k in leaders <==> l2n[k] != -1 {
      if k in leaders {
        var n :| 0 <= n < |leaders| && leaders[n] == k;
      }
      if l2n[k] != -1 {
        assert leaders[l2n[k]] == k;
      }
    }
  }

  lemma EdgesInRange(out: seq<seq<nat>>, inn: seq<seq<nat>>, edges: set<(nat, nat)>, n: nat)
    requires Linked(out, inn, edges, n)
    ensures InRange(out) && |out| == n
    ensures forall b, c :: 0 <= b < |out| ==> (c in out[b] <==> (b, c) in edges)
  {
    forall b, k | 0 <= b < |out| && 0 <= k < |out[b]| ensures out[b][k] < n {
      assert (b, out[b][k]) in edges;
    }
  }
}
