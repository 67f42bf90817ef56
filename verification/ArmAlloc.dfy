/** The register allocator as a function on the two descriptor tables, and what the emitted code
    does with the stores through pointers that it gets wrong. */
module ArmAlloc {
  import opened Ic
  import opened Dflow
  import opened ArmMachine
  import opened ArmState

  /** What the allocator's decisions depend on: the name in each register, each name's register. */
  datatype Tables = Tables(regs: seq<nat>, addrs: seq<int>)

  function TablesOf(s: State): Tables { Tables(s.regDescr, s.addrDescr) }

  /** At a block boundary. */
  function NoRegisters(e: Env): Tables { Tables(seq(NREG, _ => 0), seq(|e.places|, _ => -1)) }

  predicate Inside(e: Env, t: Tables, a: nat) { e.c.Names(a) && e.c.Nid(a) < |t.addrs| }

  /** The register of operand a, or -1. */
  function Where(e: Env, t: Tables, a: nat): int {
    if Inside(e, t, a) then t.addrs[e.c.Nid(a)] else -1
  }

  /** The name a out of its register. */
  function Leave(e: Env, t: Tables, a: nat): Tables {
    var r := Where(e, t, a);
    if 0 <= r < |t.regs| then Tables(t.regs[r := 0], t.addrs[e.c.Nid(a) := -1]) else t
  }

  /** Register r emptied. */
  function Spill(e: Env, t: Tables, r: nat): Tables {
    if r < |t.regs| then Leave(e, t, t.regs[r]) else t
  }

  /** Is operand a a variable that pointers may point to? */
  predicate Aliased(e: Env, a: nat) {
    e.c.Names(a) && e.c.addresses[a].Id? && e.c.Nid(a) in e.c.addressTaken
  }

  /** The first `bound` registers emptied of address-taken variables. */
  function SpillAliased(e: Env, t: Tables, bound: nat): Tables {
    Tables(seq(|t.regs|, r requires 0 <= r < |t.regs| => if r < bound && Aliased(e, t.regs[r]) then 0 else t.regs[r]),
           seq(|t.addrs|, n requires 0 <= n < |t.addrs| =>
             var r := t.addrs[n];
             if 0 <= r < bound && r < |t.regs| && Aliased(e, t.regs[r]) then -1 else r))
  }

  /** The lowest empty register from r on that may be handed out, or -1. */
  function FirstFree(regs: seq<nat>, pin: int, r: nat): int
    decreases |regs| - r
  {
    if r >= |regs| then -1
    else if Allocatable(r) && r != pin && regs[r] == 0 then r
    else FirstFree(regs, pin, r + 1)
  }

  /** The register handed out while `pin` is pinned: an empty one, else the lowest not pinned. */
  function Pick(t: Tables, pin: int): nat {
    var r := FirstFree(t.regs, pin, 0);
    if r >= 0 then r else if pin == 4 then 5 else 4
  }

  /** The register for a quad's result. */
  function ResultAt(e: Env, t: Tables, arg1: nat, f: Flags): nat {
    var r := Where(e, t, arg1);
    if r >= 0 && !f.ar1Live then r else Pick(t, NO_PIN)
  }

  /** The tables once it is empty, or holds only the dying first operand. */
  function ForResult(e: Env, t: Tables, arg1: nat, f: Flags): Tables {
    if Where(e, t, arg1) >= 0 && !f.ar1Live then t else Spill(e, t, Pick(t, NO_PIN))
  }

  /** The tables once the second operand is at hand. */
  function ForSecond(e: Env, t: Tables, a: nat, imm: bool, pin: nat): Tables {
    if a < |e.c.addresses| && e.c.addresses[a].IConst? && imm && Immediate(Wrap(e.c.addresses[a].val) as bv32) then t
    else if Where(e, t, a) >= 0 then t
    else Spill(e, t, Pick(t, pin))
  }

  /** An operand leaves its register unless it has a next use. */
  function Release(e: Env, t: Tables, a: nat, nextUse: bool): Tables {
    if nextUse then t else Leave(e, t, a)
  }

  /** The target keeps the result register for a next use. */
  function Enter(e: Env, t: Tables, r: nat, tar: nat, nextUse: bool): Tables {
    if nextUse && Inside(e, t, tar) && r < |t.regs| then Tables(t.regs[r := tar], t.addrs[e.c.Nid(tar) := r]) else t
  }

  function ReleaseBoth(e: Env, t: Tables, i: Quad, f: Flags): Tables {
    var t1 := Release(e, t, i.arg1, f.ar1Next);
    if ShapeOf(i.op).Binary? || ShapeOf(i.op).IndAsn? then Release(e, t1, i.arg2, f.ar2Next) else t1
  }

  /** The register of p in *p = x, pinned only if p had to be loaded, and the tables then. */
  function PointerAt(e: Env, t: Tables, i: Quad, f: Flags): nat {
    if Where(e, t, i.arg1) >= 0 then Where(e, t, i.arg1) else ResultAt(e, t, i.arg1, f)
  }

  function ForPointer(e: Env, t: Tables, i: Quad, f: Flags): Tables {
    if Where(e, t, i.arg1) >= 0 then t else ForResult(e, t, i.arg1, f)
  }

  function PointerPin(e: Env, t: Tables, i: Quad, f: Flags): int {
    if Where(e, t, i.arg1) >= 0 then NO_PIN else PointerAt(e, t, i, f)
  }

  /** The tables once x is in a register as well. */
  function ForValue(e: Env, t: Tables, i: Quad, pin: int): Tables {
    if e.c.Names(i.arg2) && Where(e, t, i.arg2) < 0 then Spill(e, t, Pick(t, pin)) else t
  }

  /** Loading x takes the register pr. */
  predicate Strikes(e: Env, t: Tables, i: Quad, pr: nat, pin: int) {
    e.c.Names(i.arg2) && Where(e, t, i.arg2) < 0 && Pick(t, pin) == pr
  }

  /** The tables while *p = x is carried out, address-taken variables spilled before. */
  function ForStore(e: Env, t: Tables, i: Quad, f: Flags): Tables {
    ForValue(e, ForPointer(e, t, i, f), i, PointerPin(e, t, i, f))
  }

  /** The tables while another quad is carried out. */
  function ForQuad(e: Env, t: Tables, i: Quad, f: Flags): Tables {
    var t0 := if i.op.OpInd? then SpillAliased(e, t, NREG) else t;
    var t1 := ForResult(e, t0, i.arg1, f);
    if ShapeOf(i.op).Binary? then ForSecond(e, t1, i.arg2, !i.op.OpMul?, ResultAt(e, t0, i.arg1, f)) else t1
  }

  function QuadResultAt(e: Env, t: Tables, i: Quad, f: Flags): nat {
    ResultAt(e, if i.op.OpInd? then SpillAliased(e, t, NREG) else t, i.arg1, f)
  }

  /** The tables after a quad. */
  function After(e: Env, t: Tables, i: Quad, f: Flags): Tables {
    if i.op.OpIndAsn? then ReleaseBoth(e, ForStore(e, SpillAliased(e, t, NREG), i, f), i, f)
    else if i.op.OpAddrOf? then
      Enter(e, Spill(e, t, Pick(t, NO_PIN)), Pick(t, NO_PIN), i.tar, f.tarNext)
    else Enter(e, ReleaseBoth(e, ForQuad(e, t, i, f), i, f), QuadResultAt(e, t, i, f), i.tar, f.tarNext)
  }

  // ------------------------------------------------------------------
  // Stores through pointers
  // ------------------------------------------------------------------

  /** The translation of *p = x loses p: p is in r4, which is not pinned, no register is empty or
      about to be emptied, and x is a name in no register, so it is loaded into r4. */
  predicate Clobbers(e: Env, t: Tables, i: Quad) {
    && i.op.OpIndAsn? && Where(e, t, i.arg1) == 4
    && (forall r :: 0 <= r < |t.regs| && Allocatable(r) ==> t.regs[r] != 0 && !Aliased(e, t.regs[r]))
    && e.c.Names(i.arg2) && Where(e, t, i.arg2) == -1
  }

  /** The address the code for *p = x stores to. */
  function StoreAddress(e: Env, t: Tables, i: Quad, q: QState): Word {
    OperandValue(e, if Clobbers(e, t, i) then i.arg2 else i.arg1, q)
  }

  /** What the code emitted for a quad does: the quad, but *x = x for a clobbered *p = x. */
  ghost function StepCode(e: Env, t: Tables, i: Quad, q: QState): QState
    requires e.WellFormed() && Supported(e, i)
  {
    if i.op.OpIndAsn? then q.(mem := q.mem[StoreAddress(e, t, i, q) := OperandValue(e, i.arg2, q)])
    else StepQuad(e, i, q)
  }

  ghost predicate SameMemory(q: QState, q': QState) { forall a: Word :: Fetch(q, a) == Fetch(q', a) }

  /** The code stores what the quad stores unless it clobbers the pointer and that shows. */
  lemma StoreRightExactly(e: Env, t: Tables, i: Quad, q: QState)
    requires e.WellFormed() && Supported(e, i) && i.op.OpIndAsn?
    ensures var p, v := OperandValue(e, i.arg1, q), OperandValue(e, i.arg2, q);
            SameMemory(StepCode(e, t, i, q), StepQuad(e, i, q)) <==>
            !Clobbers(e, t, i) || p == v || (Fetch(q, p) == v && Fetch(q, v) == v)
  {
    assert |e.symbols| == |e.places| && i.arg1 < |e.c.addresses| && i.arg2 < |e.c.addresses|;
    hide OperandValue, Clobbers, Env.WellFormed, Supported;
    var p, v := OperandValue(e, i.arg1, q), OperandValue(e, i.arg2, q);
    var c, d := StepCode(e, t, i, q), StepQuad(e, i, q);
    if Clobbers(e, t, i) && SameMemory(c, d) {
      assert Fetch(c, p) == Fetch(d, p) && Fetch(c, v) == Fetch(d, v);
    }
  }

  /** Of the names in `live`, those whose value a store to address a cannot upset: all, if a is
      where a pointer may point to, else the address-taken variables. */
  ghost function Kept(e: Env, a: Word, live: set<nat>): set<nat> {
    if e.ValidPointer(a) then live else set n | n in live && n in e.c.addressTaken && e.IsVar(n)
  }

  /** Memory that can be read after the quad: the heap, and live variables pointers may point to. */
  ghost predicate Visible(e: Env, a: Word, live: set<nat>) {
    e.IsHeap(a) || exists n :: n in live && n in e.c.addressTaken && e.IsVar(n) && e.VarHome(n) == a
  }

  /** With visible memory as the emitted code leaves it, x is at p exactly if p was not clobbered,
      or that does not show. */
  lemma StoredExactly(e: Env, t: Tables, i: Quad, live: set<nat>, q: QState, m: Machine)
    requires e.WellFormed() && Supported(e, i) && i.op.OpIndAsn?
    requires forall b :: Visible(e, b, live) ==> m.Load(b) == Fetch(StepCode(e, t, i, q), b)
    requires Visible(e, OperandValue(e, i.arg1, q), live)
    ensures var p, v := OperandValue(e, i.arg1, q), OperandValue(e, i.arg2, q);
            m.Load(p) == v <==> !Clobbers(e, t, i) || p == v || Fetch(q, p) == v
  {
    hide OperandValue, Clobbers, Env.WellFormed, Supported;
  }

  /** A store touches the one location both the machine and the quads have for its address. */
  lemma StoreThroughKeepsSim(e: Env, s: State, t: State, a: Word, v: Word, live: set<nat>, q: QState)
    requires e.WellFormed() && SlotsOk(e, s) && Sim(e, s, live, q)
    requires forall n :: n in e.c.addressTaken && e.IsVar(n) ==> !InReg(s, n)
    requires t == s.(m := s.m.Store(a, v))
    ensures Sim(e, t, Kept(e, a, live), q.(mem := q.mem[a := v]))
  {
    var q' := q.(mem := q.mem[a := v]);
    forall n | n in Kept(e, a, live) ensures Located(e, t, n, q') {
      assert Located(e, s, n, q);
      if e.IsVar(n) {
        assert e.VarHome(n) == a ==> !InReg(s, n);
      } else if !InReg(s, n) {
        var j := HomeIsSlot(e, s, n);
      }
    }
  }

  /** What can be read after the store is in memory. */
  lemma VisibleInMemory(e: Env, s: State, a: Word, live: set<nat>, q: QState)
    requires e.WellFormed()
    requires forall k :: k in e.c.addressTaken && e.IsVar(k) ==> !InReg(s, k)
    ensures forall b :: Sim(e, s, Kept(e, a, live), q) && Visible(e, b, live) ==> s.m.Load(b) == Fetch(q, b)
  {
    forall b | Sim(e, s, Kept(e, a, live), q) && Visible(e, b, live) ensures s.m.Load(b) == Fetch(q, b) {
      if !e.IsHeap(b) {
        var n :| n in live && n in e.c.addressTaken && e.IsVar(n) && e.VarHome(n) == b;
        assert Located(e, s, n, q);
      }
    }
  }

  lemma KeptSubset(e: Env, s: State, a: Word, live: set<nat>, less: set<nat>, q: QState)
    requires e.WellFormed() && Sim(e, s, Kept(e, a, live), q) && less <= live
    ensures Sim(e, s, Kept(e, a, less), q)
    ensures Kept(e, a, less) <= less && (e.ValidPointer(a) ==> Kept(e, a, less) == less)
  {
    hide Located, Env.WellFormed;
  }

  /** The tables after a store through a pointer: only names with a further use keep registers. */
  lemma IndAsnReleased(e: Env, i: Quad, f: Flags, live: set<nat>, next: set<nat>, s: State, s1: State, s2: State)
    requires e.WellFormed() && e.c.WellFormed(i) && f == FlagsOf(e.c, i, live, next) && next <= live
    requires i.op.OpIndAsn? && OnlyNextInRegs(s, e.c.NextBefore(i, next))
    requires Released(e, s, s1, i.arg1, f.ar1Next) && Released(e, s1, s2, i.arg2, f.ar2Next)
    ensures OnlyNextInRegs(s2, next)
  {
    hide Env.WellFormed;
    forall n | InReg(s2, n) ensures n in next {
      assert InReg(s1, n) && InReg(s, n);
      assert n in e.c.NextBefore(i, next);
    }
  }

  lemma IndAsnFlags(c: Context, q: Quad, f: Flags, live: set<nat>, next: set<nat>)
    requires c.WellFormed(q) && f == FlagsOf(c, q, live, next) && next <= live && q.op.OpIndAsn?
    ensures c.Operand(q.arg1) + c.Operand(q.arg2) + live == c.LiveBefore(q, live)
    ensures !f.ar1Next ==> (f.ar1Live <==> c.Nid(q.arg1) in live)
    ensures c.Names(q.arg2) && !f.ar2Next ==> (f.ar2Live <==> c.Nid(q.arg2) in live)
  {
  }

  /** A name that is in no register stays out while an operand leaves its own. */
  lemma ReleasedLess(e: Env, s: State, t: State, a: nat, nextUse: bool, b: nat)
    requires e.WellFormed() && |s.addrDescr| == |e.places| && Released(e, s, t, a, nextUse)
    ensures Fewer(s, t) && (Where(e, TablesOf(s), b) == -1 ==> Where(e, TablesOf(t), b) == -1)
    ensures e.c.Names(b) ==> (InReg(s, e.c.Nid(b)) <==> Where(e, TablesOf(s), b) != -1)
    ensures e.c.Names(b) ==> (InReg(t, e.c.Nid(b)) <==> Where(e, TablesOf(t), b) != -1)
  {
    hide Env.WellFormed;
  }

  lemma FewerSame(s: State)
    ensures Fewer(s, s)
  {
  }

  lemma FewerTrans(s: State, t: State, u: State)
    requires Fewer(s, t) && Fewer(t, u)
    ensures Fewer(s, u)
  {
  }

  lemma FewerTwice(e: Env, s: State, s1: State, s2: State)
    requires |s.addrDescr| == |e.places| && Fewer(s, s1) && Fewer(s1, s2)
    requires forall n :: n in e.c.addressTaken && e.IsVar(n) ==> !InReg(s, n)
    ensures Fewer(s, s2) && forall n :: n in e.c.addressTaken && e.IsVar(n) ==> !InReg(s2, n)
  {
  }

  // ------------------------------------------------------------------
  // Facts about the allocator
  // ------------------------------------------------------------------

  lemma QuadTables(e: Env, t: Tables, i: Quad, f: Flags)
    ensures !i.op.OpIndAsn? && !i.op.OpAddrOf? ==>
              After(e, t, i, f) ==
              Enter(e, ReleaseBoth(e, ForQuad(e, t, i, f), i, f), QuadResultAt(e, t, i, f), i.tar, f.tarNext)
  {
  }

  lemma UnaryTables(e: Env, t: Tables, i: Quad, f: Flags)
    ensures ShapeOf(i.op).Unary? ==>
              QuadResultAt(e, t, i, f) == ResultAt(e, t, i.arg1, f) && ForQuad(e, t, i, f) == ForResult(e, t, i.arg1, f)
  {
  }

  lemma IndTables(e: Env, t: Tables, i: Quad, f: Flags)
    ensures i.op.OpInd? ==>
              var t0 := SpillAliased(e, t, NREG);
              && QuadResultAt(e, t, i, f) == ResultAt(e, t0, i.arg1, f)
              && ForQuad(e, t, i, f) == ForResult(e, t0, i.arg1, f)
  {
    hide SpillAliased, ResultAt, ForResult;
  }

  /** A free register is found from r on, or all are taken. */
  lemma {:induction false} FirstFreeFinds(regs: seq<nat>, pin: int, r: nat)
    ensures var k := FirstFree(regs, pin, r);
            && (k == -1 || (r <= k < |regs| && Allocatable(k) && k != pin && regs[k] == 0))
            && (k == -1 ==> forall j :: r <= j < |regs| && Allocatable(j) && j != pin ==> regs[j] != 0)
    decreases |regs| - r
  {
    if r < |regs| && !(Allocatable(r) && r != pin && regs[r] == 0) {
      FirstFreeFinds(regs, pin, r + 1);
    }
  }

  lemma ConstNowhere(e: Env, t: Tables, a: nat)
    requires a < |e.c.addresses| && e.c.addresses[a].IConst?
    ensures Where(e, t, a) == -1
  {
  }

  /** An empty register is handed out as it is. */
  lemma PickFree(e: Env, t: Tables, pin: int)
    requires e.WellFormed() && FirstFree(t.regs, pin, 0) >= 0
    ensures Pick(t, pin) == FirstFree(t.regs, pin, 0) && Spill(e, t, Pick(t, pin)) == t
    ensures var r := Pick(t, pin); r < |t.regs| && Allocatable(r) && r != pin && t.regs[r] == 0
  {
    FirstFreeFinds(t.regs, pin, 0);
  }

  /** Without one, the lowest register not pinned is. */
  lemma PickTaken(t: Tables, pin: int)
    requires FirstFree(t.regs, pin, 0) < 0
    ensures Pick(t, pin) == if pin == 4 then 5 else 4
  {
  }

  /** One register of the pass that spills the address-taken variables. */
  lemma SpillAliasedStep(e: Env, t: Tables, r: nat)
    requires e.WellFormed() && Inverse(e, t.regs, t.addrs) && r < NREG
    ensures var t' := SpillAliased(e, t, r);
            && t'.regs[r] == t.regs[r]
            && SpillAliased(e, t, r + 1) == if Aliased(e, t.regs[r]) then Spill(e, t', r) else t'
  {
    assert !e.c.Names(0);
    hide Env.WellFormed;
    var t', u := SpillAliased(e, t, r), SpillAliased(e, t, r + 1);
    if Aliased(e, t.regs[r]) {
      assert t.regs[r] != 0;
      var n := e.c.Nid(t.regs[r]);
      assert t.addrs[n] == r;
      forall k | 0 <= k < |t.addrs| ensures u.addrs[k] == t'.addrs[n := -1][k] {
        assert k != n ==> t.addrs[k] != r;
      }
      assert u.addrs == t'.addrs[n := -1];
      assert u.regs == t'.regs[r := 0];
    } else {
      assert u.regs == t'.regs;
      assert u.addrs == t'.addrs;
    }
  }

  /** Without an address-taken variable in a register the pass does nothing. */
  lemma SpillAliasedNone(e: Env, t: Tables)
    ensures SpillAliased(e, t, 0) == t
    ensures (forall r :: 0 <= r < |t.regs| ==> !Aliased(e, t.regs[r])) ==> SpillAliased(e, t, NREG) == t
  {
    assert SpillAliased(e, t, 0).regs == t.regs;
    assert SpillAliased(e, t, 0).addrs == t.addrs;
    if forall r :: 0 <= r < |t.regs| ==> !Aliased(e, t.regs[r]) {
      assert SpillAliased(e, t, NREG).regs == t.regs;
      assert SpillAliased(e, t, NREG).addrs == t.addrs;
    }
  }

  /** After the pass no address-taken variable is in a register. */
  lemma SpillAliasedAll(e: Env, s: State, t: State)
    requires e.WellFormed() && Inverse(e, s.regDescr, s.addrDescr) && Inverse(e, t.regDescr, t.addrDescr)
    requires TablesOf(t) == SpillAliased(e, TablesOf(s), NREG)
    ensures forall n :: n in e.c.addressTaken && e.IsVar(n) ==> !InReg(t, n)
  {
    forall n | n in e.c.addressTaken && e.IsVar(n) ensures !InReg(t, n) {
      if InReg(t, n) {
        assert s.addrDescr[n] == t.addrDescr[n] != -1;
        assert Aliased(e, s.regDescr[s.addrDescr[n]]);
      }
    }
  }

  /** A pinned register is not handed out. */
  lemma PickNotPinned(t: Tables, pin: int)
    ensures Pick(t, pin) != pin
  {
    FirstFreeFinds(t.regs, pin, 0);
  }

  /** The pointer's register is the one the value is loaded into exactly in the clobbered case. */
  lemma ClobbersMeans(e: Env, t: Tables, i: Quad, f: Flags)
    requires e.WellFormed() && Inverse(e, t.regs, t.addrs) && i.op.OpIndAsn? && e.c.WellFormed(i)
    ensures var t1 := SpillAliased(e, t, NREG);
            Clobbers(e, t, i) <==> Strikes(e, ForPointer(e, t1, i, f), i, PointerAt(e, t1, i, f),
                PointerPin(e, t1, i, f))
  {
    var t1 := SpillAliased(e, t, NREG);
    FirstFreeFinds(t1.regs, NO_PIN, 0);
    SpillAliasedNone(e, t);
    PickNotPinned(ForPointer(e, t1, i, f), PointerPin(e, t1, i, f));
    hide Env.WellFormed, Aliased;
    if Clobbers(e, t, i) {
      assert forall r :: 0 <= r < |t.regs| && !Allocatable(r) ==> t.regs[r] == 0;
      assert !Aliased(e, 0);
    }
  }

  /** And then neither name is in a register afterwards. */
  lemma ClobberedLeave(e: Env, t: Tables, i: Quad, f: Flags)
    requires e.WellFormed() && Inverse(e, t.regs, t.addrs) && i.op.OpIndAsn? && e.c.WellFormed(i)
    requires Clobbers(e, t, i)
    ensures var t2 := ForStore(e, SpillAliased(e, t, NREG), i, f);
            Where(e, t2, i.arg1) == -1 && Where(e, t2, i.arg2) == -1
  {
    ClobbersMeans(e, t, i, f);
    SpillAliasedNone(e, t);
    assert !Aliased(e, 0);
    hide Env.WellFormed, Aliased, FirstFree;
    assert forall r :: 0 <= r < |t.regs| && !Allocatable(r) ==> t.regs[r] == 0;
  }

  // ------------------------------------------------------------------
  // Blocks
  // ------------------------------------------------------------------

  /** The bits of the first quad. */
  ghost function BitsAt(e: Env, quads: seq<Quad>, liveOut: set<nat>): Flags
    requires AllSupported(e, quads) && quads != []
  {
    SupportedTail(e, quads);
    FlagsOf(e.c, quads[0], LiveAt(e, quads[1..], liveOut), NextAt(e, quads[1..]))
  }

  /** What the code emitted for a block does, started with these tables. */
  ghost function RunCode(e: Env, t: Tables, quads: seq<Quad>, liveOut: set<nat>, q: QState): QState
    requires e.WellFormed() && AllSupported(e, quads)
    decreases |quads|
  {
    if quads == [] then q
    else
      SupportedTail(e, quads);
      RunCode(e, After(e, t, quads[0], BitsAt(e, quads, liveOut)), quads[1..], liveOut, StepCode(e, t, quads[0], q))
  }

  /** Every address the code loads from or stores to through a pointer is valid. */
  ghost predicate CodeSafe(e: Env, t: Tables, quads: seq<Quad>, liveOut: set<nat>, q: QState)
    requires e.WellFormed() && AllSupported(e, quads)
    decreases |quads|
  {
    if quads == [] then true
    else
      SupportedTail(e, quads);
      && (quads[0].op.OpInd? || quads[0].op.OpIndAsn? ==> e.ValidPointer(StoreAddress(e, t, quads[0], q)))
      && CodeSafe(e, After(e, t, quads[0], BitsAt(e, quads, liveOut)), quads[1..], liveOut, StepCode(e, t, quads[0], q))
  }

  /** Some store of the block is clobbered. */
  ghost predicate Loses(e: Env, t: Tables, quads: seq<Quad>, liveOut: set<nat>)
    requires AllSupported(e, quads)
    decreases |quads|
  {
    if quads == [] then false
    else
      SupportedTail(e, quads);
      Clobbers(e, t, quads[0]) || Loses(e, After(e, t, quads[0], BitsAt(e, quads, liveOut)), quads[1..], liveOut)
  }

  /** Without one the code does what the quads do. */
  lemma {:induction false} NothingLost(e: Env, t: Tables, quads: seq<Quad>, liveOut: set<nat>, q: QState)
    requires e.WellFormed() && AllSupported(e, quads) && !Loses(e, t, quads, liveOut)
    ensures RunCode(e, t, quads, liveOut, q) == RunQuads(e, quads, q)
    ensures CodeSafe(e, t, quads, liveOut, q) <==> PointersValid(e, quads, q)
    decreases |quads|
  {
    if quads != [] {
      SupportedTail(e, quads);
      hide Env.WellFormed, Supported, After, FlagsOf, OperandValue, Clobbers, Env.ValidPointer;
      assert StepCode(e, t, quads[0], q) == StepQuad(e, quads[0], q);
      NothingLost(e, After(e, t, quads[0], BitsAt(e, quads, liveOut)), quads[1..], liveOut, StepQuad(e, quads[0], q));
    }
  }

  /** One quad of a run. */
  lemma RunsOn(e: Env, t: Tables, quads: seq<Quad>, liveOut: set<nat>, q: QState)
    requires e.WellFormed() && AllSupported(e, quads) && quads != []
    ensures Supported(e, quads[0]) && AllSupported(e, quads[1..])
    ensures var i, t' := quads[0], After(e, t, quads[0], BitsAt(e, quads, liveOut));
            && RunCode(e, t, quads, liveOut, q) == RunCode(e, t', quads[1..], liveOut, StepCode(e, t, i, q))
            && RunQuads(e, quads, q) == RunQuads(e, quads[1..], StepQuad(e, i, q))
            && (CodeSafe(e, t, quads, liveOut, q) <==>
                  && (i.op.OpInd? || i.op.OpIndAsn? ==> e.ValidPointer(StoreAddress(e, t, i, q)))
                  && CodeSafe(e, t', quads[1..], liveOut, StepCode(e, t, i, q)))
            && (PointersValid(e, quads, q) <==>
                  && (i.op.OpInd? || i.op.OpIndAsn? ==> e.ValidPointer(OperandValue(e, i.arg1, q)))
                  && PointersValid(e, quads[1..], StepQuad(e, i, q)))
  {
    SupportedTail(e, quads);
    hide Env.WellFormed, Supported, After, FlagsOf, OperandValue, Clobbers, Env.ValidPointer, StepCode, StepQuad;
  }

  /** Midway through a block: `quads` are still to be translated, q is the state the code has
      reached and `final` the state the whole block ends in. */
  ghost predicate Midway(e: Env, s: State, quads: seq<Quad>, flags: seq<Flags>, liveOut: set<nat>, q: QState,
      final: QState) {
    && e.WellFormed() && AllSupported(e, quads) && Scanned(e, quads, flags, liveOut)
    && CodeSafe(e, TablesOf(s), quads, liveOut, q) && RunCode(e, TablesOf(s), quads, liveOut, q) == final
    && Done(e, s, LiveAt(e, quads, liveOut), NextAt(e, quads), q)
  }

  /** The next quad may be translated. */
  lemma MidwayNext(e: Env, s: State, quads: seq<Quad>, flags: seq<Flags>, liveOut: set<nat>, q: QState, final: QState)
    requires Midway(e, s, quads, flags, liveOut, q, final) && quads != []
    ensures Supported(e, quads[0]) && AllSupported(e, quads[1..])
    ensures var live, next := LiveAt(e, quads[1..], liveOut), NextAt(e, quads[1..]);
            && flags[0] == FlagsOf(e.c, quads[0], live, next) && next <= live
            && Ready(e, s, quads[0], live, next, q)
    ensures quads[0].op.OpInd? || quads[0].op.OpIndAsn? ==>
              e.ValidPointer(StoreAddress(e, TablesOf(s), quads[0], q))
  {
    SupportedTail(e, quads);
    SupportedWellFormed(e, quads);
    SupportedWellFormed(e, quads[1..]);
    NextUseIsLive(e.c, quads[1..], liveOut);
    hide Env.WellFormed, Sim, Ok, OnlyNextInRegs, FlagsOf, Supported, StepQuad, OperandValue, Env.ValidPointer;
    hide After, Clobbers;
  }

  /** Once it is, the rest of the block remains. */
  lemma MidwayStep(e: Env, s: State, t: State, quads: seq<Quad>, flags: seq<Flags>, liveOut: set<nat>, q: QState,
      final: QState)
    requires Midway(e, s, quads, flags, liveOut, q, final)
    requires quads != [] && Supported(e, quads[0]) && AllSupported(e, quads[1..])
    requires TablesOf(t) == After(e, TablesOf(s), quads[0], flags[0])
    requires Done(e, t, LiveAt(e, quads[1..], liveOut), NextAt(e, quads[1..]), StepCode(e, TablesOf(s), quads[0], q))
    ensures Midway(e, t, quads[1..], flags[1..], liveOut, StepCode(e, TablesOf(s), quads[0], q), final)
  {
    hide Env.WellFormed, Done, FlagsOf, Supported, StepCode, OperandValue, Env.ValidPointer, LiveAt, NextAt, After;
    hide Clobbers;
  }

  lemma MidwayStart(e: Env, s: State, quads: seq<Quad>, flags: seq<Flags>, liveOut: set<nat>, q: QState)
    requires e.WellFormed() && AllSupported(e, quads) && Scanned(e, quads, flags, liveOut)
    requires CodeSafe(e, TablesOf(s), quads, liveOut, q)
    requires InMemory(e, s, LiveAt(e, quads, liveOut), q)
    ensures Midway(e, s, quads, flags, liveOut, q, RunCode(e, TablesOf(s), quads, liveOut, q))
  {
    hide Env.WellFormed, Ok, AllSupported, Wrap, LiveAt, NextAt;
  }

  lemma FreeTables(e: Env, s: State, live: set<nat>, q: QState)
    requires InMemory(e, s, live, q)
    ensures TablesOf(s) == NoRegisters(e)
  {
    hide Env.WellFormed, Slots;
    assert s.regDescr == NoRegisters(e).regs;
    assert s.addrDescr == NoRegisters(e).addrs;
  }

  lemma MidwayEnd(e: Env, s: State, flags: seq<Flags>, liveOut: set<nat>, q: QState, final: QState)
    requires Midway(e, s, [], flags, liveOut, q, final)
    ensures InMemory(e, s, liveOut, final)
  {
    assert |e.symbols| == |e.places|;
    hide Env.WellFormed, Wrap, Slots, Pins;
    forall n | 0 <= n < |s.addrDescr| ensures s.addrDescr[n] == -1 {
      assert !InReg(s, n);
    }
    forall n | n in liveOut ensures HasHome(e, s, n) && s.m.Load(Home(e, s, n)) == NameValue(e, n, final) {
      assert Located(e, s, n, q);
    }
  }
}
