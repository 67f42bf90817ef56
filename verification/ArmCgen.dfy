/** The ARM code generator for word-sized straight-line blocks: register allocation driven by
    the two descriptor tables and the liveness bits. */
module ArmCgen {
  import opened Ic
  import opened Dflow
  import opened ArmMachine
  import opened ArmState
  import opened ArmAlloc
  import opened ArmStores

  /** Does n fit an immediate operand? What the generated code computes does not depend on it. */
  method IsRepresentableInImm12(n: bv32) returns (r: bool)
    ensures r <==> exists k :: 0 <= k < |IMM_MASKS| && Fits(n, IMM_MASKS[k])
    ensures r ==> RotatedByte(n)
  {
    hide Fits;
    ImmediateEncodes(n);
    for rot := 0 to |IMM_MASKS|
      invariant forall k :: 0 <= k < rot ==> !Fits(n, IMM_MASKS[k])
    {
      if Fits(n, IMM_MASKS[rot]) {
        return true;
      }
    }
    return false;
  }

  /** Every 2048 bytes of code a literal pool is dumped and jumped over. */
  const MAX_OFFS_TO_LT := 2048

  /** Where the code now being emitted begins, and a machine it is run from. */
  class Trace {
    ghost var before: seq<Instr>
    ghost var entry: Machine

    constructor (ghost entry: Machine)
      ensures before == [] && this.entry == entry
    {
      before, this.entry := [], entry;
    }
  }

  class Generator {
    const e: Env
    const pinned: array<bool>
    const modified: array<bool>
    const regDescr: array<nat>
    const addrDescr: array<int>
    var temps: seq<Slot>
    var localArea: int
    var code: seq<Instr>
    var offsToLitTab: nat
    const trace: Trace
    ghost var m: Machine  // the machine after the code emitted since trace.before

    /** Before the first block: all registers free, no slot allocated. */
    constructor (e: Env, ghost start: Machine)
      requires e.WellFormed() && start.Reg(FP) == e.frame
      ensures this.e == e && m == start && code == [] && temps == []
      ensures fresh(pinned) && fresh(modified) && fresh(regDescr) && fresh(addrDescr) && fresh(trace)
      ensures Coded() && Ok(e, Snap(), NO_PIN) && RegistersFree(Snap())
    {
      this.e := e;
      pinned := new bool[NREG](r => !Allocatable(r));
      modified := new bool[NREG](_ => false);
      regDescr := new nat[NREG](_ => 0);
      addrDescr := new int[|e.places|](_ => -1);
      temps, localArea := [], e.area;
      code, offsToLitTab := [], 0;
      m := start;
      trace := new Trace(start);
      new;
      hide Ok, RegistersFree, Env.WellFormed;
      FreshOk(e, Snap());
    }

    ghost function Snap(): State
      reads this, pinned, modified, regDescr, addrDescr
    {
      State(pinned[..], modified[..], regDescr[..], addrDescr[..], temps, localArea, m)
    }

    ghost function Tabs(): Tables
      reads regDescr, addrDescr
    {
      Tables(regDescr[..], addrDescr[..])
    }

    /** Running the code emitted since trace.before yields the ghost machine. */
    ghost predicate Traced()
      reads this, trace
    {
      RunsTo(e.symbols, trace.before, code, trace.entry, m) && Paced(code, offsToLitTab)
    }

    /** The tables are distinct objects and the ghost machine is the emitted code's result. */
    ghost predicate Coded()
      reads this, trace
    {
      Apart() && Traced()
    }

    ghost predicate Apart() { pinned != modified && regDescr as object != addrDescr as object }

    ghost predicate Valid(pin: int)
      reads this, trace, pinned, modified, regDescr, addrDescr
    {
      e.WellFormed() && Ok(e, Snap(), pin) && Coded()
    }

    // ----------------------------------------------------------------
    // Emission
    // ----------------------------------------------------------------

    method Emit(ins: Instr)
      requires Traced() && Encodable(ins) && !ins.PoolBreak?
      modifies this`code, this`m, this`offsToLitTab
      ensures Traced() && m == Step(e.symbols, ins, old(m))
      ensures code == old(code) + if old(offsToLitTab) + 4 < MAX_OFFS_TO_LT then [ins] else [ins, PoolBreak]
    {
      hide Step, Encodable, RunsTo;
      RunsToSnoc(e.symbols, trace.before, code, ins, trace.entry, m);
      SpacedSnoc(code, ins);
      code := code + [ins];
      m := Step(e.symbols, ins, m);
      offsToLitTab := offsToLitTab + 4;
      if offsToLitTab >= MAX_OFFS_TO_LT {
        DumpAndLink();
      }
    }

    /** b over .ltorg: a pool here is never executed. */
    method DumpAndLink()
      requires RunsTo(e.symbols, trace.before, code, trace.entry, m)
      requires Spaced(code) && Tail(code) == POOL_EVERY
      modifies this`code, this`offsToLitTab
      ensures Traced() && code == old(code) + [PoolBreak] && offsToLitTab == 0
    {
      hide RunsTo;
      RunsToSnoc(e.symbols, trace.before, code, PoolBreak, trace.entry, m);
      SpacedSnoc(code, PoolBreak);
      code := code + [PoolBreak];
      offsToLitTab := 0;
    }

    // ----------------------------------------------------------------
    // Slots of temporaries
    // ----------------------------------------------------------------

    /** The displacement of n's slot, allocating one if n has none. */
    method GetTempOffs(n: nat, ghost pin: int) returns (offs: int)
      requires Valid(pin) && n < |e.places| && !e.IsVar(n)
      modifies this`temps, this`localArea
      ensures Valid(pin)
      ensures HasHome(e, Snap(), n) && Wrap(e.frame + offs) == Home(e, Snap(), n)
      ensures HomesKeptBut(e, old(Snap()), Snap(), n)
      ensures old(FindSlot(temps, n)) != -1 ==> temps == old(temps)
    {
      hide Inverse, Pins, Wrap, Env.WellFormed;
      ghost var s := Snap();
      // see if it was already allocated
      for k := 0 to |temps|
        invariant Snap() == s
        invariant forall i :: 0 <= i < k ==> temps[i].free || temps[i].nid != n
      {
        if !temps[k].free && temps[k].nid == n {
          FindSlotUnique(e, s, k);
          return temps[k].offs;
        }
      }
      // try to find an unused slot
      for k := 0 to |temps|
        invariant Snap() == s
        invariant forall i :: 0 <= i < k ==> !temps[i].free
      {
        if temps[k].free {
          offs := temps[k].offs;
          temps := temps[k := temps[k].(nid := n, free := false)];
          TakeSlot(e, s, Snap(), k, n);
          return;
        }
      }
      // allocate a new one
      localArea := localArea - 8;
      offs := localArea;
      temps := [Slot(n, offs, false)] + temps;
      NewSlot(e, s, Snap(), n);
    }

    method FreeTemp(n: nat, ghost pin: int)
      requires Valid(pin) && n < |e.places| && !e.IsVar(n)
      modifies this`temps
      ensures Valid(pin)
      ensures HomesKeptBut(e, old(Snap()), Snap(), n) && FindSlot(temps, n) == -1
    {
      hide Inverse, Pins, Wrap, Env.WellFormed;
      ghost var s := Snap();
      for k := 0 to |temps|
        invariant Snap() == s
        invariant forall i :: 0 <= i < k ==> temps[i].free || temps[i].nid != n
      {
        if !temps[k].free && temps[k].nid == n {
          temps := temps[k := temps[k].(free := true)];
          ReleaseSlot(e, s, Snap(), k);
          return;
        }
      }
    }

    // ----------------------------------------------------------------
    // Loads, stores and spills
    // ----------------------------------------------------------------

    /** [r11 + offs] := r, through the scratch register when the displacement is too large. */
    method StoreFrame(r: nat, offs: int)
      requires Traced() && r < 15 && r != SCRATCH
      modifies this`code, this`m, this`offsToLitTab
      ensures Traced()
      ensures m.mem == old(m).mem[Wrap(old(m).Reg(FP) + offs) := old(m).Reg(r)]
      ensures forall k: nat :: k != SCRATCH ==> m.Reg(k) == old(m).Reg(k)
    {
      hide RunsTo, Paced, RotatedByte;
      if -4095 <= offs <= 4095 {
        Emit(StrFrame(r, offs));
      } else { // offset out of range
        Emit(LdrConst(SCRATCH, Wrap(offs)));
        WrapAdd(m.Reg(FP), offs);
        Emit(StrFrameReg(r, SCRATCH));
      }
    }

    /** r := [r11 + offs]. */
    method LoadFrame(r: nat, offs: int)
      requires Traced() && r < 15 && r != SCRATCH && r != FP
      modifies this`code, this`m, this`offsToLitTab
      ensures Traced()
      ensures m.mem == old(m).mem && m.Reg(r) == old(m).Load(Wrap(old(m).Reg(FP) + offs))
      ensures forall k: nat :: k != SCRATCH && k != r ==> m.Reg(k) == old(m).Reg(k)
    {
      hide RunsTo, Paced, RotatedByte;
      if -4095 <= offs <= 4095 {
        Emit(LdrFrame(r, offs));
      } else {
        Emit(LdrConst(SCRATCH, Wrap(offs)));
        WrapAdd(m.Reg(FP), offs);
        Emit(LdrFrameReg(r, SCRATCH));
      }
    }

    method StoreVar(r: nat, n: nat)
      requires Traced() && r < 15 && r != SCRATCH
      requires e.IsVar(n) && |e.symbols| == |e.places| && m.Reg(FP) == e.frame
      modifies this`code, this`m, this`offsToLitTab
      ensures Traced()
      ensures m.mem == old(m).mem[e.VarHome(n) := old(m).Reg(r)]
      ensures forall k: nat :: k != SCRATCH ==> m.Reg(k) == old(m).Reg(k)
    {
      hide RunsTo, Paced, RotatedByte, Wrap;
      if e.places[n].Symbol? {
        Emit(LdrSym(SCRATCH, n));
        Emit(StrInd(r, SCRATCH));
      } else {
        StoreFrame(r, e.places[n].offs);
      }
    }

    method LoadVar(r: nat, n: nat)
      requires Traced() && r < 15 && r != SCRATCH && r != FP
      requires e.IsVar(n) && |e.symbols| == |e.places| && m.Reg(FP) == e.frame
      modifies this`code, this`m, this`offsToLitTab
      ensures Traced()
      ensures m.mem == old(m).mem && m.Reg(r) == old(m).Load(e.VarHome(n))
      ensures forall k: nat :: k != SCRATCH && k != r ==> m.Reg(k) == old(m).Reg(k)
    {
      hide RunsTo, Paced, RotatedByte, Wrap;
      if e.places[n].Symbol? {
        Emit(LdrSym(r, n));
        Emit(LdrInd(r, r));
      } else {
        LoadFrame(r, e.places[n].offs);
      }
    }

    /** Stores register r in the home of name a. */
    method ArmStore(r: nat, a: nat, ghost pin: int)
      requires Valid(pin) && Allocatable(r) && e.c.Names(a)
      modifies this
      ensures Valid(pin) && SameTables(old(Snap()), Snap())
      ensures HomesKeptBut(e, old(Snap()), Snap(), e.c.Nid(a)) && HasHome(e, Snap(), e.c.Nid(a))
      ensures m.mem == old(m).mem[Home(e, Snap(), e.c.Nid(a)) := old(m).Reg(r)]
      ensures forall k: nat :: k != SCRATCH ==> m.Reg(k) == old(m).Reg(k)
    {
      var n := e.c.Nid(a);
      assert n < |e.places|;
      assert HomesKept(e, temps, temps, n);
      hide Inverse, Pins, Slots, Env.WellFormed, RunsTo, Paced, RotatedByte, Wrap, Step, FindSlot, HomesKept;
      if e.IsVar(n) {
        StoreVar(r, n);
      } else {
        var offs := GetTempOffs(n, pin);
        StoreFrame(r, offs);
      }
    }

    /** Loads the name n, which is in no register, from its home. */
    method LoadHome(r: nat, n: nat, ghost pin: int)
      requires Valid(pin) && Allocatable(r) && HasHome(e, Snap(), n)
      modifies this
      ensures Valid(pin) && Snap() == old(Snap()).(m := m)
      ensures m.mem == old(m).mem && m.Reg(r) == old(m).Load(old(Home(e, Snap(), n)))
      ensures forall k: nat :: k != SCRATCH && k != r ==> m.Reg(k) == old(m).Reg(k)
    {
      assert n < |e.places| && |e.symbols| == |e.places|;
      hide Inverse, Pins, Slots, Env.WellFormed, RunsTo, Paced, RotatedByte, Wrap, FindSlot;
      if e.IsVar(n) {
        LoadVar(r, n);
      } else {
        var offs := GetTempOffs(n, pin);
        LoadFrame(r, offs);
      }
    }

    /** Loads operand a into register r. */
    method ArmLoad(r: nat, a: nat, ghost pin: int, ghost live: set<nat>, ghost q: QState)
      requires Valid(pin) && Sim(e, Snap(), live, q) && Allocatable(r)
      requires a < |e.c.addresses| && !e.c.addresses[a].StrLit? && e.c.Operand(a) <= live
      modifies this
      ensures Valid(pin) && Snap() == old(Snap()).(m := m)
      ensures m.mem == old(m).mem && m.Reg(r) == OperandValue(e, a, q)
      ensures forall k: nat :: k != SCRATCH && k != r ==> m.Reg(k) == old(m).Reg(k)
    {
      if e.c.addresses[a].IConst? {
        hide Inverse, Pins, Slots, Env.WellFormed, RunsTo, Paced, RotatedByte, Wrap;
        Emit(LdrConst(r, Wrap(e.c.addresses[a].val)));
        return;
      }
      var n := e.c.Nid(a);
      assert Located(e, Snap(), n, q);
      assert n < |e.places| == addrDescr.Length;
      hide Inverse, Pins, Slots, Env.WellFormed, RunsTo, Paced, RotatedByte, Wrap, Housed, HomeIn;
      if addrDescr[n] != -1 {
        if addrDescr[n] != r {
          Emit(Mov(r, addrDescr[n]));
        }
        return;
      }
      LoadHome(r, n, pin);
    }

    /** Empties register r, bringing the home of the name it holds up to date. */
    method SpillReg(r: nat, ghost pin: int, ghost live: set<nat>, ghost q: QState)
      requires Valid(pin) && Sim(e, Snap(), live, q) && r < NREG
      modifies this, regDescr, addrDescr
      ensures Valid(pin) && Sim(e, Snap(), live, q) && regDescr[r] == 0
      ensures Tabs() == Spill(e, old(Tabs()), r)
      ensures old(regDescr[r]) == 0 ==> Snap() == old(Snap())
      ensures old(regDescr[r]) != 0 ==>
                regDescr[..] == old(regDescr[..])[r := 0]
                && addrDescr[..] == old(addrDescr[..])[e.c.Nid(old(regDescr[r])) := -1]
      ensures forall k: nat :: k != SCRATCH ==> m.Reg(k) == old(m).Reg(k)
    {
      if regDescr[r] == 0 {
        return;
      }
      hide RunsTo, Paced, RotatedByte, Wrap, Pins, Slots;
      var a := regDescr[r];
      ghost var s := Snap();
      ArmStore(r, a, pin);
      ghost var t := Snap();
      var n := e.c.Nid(a);
      assert n in live ==> Located(e, s, n, q);
      StoreKeepsOthers(e, s, t, n, s.m.Reg(r), live, q);
      addrDescr[n] := -1;
      regDescr[r] := 0;
      DropRegKeepsTables(e, t, r, pin);
      DropRegKeepsSim(e, t, r, pin, live, q);
      assert Snap() == DropReg(e, t, r);
    }

    // ----------------------------------------------------------------
    // Register allocation
    // ----------------------------------------------------------------

    /** The lowest empty register, if there is one. */
    method FreeReg(ghost pin: int) returns (found: bool, r: nat)
      requires Valid(pin)
      ensures found == (FirstFree(Tabs().regs, pin, 0) >= 0) && (found ==> r == FirstFree(Tabs().regs, pin, 0))
      ensures found ==> r < NREG && !pinned[r] && regDescr[r] == 0
      ensures forall k :: 0 <= k < (if found then r else NREG) ==> pinned[k] || regDescr[k] != 0
    {
      hide RunsTo, Paced, RotatedByte, Slots, Inverse, Env.WellFormed;
      r := 0;
      for i := 0 to NREG
        invariant FirstFree(Tabs().regs, pin, i) == FirstFree(Tabs().regs, pin, 0)
        invariant forall k :: 0 <= k < i ==> pinned[k] || regDescr[k] != 0
      {
        if !pinned[i] && regDescr[i] == 0 {
          return true, i;
        }
      }
      found := false;
    }

    /** Empty register r, found by FreeReg, is handed out. */
    method TakeFree(r: nat, ghost pin: int, ghost live: set<nat>, ghost q: QState)
      requires Valid(pin) && Sim(e, Snap(), live, q) && r < NREG && !pinned[r] && regDescr[r] == 0
      requires forall k :: 0 <= k < r ==> pinned[k] || regDescr[k] != 0
      modifies modified
      ensures Valid(pin) && Sim(e, Snap(), live, q) && Snap() == old(Snap()).(modified := modified[..]) && modified[r]
    {
      hide RunsTo, Paced, RotatedByte, Slots, Env.WellFormed, Wrap, Inverse, Sim;
      ghost var s := Snap();
      modified[r] := true;
      MarkKeepsPins(s, r, pin);
      assert Snap() == s.(modified := s.modified[r := true]);
      MarkKeepsSim(e, s, r, live, q);
    }

    /** An empty register: the lowest one free, else the lowest one not pinned, spilled. */
    method GetReg0(ghost pin: int, ghost live: set<nat>, ghost q: QState) returns (r: nat)
      requires Valid(pin) && Sim(e, Snap(), live, q)
      modifies this, modified, regDescr, addrDescr
      ensures Valid(pin) && Sim(e, Snap(), live, q)
      ensures r == Pick(old(Tabs()), pin) && Tabs() == Spill(e, old(Tabs()), r)
      ensures Allocatable(r) && r != pin && regDescr[r] == 0 && modified[r]
      ensures Fewer(old(Snap()), Snap())
      ensures forall k :: 0 <= k < NREG && k != r ==> regDescr[k] == old(regDescr[k])
      ensures forall k: nat :: k != SCRATCH ==> m.Reg(k) == old(m).Reg(k)
    {
      hide RunsTo, Paced, RotatedByte, Slots, Env.WellFormed, FirstFree, Wrap, Sim, Pick, Spill;
      var found;
      found, r := FreeReg(pin);
      if found {
        PickFree(e, Tabs(), pin);
        TakeFree(r, pin, live, q);
        return;
      }
      PickTaken(Tabs(), pin);
      r := 0;
      while r < NREG && pinned[r]
        invariant r <= NREG && Snap() == old(Snap())
        invariant forall k :: 0 <= k < r ==> pinned[k]
      {
        r := r + 1;
      }
      assert !(pinned[4] && pinned[5]); // one of the two is not pinned
      SpillReg(r, pin, live, q);
    }

    /** A register for the result of a quad: that of a dying first operand, else an empty one. */
    method GetReg(arg1: nat, f: Flags, ghost live: set<nat>, ghost q: QState) returns (r: nat)
      requires Valid(NO_PIN) && Sim(e, Snap(), live, q) && arg1 < |e.c.addresses|
      modifies this, modified, regDescr, addrDescr
      ensures Valid(NO_PIN) && Sim(e, Snap(), live, q)
      ensures r == ResultAt(e, old(Tabs()), arg1, f) && Tabs() == ForResult(e, old(Tabs()), arg1, f)
      ensures Allocatable(r) && modified[r] && Fewer(old(Snap()), Snap())
      ensures regDescr[r] != 0 ==> e.c.Names(arg1) && !f.ar1Live && e.c.Nid(regDescr[r]) == e.c.Nid(arg1)
    {
      if !e.c.addresses[arg1].IsConst() {
        var n := e.c.Nid(arg1);
        if addrDescr[n] != -1 && !f.ar1Live {
          return addrDescr[n];
        }
      }
      r := GetReg0(NO_PIN, live, q);
    }

    /** Operand a in an empty register. */
    method LoadFresh(a: nat, ghost pin: int, ghost live: set<nat>, ghost q: QState) returns (r: nat)
      requires Valid(pin) && Sim(e, Snap(), live, q)
      requires a < |e.c.addresses| && !e.c.addresses[a].StrLit? && e.c.Operand(a) <= live
      modifies this, modified, regDescr, addrDescr
      ensures Valid(pin) && Sim(e, Snap(), live, q)
      ensures Allocatable(r) && r != pin && regDescr[r] == 0 && m.Reg(r) == OperandValue(e, a, q)
      ensures r == Pick(old(Tabs()), pin) && Tabs() == Spill(e, old(Tabs()), r)
      ensures Fewer(old(Snap()), Snap())
      ensures forall k :: 0 <= k < NREG && k != r ==> regDescr[k] == old(regDescr[k])
      ensures forall k: nat :: k != SCRATCH && k != r ==> m.Reg(k) == old(m).Reg(k)
    {
      r := GetReg0(pin, live, q);
      ghost var s := Snap();
      ArmLoad(r, a, pin, live, q);
      assert forall n :: 0 <= n < |s.addrDescr| && s.addrDescr[n] == r ==> false;
      RegWriteKeepsOthers(e, s, Snap(), r, live, q);
    }

    /** A constant as an immediate operand, if it can be one. */
    method ConstOperand(a: nat, imm: bool) returns (fits: bool, op: Operand)
      requires a < |e.c.addresses| && e.c.addresses[a].IConst?
      ensures fits <==> imm && Immediate(Wrap(e.c.addresses[a].val) as bv32)
      ensures fits ==> op == Imm(Wrap(e.c.addresses[a].val)) && OperandExists(op)
    {
      fits, op := false, R(0);
      if imm {
        hide RotatedByte;
        fits := IsRepresentableInImm12(Wrap(e.c.addresses[a].val) as bv32);
        op := Imm(Wrap(e.c.addresses[a].val));
      }
    }

    /** The register a name is in, if it is in one. */
    method NameOperand(a: nat, ghost pin: int, ghost live: set<nat>, ghost q: QState) returns (found: bool, op: Operand)
      requires Valid(pin) && Sim(e, Snap(), live, q) && e.c.Names(a) && e.c.Nid(a) in live
      ensures found <==> Where(e, Tabs(), a) >= 0
      ensures found ==> m.Value(op) == OperandValue(e, a, q) && OperandExists(op) && op.R?
    {
      var n := e.c.Nid(a);
      assert Located(e, Snap(), n, q) && n < addrDescr.Length;
      hide RunsTo, Paced, RotatedByte, Slots, Pins, Env.WellFormed, Sim;
      found, op := false, R(0);
      if addrDescr[n] != -1 {
        found, op := true, R(addrDescr[n]);
      }
    }

    /** The register or immediate for a second operand, while `pin` is pinned. */
    method ArmGetOperand(a: nat, imm: bool, ghost pin: nat, ghost live: set<nat>, ghost q: QState) returns (op: Operand)
      requires Valid(pin) && Sim(e, Snap(), live, q) && Allocatable(pin)
      requires a < |e.c.addresses| && !e.c.addresses[a].StrLit? && e.c.Operand(a) <= live
      modifies this, modified, regDescr, addrDescr
      ensures Valid(pin) && Sim(e, Snap(), live, q)
      ensures m.Value(op) == OperandValue(e, a, q) && OperandExists(op) && (!imm ==> op.R?)
      ensures Fewer(old(Snap()), Snap()) && Tabs() == ForSecond(e, old(Tabs()), a, imm, pin)
      ensures regDescr[pin] == old(regDescr[pin]) && m.Reg(pin) == old(m).Reg(pin)
    {
      hide RunsTo, Paced, RotatedByte, Wrap, Slots, Sim, Inverse, Pins, Env.WellFormed, Spill, Pick, Immediate, Where;
      if e.c.addresses[a].IConst? {
        var fits;
        fits, op := ConstOperand(a, imm);
        if fits {
          return;
        }
        ConstNowhere(e, Tabs(), a);
      } else {
        var found;
        found, op := NameOperand(a, pin, live, q);
        if found {
          return;
        }
      }
      var r := LoadFresh(a, pin, live, q);
      op := R(r);
    }

    // ----------------------------------------------------------------
    // Descriptor updates after a quad
    // ----------------------------------------------------------------

    /** The name a in register r leaves it: stored if live, forgotten if dead. */
    method LeaveRegister(r: nat, a: nat, isLive: bool, ghost live: set<nat>, ghost q: QState)
      requires Valid(NO_PIN) && Sim(e, Snap(), live, q) && r < NREG && regDescr[r] != 0
      requires e.c.Names(a) && e.c.Names(regDescr[r]) && e.c.Nid(a) == e.c.Nid(regDescr[r])
      requires isLive <==> e.c.Nid(a) in live
      modifies this, regDescr, addrDescr
      ensures Valid(NO_PIN) && Sim(e, Snap(), live, q)
      ensures Cleared(old(Snap()), Snap(), e.c.Nid(a)) && Tabs() == Leave(e, old(Tabs()), a)
      ensures forall k: nat :: k != SCRATCH ==> m.Reg(k) == old(m).Reg(k)
    {
      var n := e.c.Nid(a);
      hide RunsTo, Paced, RotatedByte, Wrap, Slots, Env.WellFormed, HomesKept, Housed, Pins;
      ghost var s := Snap();
      if isLive { // spill
        ArmStore(r, a, NO_PIN);
        assert Located(e, s, n, q);
        StoreKeepsOthers(e, s, Snap(), n, s.m.Reg(r), live, q);
      }
      ghost var t := Snap();
      DropRegKeepsTables(e, t, r, NO_PIN);
      DropRegKeepsSim(e, t, r, NO_PIN, live, q);
      regDescr[r] := 0;
      addrDescr[n] := -1;
      assert Snap() == DropReg(e, t, r);
    }

    /** An operand without a further use in the block leaves its register; a dead temporary
        also gives up its slot. */
    method UpdateArgDescriptors(arg: nat, isLive: bool, nextUse: bool, ghost live: set<nat>, ghost q: QState)
      requires Valid(NO_PIN) && Sim(e, Snap(), live, q) && arg < |e.c.addresses|
      requires e.c.Names(arg) && !nextUse ==> (e.c.Nid(arg) in live ==> isLive)
      requires e.c.Names(arg) && !nextUse && isLive && InReg(Snap(), e.c.Nid(arg)) ==> e.c.Nid(arg) in live
      modifies this, regDescr, addrDescr
      ensures Valid(NO_PIN) && Sim(e, Snap(), live, q)
      ensures Released(e, old(Snap()), Snap(), arg, nextUse) && modified[..] == old(modified[..])
      ensures Tabs() == Release(e, old(Tabs()), arg, nextUse)
      ensures forall k: nat :: k != SCRATCH ==> m.Reg(k) == old(m).Reg(k)
    {
      if e.c.addresses[arg].IsConst() || nextUse {
        return;
      }
      var n := e.c.Nid(arg);
      assert n < addrDescr.Length && (e.c.addresses[arg].Id? <==> e.IsVar(n));
      hide RunsTo, Paced, RotatedByte, Wrap, Slots, Env.WellFormed, HomesKept, Housed, Pins, Sim;
      ghost var s := Snap();
      if !isLive && e.c.addresses[arg].Temp? {
        FreeTemp(n, NO_PIN);
        ReleaseKeepsSim(e, s, Snap(), n, live, q);
      }
      if addrDescr[n] != -1 {
        LeaveRegister(addrDescr[n], arg, isLive, live, q);
      }
    }

    /** The target takes over the result register; without a next use it is stored if live
        and leaves the register at once. */
    method UpdateTarDescriptors(res: nat, tar: nat, isLive: bool, nextUse: bool,
                                ghost live: set<nat>, ghost q: QState, ghost w: Word)
      requires Valid(NO_PIN) && Sim(e, Snap(), live, q) && e.c.Names(tar) && e.c.Nid(tar) !in live
      requires Allocatable(res) && modified[res] && regDescr[res] == 0 && addrDescr[e.c.Nid(tar)] == -1
      requires m.Reg(res) == w && (nextUse ==> isLive)
      modifies this, regDescr, addrDescr
      ensures Valid(NO_PIN)
      ensures Sim(e, Snap(), if isLive then live + {e.c.Nid(tar)} else live, Assign(e, e.c.Nid(tar), w, q))
      ensures addrDescr[..] == old(addrDescr[..])[e.c.Nid(tar) := if nextUse then res else -1]
      ensures Tabs() == Enter(e, old(Tabs()), res, tar, nextUse)
    {
      var n := e.c.Nid(tar);
      assert n < |e.places| && tar != 0;
      hide RunsTo, Paced, RotatedByte, Wrap, Slots, Env.WellFormed, HomesKept, Pins;
      ghost var q' := Assign(e, n, w, q);
      ghost var live' := if isLive then live + {n} else live;
      ghost var s := Snap();
      AssignKeepsOthers(e, s, n, w, live, q);
      assert live - {n} == live == live' - {n};
      hide Assign, Located;
      addrDescr[n] := res;
      regDescr[res] := tar;
      EnterKeepsTables(e, s, Snap(), res, tar, NO_PIN);
      EnterKeepsSim(e, s, Snap(), n, live', q');
      if !nextUse {
        LeaveRegister(res, tar, isLive, live', q');
      }
    }

    /** Operands first: those without a further use leave their registers. */
    method ReleaseOperands(i: Quad, f: Flags, res: nat, ghost live: set<nat>, ghost next: set<nat>, ghost q: QState)
      requires Coded() && Working(e, Snap(), i, f, res, live, next, q)
      modifies this, regDescr, addrDescr
      ensures Coded() && Done(e, Snap(), live - {e.c.Nid(i.tar)}, next - {e.c.Nid(i.tar)}, q)
      ensures modified[..] == old(modified[..]) && m.Reg(res) == old(m).Reg(res)
      ensures Tabs() == ReleaseBoth(e, old(Tabs()), i, f)
      ensures regDescr[res] == 0 && addrDescr[e.c.Nid(i.tar)] == -1
    {
      FlagFacts(e.c, i, f, live, next);
      ghost var live' := live - {e.c.Nid(i.tar)};
      hide TablesOk, SlotsOk, Context.Operand, Context.Defs, Context.WellFormed, Context.NextBefore, Context.LiveBefore;
      hide RunsTo, Paced, RotatedByte, Wrap, Slots, Env.WellFormed, Sim, Pins, FlagsOf, Inverse, OnlyNextInRegs,
          Cleared, Released;
      ghost var s := Snap();
      UpdateArgDescriptors(i.arg1, f.ar1Live, f.ar1Next, live', q);
      ghost var s1 := Snap();
      if ShapeOf(i.op) == Binary {
        UpdateArgDescriptors(i.arg2, f.ar2Live, f.ar2Next, live', q);
      }
      OperandsReleased(e, i, f, live, next, s, s1, Snap(), res);
    }

    /** The quad's value, in the empty register res, becomes the target's. */
    method SetTarget(i: Quad, f: Flags, res: nat, ghost live: set<nat>, ghost next: set<nat>, ghost q: QState)
      requires Coded() && e.WellFormed() && Supported(e, i) && !i.op.OpIndAsn?
      requires Done(e, Snap(), live - {e.c.Nid(i.tar)}, next - {e.c.Nid(i.tar)}, q)
      requires Allocatable(res) && modified[res] && regDescr[res] == 0 && addrDescr[e.c.Nid(i.tar)] == -1
      requires m.Reg(res) == QuadValue(e, i, q) && next <= live
      requires (f.tarLive <==> e.c.Nid(i.tar) in live) && (f.tarNext <==> e.c.Nid(i.tar) in next)
      modifies this, regDescr, addrDescr
      ensures Coded() && Finished(e, Snap(), i, live, next, q)
      ensures Tabs() == Enter(e, old(Tabs()), res, i.tar, f.tarNext)
    {
      ghost var t := e.c.Nid(i.tar);
      hide RunsTo, Paced, RotatedByte, Wrap, Slots, Env.WellFormed, Sim, Pins, Assign, Inverse, OnlyNextInRegs,
          QuadValue;
      ghost var s := Snap();
      UpdateTarDescriptors(res, i.tar, f.tarLive, f.tarNext, live - {t}, q, QuadValue(e, i, q));
      assert (if f.tarLive then live - {t} + {t} else live - {t}) == live;
      EnterNext(s, Snap(), t, res, f.tarNext, next);
    }

    /** The descriptor updates after a quad: operands, then target. */
    method UpdateAddresses(i: Quad, f: Flags, res: nat, ghost live: set<nat>, ghost next: set<nat>, ghost q: QState)
      requires Coded() && Working(e, Snap(), i, f, res, live, next, q)
      requires m.Reg(res) == QuadValue(e, i, q)
      modifies this, regDescr, addrDescr
      ensures Coded() && Finished(e, Snap(), i, live, next, q)
      ensures Tabs() == Enter(e, ReleaseBoth(e, old(Tabs()), i, f), res, i.tar, f.tarNext)
    {
      FlagFacts(e.c, i, f, live, next);
      assert Allocatable(res) && modified[res];
      hide RunsTo, Paced, RotatedByte, Wrap, FlagsOf, QuadValue, StepQuad, Working, Done;
      ReleaseOperands(i, f, res, live, next, q);
      SetTarget(i, f, res, live, next, q);
    }

    // ----------------------------------------------------------------
    // Handlers
    // ----------------------------------------------------------------

    /** The first operand in a register fit for the result. */
    method FirstOperand(i: Quad, f: Flags, ghost live: set<nat>, ghost next: set<nat>, ghost q: QState)
      returns (res: nat)
      requires Coded() && Begun(e, Snap(), i, f, live, next, q)
      modifies this, modified, regDescr, addrDescr
      ensures Coded() && Begun(e, Snap(), i, f, live, next, q) && ResultReg(e, Snap(), res, i.arg1, f)
      ensures m.Reg(res) == OperandValue(e, i.arg1, q) && Fewer(old(Snap()), Snap())
      ensures res == ResultAt(e, old(Tabs()), i.arg1, f) && Tabs() == ForResult(e, old(Tabs()), i.arg1, f)
    {
      assert e.c.Operand(i.arg1) <= e.c.LiveBefore(i, live);
      hide Context.LiveBefore, Context.NextBefore, FlagsOf;
      ghost var live0 := e.c.LiveBefore(i, live);
      res := GetReg(i.arg1, f, live0, q);
      ghost var s := Snap();
      ArmLoad(res, i.arg1, NO_PIN, live0, q);
      RegReloadKeepsSim(e, s, Snap(), res, i.arg1, live0, q);
    }

    method PinReg(r: nat, ghost live: set<nat>, ghost q: QState)
      requires Valid(NO_PIN) && Sim(e, Snap(), live, q) && Allocatable(r) && modified[r]
      modifies pinned
      ensures Valid(r) && Sim(e, Snap(), live, q) && Snap() == old(Snap()).(pinned := pinned[..])
    {
      hide RunsTo, Paced, RotatedByte, Wrap, Slots, Env.WellFormed, Inverse;
      ghost var s := Snap();
      PinKeepsPins(s, r);
      pinned[r] := true;
      assert Snap() == s.(pinned := s.pinned[r := true]);
    }

    method UnpinReg(r: nat, ghost pin: int, ghost live: set<nat>, ghost q: QState)
      requires Valid(pin) && (pin == NO_PIN || pin == r) && Sim(e, Snap(), live, q) && Allocatable(r)
      modifies pinned
      ensures Valid(NO_PIN) && Sim(e, Snap(), live, q) && Snap() == old(Snap()).(pinned := pinned[..])
    {
      hide RunsTo, Paced, RotatedByte, Wrap, Slots, Env.WellFormed, Inverse;
      ghost var s := Snap();
      UnpinKeepsPins(s, r, pin);
      pinned[r] := false;
      assert Snap() == s.(pinned := s.pinned[r := false]);
    }

    /** Both operands of a binary quad; the result register is pinned meanwhile. */
    method BothOperands(i: Quad, f: Flags, ghost live: set<nat>, ghost next: set<nat>, ghost q: QState)
      returns (res: nat, op: Operand)
      requires Coded() && Begun(e, Snap(), i, f, live, next, q) && ShapeOf(i.op).Binary?
      modifies this, pinned, modified, regDescr, addrDescr
      ensures Coded() && Begun(e, Snap(), i, f, live, next, q) && ResultReg(e, Snap(), res, i.arg1, f)
      ensures m.Reg(res) == OperandValue(e, i.arg1, q) && m.Value(op) == OperandValue(e, i.arg2, q)
      ensures OperandExists(op) && (i.op.OpMul? ==> op.R?)
      ensures res == QuadResultAt(e, old(Tabs()), i, f) && Tabs() == ForQuad(e, old(Tabs()), i, f)
    {
      ghost var live0 := e.c.LiveBefore(i, live);
      res := FirstOperand(i, f, live, next, q);
      hide RunsTo, Paced, RotatedByte, Wrap, Slots, Env.WellFormed, Context.LiveBefore, Context.NextBefore, Sim,
          Inverse, FlagsOf;
      PinReg(res, live0, q);
      op := ArmGetOperand(i.arg2, !i.op.OpMul?, res, live0, q);
      UnpinReg(res, res, live0, q);
    }

    /** Emits an instruction that touches no memory and no register but the result's. */
    method EmitResult(ins: Instr, i: Quad, f: Flags, res: nat, ghost live: set<nat>, ghost next: set<nat>,
        ghost q: QState)
      requires Coded() && Working(e, Snap(), i, f, res, live, next, q)
      requires Computes(ins, res) && (Allocatable(res) ==> Encodable(ins))
      modifies this`code, this`m, this`offsToLitTab
      ensures Coded() && Working(e, Snap(), i, f, res, live, next, q) && m == Step(e.symbols, ins, old(m))
    {
      assert Allocatable(res) && Annotated(e, i, f, live, next) && Snap().m.Reg(FP) == e.frame;
      ComputesOnly(e.symbols, ins, res, m);
      hide RunsTo, Paced, RotatedByte, Working, Annotated, Step, Computes;
      ghost var s := Snap();
      Emit(ins);
      WorkGoesOn(e, s, Snap(), i, f, res, live, next, q);
    }

    method EmitArith(op: Operand, i: Quad, f: Flags, res: nat, ghost live: set<nat>, ghost next: set<nat>,
        ghost q: QState)
      requires Coded() && Working(e, Snap(), i, f, res, live, next, q)
      requires IsArith(i.op) && OperandExists(op) && (i.op.OpMul? ==> op.R?)
      modifies this`code, this`m, this`offsToLitTab
      ensures Coded() && Working(e, Snap(), i, f, res, live, next, q)
      ensures m.Reg(res) == Arith(i.op, old(m).Reg(res), old(m).Value(op))
    {
      hide RunsTo, Paced, RotatedByte, Wrap, Arith, Holds, Working;
      EmitResult(Alu(i.op, res, res, op), i, f, res, live, next, q);
    }

    method ArmArith(i: Quad, f: Flags, ghost live: set<nat>, ghost next: set<nat>, ghost q: QState)
      requires Coded() && Begun(e, Snap(), i, f, live, next, q) && IsArith(i.op)
      modifies this, pinned, modified, regDescr, addrDescr
      ensures Coded() && Finished(e, Snap(), i, live, next, q)
      ensures Tabs() == After(e, old(Tabs()), i, f)
    {
      hide After, ForQuad, QuadResultAt, ReleaseBoth, Enter, Spill, Pick, BinaryValue, Supported, Annotated;
      hide RunsTo, Paced, RotatedByte, Wrap, Arith, QuadValue, StepQuad, OperandValue, Begun, Working, Finished,
          ResultReg;
      ArithValue(e, Snap(), i, f, live, next, q);
      QuadTables(e, Tabs(), i, f);
      var res, op := BothOperands(i, f, live, next, q);
      StartWork(e, Snap(), i, f, res, live, next, q);
      EmitArith(op, i, f, res, live, next, q);
      UpdateAddresses(i, f, res, live, next, q);
    }

    /** cmp res, op; mov<c.0> res, #1; mov<c.1> res, #0. */
    method EmitCompare(op: Operand, c: (Cond, Cond), i: Quad, f: Flags, res: nat,
                       ghost live: set<nat>, ghost next: set<nat>, ghost q: QState)
      requires Coded() && Working(e, Snap(), i, f, res, live, next, q)
      requires Holds(c.1, m.Reg(res), m.Value(op)) <==> !Holds(c.0, m.Reg(res), m.Value(op))
      requires OperandExists(op)
      modifies this`code, this`m, this`offsToLitTab
      ensures Coded() && Working(e, Snap(), i, f, res, live, next, q)
      ensures m.Reg(res) == Truth(Holds(c.0, old(m).Reg(res), old(m).Value(op)))
    {
      hide RunsTo, Paced, RotatedByte, Wrap, Annotated, Working, Holds;
      SmallImmediate(0);
      SmallImmediate(1);
      EmitResult(Cmp(res, op), i, f, res, live, next, q);
      EmitResult(MovIf(c.0, res, 1), i, f, res, live, next, q);
      EmitResult(MovIf(c.1, res, 0), i, f, res, live, next, q);
    }

    method ArmRelational(i: Quad, f: Flags, ghost live: set<nat>, ghost next: set<nat>, ghost q: QState)
      requires Coded() && Begun(e, Snap(), i, f, live, next, q) && IsRelational(i.op)
      modifies this, pinned, modified, regDescr, addrDescr
      ensures Coded() && Finished(e, Snap(), i, live, next, q)
      ensures Tabs() == After(e, old(Tabs()), i, f)
    {
      hide After, ForQuad, QuadResultAt, ReleaseBoth, Enter, Spill, Pick, BinaryValue, Supported, Annotated;
      hide RunsTo, Paced, RotatedByte, Wrap, QuadValue, StepQuad, OperandValue, Begun, Working, Finished, ResultReg,
          Holds, CondOf;
      RelationalValue(e, Snap(), i, f, live, next, q);
      QuadTables(e, Tabs(), i, f);
      var res, op := BothOperands(i, f, live, next, q);
      StartWork(e, Snap(), i, f, res, live, next, q);
      EmitCompare(op, CondOf(i.op, i.isUnsigned), i, f, res, live, next, q);
      UpdateAddresses(i, f, res, live, next, q);
    }

    /** The instruction of a one-operand quad; an assignment needs none. */
    method EmitUnary(i: Quad, f: Flags, res: nat, ghost live: set<nat>, ghost next: set<nat>, ghost q: QState)
      requires Coded() && Working(e, Snap(), i, f, res, live, next, q)
      requires i.op.OpNeg? || i.op.OpCmpl? || i.op.OpNot? || i.op.OpAsn?
      modifies this`code, this`m, this`offsToLitTab
      ensures Coded() && Working(e, Snap(), i, f, res, live, next, q)
      ensures m.Reg(res) == UnaryValue(i.op, old(m).Reg(res))
    {
      hide RunsTo, Paced, RotatedByte, Wrap, Annotated, Working;
      SmallImmediate(0);
      if i.op.OpNeg? {
        EmitResult(RsbZero(res, res), i, f, res, live, next, q);
      } else if i.op.OpCmpl? {
        EmitResult(Mvn(res, res), i, f, res, live, next, q);
      } else if i.op.OpNot? {
        EmitCompare(Imm(0), (EQ, NE), i, f, res, live, next, q);
      }
    }

    method ArmUnary(i: Quad, f: Flags, ghost live: set<nat>, ghost next: set<nat>, ghost q: QState)
      requires Coded() && Begun(e, Snap(), i, f, live, next, q) && ShapeOf(i.op).Unary?
      modifies this, pinned, modified, regDescr, addrDescr
      ensures Coded() && Finished(e, Snap(), i, live, next, q)
      ensures Tabs() == After(e, old(Tabs()), i, f)
    {
      hide After, ForQuad, ForResult, ResultAt, QuadResultAt, ReleaseBoth, Enter, Spill, Pick, Supported, Annotated;
      hide RunsTo, Paced, RotatedByte, Wrap, QuadValue, StepQuad, OperandValue, UnaryValue, Begun, Working, Finished,
          ResultReg;
      UnaryQuadValue(e, Snap(), i, f, live, next, q);
      UnaryTables(e, Tabs(), i, f);
      QuadTables(e, Tabs(), i, f);
      var res := FirstOperand(i, f, live, next, q);
      StartWork(e, Snap(), i, f, res, live, next, q);
      EmitUnary(i, f, res, live, next, q);
      UpdateAddresses(i, f, res, live, next, q);
    }

    /** One register of the pass that follows. */
    method SpillIfAliased(r: nat, ghost live: set<nat>, ghost q: QState)
      requires Valid(NO_PIN) && Sim(e, Snap(), live, q) && r < NREG
      modifies this, regDescr, addrDescr
      ensures Valid(NO_PIN) && Sim(e, Snap(), live, q) && Fewer(old(Snap()), Snap())
      ensures Tabs() == if Aliased(e, old(regDescr[r])) then Spill(e, old(Tabs()), r) else old(Tabs())
    {
      assert !e.c.Names(0) && (regDescr[r] != 0 ==> e.c.Names(regDescr[r]));
      hide Env.WellFormed, RunsTo, Paced, RotatedByte, Slots, Pins, Spill, Inverse, Sim;
      if regDescr[r] != 0 {
        var a := regDescr[r];
        if e.c.addresses[a].Id? && e.c.Nid(a) in e.c.addressTaken {
          SpillReg(r, NO_PIN, live, q);
        }
      }
    }

    /** Brings the memory of every address-taken variable up to date. */
    method SpillAliasedObjects(ghost live: set<nat>, ghost q: QState)
      requires Valid(NO_PIN) && Sim(e, Snap(), live, q)
      modifies this, regDescr, addrDescr
      ensures Valid(NO_PIN) && Sim(e, Snap(), live, q) && Fewer(old(Snap()), Snap())
      ensures Tabs() == SpillAliased(e, old(Tabs()), NREG)
      ensures forall n :: n in e.c.addressTaken && e.IsVar(n) ==> !InReg(Snap(), n)
    {
      assert regDescr.Length == NREG;
      hide Env.WellFormed, RunsTo, Paced, RotatedByte, Slots, Pins, Spill, SpillAliased, Inverse, Sim, Fewer;
      ghost var s := Snap();
      SpillAliasedNone(e, TablesOf(s));
      FewerSame(s);
      for r := 0 to NREG
        invariant Valid(NO_PIN) && Sim(e, Snap(), live, q) && Fewer(s, Snap())
        invariant Tabs() == SpillAliased(e, TablesOf(s), r)
      {
        SpillAliasedStep(e, TablesOf(s), r);
        assert regDescr[r] == Tabs().regs[r];
        ghost var t := Snap();
        SpillIfAliased(r, live, q);
        FewerTrans(s, t, Snap());
      }
      SpillAliasedAll(e, s, Snap());
    }

    /** Before x = *p. */
    method SpillBeforeLoad(i: Quad, f: Flags, ghost live: set<nat>, ghost next: set<nat>, ghost q: QState)
      requires Coded() && Begun(e, Snap(), i, f, live, next, q)
      modifies this, regDescr, addrDescr
      ensures Coded() && Begun(e, Snap(), i, f, live, next, q) && Tabs() == SpillAliased(e, old(Tabs()), NREG)
      ensures |Snap().addrDescr| == |e.places| && forall n :: n in e.c.addressTaken && e.IsVar(n) ==> !InReg(Snap(), n)
    {
      assert e.c.WellFormed(i);
      hide RunsTo, Paced, RotatedByte, Wrap, Slots, Env.WellFormed, Supported, Sim, OnlyNextInRegs, FlagsOf, Inverse,
          Pins, SpillAliased;
      ghost var s := Snap();
      SpillAliasedObjects(e.c.LiveBefore(i, live), q);
      FewerKeepsNext(s, Snap(), e.c.NextBefore(i, next));
    }

    /** The pointer of x = *p in a register, with what it points to in memory. */
    method PointerOperand(i: Quad, f: Flags, ghost live: set<nat>, ghost next: set<nat>, ghost q: QState)
      returns (res: nat)
      requires Coded() && Begun(e, Snap(), i, f, live, next, q) && i.op.OpInd?
      requires e.ValidPointer(OperandValue(e, i.arg1, q))
      modifies this, modified, regDescr, addrDescr
      ensures Coded() && Begun(e, Snap(), i, f, live, next, q) && ResultReg(e, Snap(), res, i.arg1, f)
      ensures m.Load(m.Reg(res)) == Fetch(q, OperandValue(e, i.arg1, q))
      ensures var t0 := SpillAliased(e, old(Tabs()), NREG);
              res == ResultAt(e, t0, i.arg1, f) && Tabs() == ForResult(e, t0, i.arg1, f)
    {
      hide ForResult, ResultAt, SpillAliased, Supported, Annotated;
      hide RunsTo, Paced, RotatedByte, Wrap, OperandValue, Begun, FlagsOf, ResultReg, Env.ValidPointer;
      SpillBeforeLoad(i, f, live, next, q);
      ghost var s := Snap();
      res := FirstOperand(i, f, live, next, q);
      PointeeInMemory(e, s, Snap(), i, f, live, next, q);
    }

    method EmitLoad(i: Quad, f: Flags, res: nat, ghost live: set<nat>, ghost next: set<nat>, ghost q: QState)
      requires Coded() && Working(e, Snap(), i, f, res, live, next, q)
      modifies this`code, this`m, this`offsToLitTab
      ensures Coded() && Working(e, Snap(), i, f, res, live, next, q)
      ensures m.Reg(res) == old(m).Load(old(m).Reg(res))
    {
      hide RunsTo, Paced, RotatedByte, Wrap, Arith, Holds, Working;
      EmitResult(LdrInd(res, res), i, f, res, live, next, q);
    }

    /** x = *p up to the update of the tables. */
    method LoadThrough(i: Quad, f: Flags, ghost live: set<nat>, ghost next: set<nat>, ghost q: QState)
      returns (res: nat)
      requires Coded() && Begun(e, Snap(), i, f, live, next, q) && i.op.OpInd?
      requires e.ValidPointer(OperandValue(e, i.arg1, q))
      modifies this, modified, regDescr, addrDescr
      ensures Coded() && Working(e, Snap(), i, f, res, live, next, q)
      ensures m.Reg(res) == Fetch(q, OperandValue(e, i.arg1, q))
      ensures var t0 := SpillAliased(e, old(Tabs()), NREG);
              res == ResultAt(e, t0, i.arg1, f) && Tabs() == ForResult(e, t0, i.arg1, f)
    {
      hide ForResult, ResultAt, SpillAliased, Supported, Annotated;
      hide RunsTo, Paced, RotatedByte, Wrap, OperandValue, Begun, Working, ResultReg, Env.ValidPointer;
      res := PointerOperand(i, f, live, next, q);
      StartWork(e, Snap(), i, f, res, live, next, q);
      EmitLoad(i, f, res, live, next, q);
    }

    method ArmInd(i: Quad, f: Flags, ghost live: set<nat>, ghost next: set<nat>, ghost q: QState)
      requires Coded() && Begun(e, Snap(), i, f, live, next, q) && i.op.OpInd?
      requires e.ValidPointer(OperandValue(e, i.arg1, q))
      modifies this, pinned, modified, regDescr, addrDescr
      ensures Coded() && Finished(e, Snap(), i, live, next, q)
      ensures Tabs() == After(e, old(Tabs()), i, f)
    {
      hide After, ForQuad, ForResult, ResultAt, QuadResultAt, ReleaseBoth, Enter, SpillAliased, Supported, Annotated;
      hide RunsTo, Paced, RotatedByte, Wrap, QuadValue, StepQuad, OperandValue, Begun, Working, Finished, ResultReg,
          Env.ValidPointer;
      IndValue(e, Snap(), i, f, live, next, q);
      IndTables(e, Tabs(), i, f);
      QuadTables(e, Tabs(), i, f);
      var res := LoadThrough(i, f, live, next, q);
      UpdateAddresses(i, f, res, live, next, q);
    }

    /** r := r11 + offs. */
    method FrameAddress(r: nat, offs: int)
      requires Traced() && Allocatable(r) && m.Reg(FP) == e.frame
      modifies this`code, this`m, this`offsToLitTab
      ensures Traced() && m.mem == old(m).mem && m.Reg(r) == Wrap(e.frame + offs)
      ensures forall k: nat :: k != SCRATCH && k != r ==> m.Reg(k) == old(m).Reg(k)
    {
      var w := Wrap(offs);
      WrapAdd(e.frame, offs);
      ArithAdd(e.frame, w);
      hide RunsTo, Paced, RotatedByte, Wrap, Arith;
      var fits := IsRepresentableInImm12(w as bv32);
      if fits {
        Emit(Alu(OpAdd, r, FP, Imm(w)));
      } else {
        Emit(LdrConst(SCRATCH, w));
        Emit(Alu(OpAdd, r, FP, R(SCRATCH)));
      }
    }

    /** r := address of variable n. */
    method ArmLoadAddr(r: nat, n: nat)
      requires Traced() && Allocatable(r)
      requires e.IsVar(n) && |e.symbols| == |e.places| && m.Reg(FP) == e.frame
      modifies this`code, this`m, this`offsToLitTab
      ensures Traced() && m.mem == old(m).mem && m.Reg(r) == e.VarHome(n)
      ensures forall k: nat :: k != SCRATCH && k != r ==> m.Reg(k) == old(m).Reg(k)
    {
      hide RunsTo, Paced, RotatedByte, Wrap, Arith;
      if e.places[n].Symbol? {
        Emit(LdrSym(r, n));
      } else {
        FrameAddress(r, e.places[n].offs);
      }
    }

    /** The address of variable n in an empty register. */
    method FreshAddress(n: nat, ghost live: set<nat>, ghost q: QState) returns (res: nat)
      requires Valid(NO_PIN) && Sim(e, Snap(), live, q) && e.IsVar(n)
      modifies this, modified, regDescr, addrDescr
      ensures Valid(NO_PIN) && Sim(e, Snap(), live, q) && Fewer(old(Snap()), Snap())
      ensures Allocatable(res) && modified[res] && regDescr[res] == 0 && m.Reg(res) == e.VarHome(n)
      ensures res == Pick(old(Tabs()), NO_PIN) && Tabs() == Spill(e, old(Tabs()), res)
    {
      res := GetReg0(NO_PIN, live, q);
      hide RunsTo, Paced, RotatedByte, Wrap, Slots, Env.WellFormed, Pins;
      ghost var s := Snap();
      ArmLoadAddr(res, n);
      RegWriteKeepsOthers(e, s, Snap(), res, live, q);
    }

    /** x = &y. */
    method ArmAddrOf(i: Quad, f: Flags, ghost live: set<nat>, ghost next: set<nat>, ghost q: QState)
      requires Coded() && e.WellFormed() && Supported(e, i) && i.op.OpAddrOf?
      requires f == FlagsOf(e.c, i, live, next) && next <= live && Ready(e, Snap(), i, live, next, q)
      modifies this, pinned, modified, regDescr, addrDescr
      ensures Coded() && Finished(e, Snap(), i, live, next, q)
      ensures Tabs() == After(e, old(Tabs()), i, f)
    {
      ghost var t := e.c.Nid(i.tar);
      AddrOfFacts(e, Snap(), i, f, live, next, q);
      hide RunsTo, Paced, RotatedByte, Wrap, Slots, Env.WellFormed, QuadValue, FlagsOf, Pins, Context.LiveBefore,
          Context.NextBefore,
          Supported;
      hide Sim, Inverse, OnlyNextInRegs, StepQuad;
      ghost var s := Snap();
      var res := FreshAddress(e.c.Nid(i.arg1), live - {t}, q);
      FewerKeepsNext(s, Snap(), next - {t});
      SetTarget(i, f, res, live, next, q);
    }

    /** The pointer of *p = x in a register: the one it is in, which stays unpinned, or a fresh
        one, pinned. */
    method StorePointer(i: Quad, f: Flags, ghost live: set<nat>, ghost q: QState) returns (pr: nat, ghost pin: int)
      requires Valid(NO_PIN) && Sim(e, Snap(), live, q) && Supported(e, i) && i.op.OpIndAsn?
      requires e.c.Operand(i.arg1) <= live
      modifies this, pinned, modified, regDescr, addrDescr
      ensures Valid(pin) && Sim(e, Snap(), live, q) && Fewer(old(Snap()), Snap())
      ensures Allocatable(pr) && m.Reg(pr) == OperandValue(e, i.arg1, q) && (pin == NO_PIN || pin == pr)
      ensures pr == PointerAt(e, old(Tabs()), i, f) && pin == PointerPin(e, old(Tabs()), i, f)
      ensures Tabs() == ForPointer(e, old(Tabs()), i, f)
    {
      var n := e.c.Nid(i.arg1);
      assert Located(e, Snap(), n, q) && n < addrDescr.Length;
      hide RunsTo, Paced, RotatedByte, Wrap, Slots, Env.WellFormed, Inverse, Pins, OperandValue, Pick, Spill;
      if addrDescr[n] == -1 {
        pr := GetReg(i.arg1, f, live, q);
        ghost var s := Snap();
        ArmLoad(pr, i.arg1, NO_PIN, live, q);
        RegReloadKeepsSim(e, s, Snap(), pr, i.arg1, live, q);
        PinReg(pr, live, q);
        pin := pr;
      } else {
        pr := addrDescr[n];
        pin := NO_PIN;
      }
    }

    /** A constant in the scratch register. */
    method ScratchConst(a: nat, ghost pin: int, ghost live: set<nat>, ghost q: QState)
      requires Valid(pin) && Sim(e, Snap(), live, q) && a < |e.c.addresses| && e.c.addresses[a].IConst?
      modifies this`code, this`m, this`offsToLitTab
      ensures Valid(pin) && Sim(e, Snap(), live, q) && m.Reg(SCRATCH) == OperandValue(e, a, q)
      ensures forall k: nat :: k != SCRATCH ==> m.Reg(k) == old(m).Reg(k)
    {
      assert forall n: nat :: n < addrDescr.Length && addrDescr[n] != -1 ==> addrDescr[n] != SCRATCH;
      hide RunsTo, Paced, RotatedByte, Slots, Env.WellFormed, Inverse, Pins;
      ghost var s := Snap();
      Emit(LdrConst(SCRATCH, Wrap(e.c.addresses[a].val)));
      RegWriteKeepsOthers(e, s, Snap(), SCRATCH, live, q);
    }

    /** The value of *p = x in a register. An unpinned pointer register is handed out for it when
        x must be loaded and no other register is empty. */
    method StoreValue(i: Quad, pr: nat, ghost pin: int, ghost live: set<nat>, ghost q: QState) returns (r: nat)
      requires Valid(pin) && Sim(e, Snap(), live, q) && Supported(e, i) && i.op.OpIndAsn? && e.c.Operand(i.arg2) <= live
      requires Allocatable(pr) && m.Reg(pr) == OperandValue(e, i.arg1, q)
      modifies this, pinned, modified, regDescr, addrDescr
      ensures Valid(pin) && Sim(e, Snap(), live, q) && Fewer(old(Snap()), Snap())
      ensures Tabs() == ForValue(e, old(Tabs()), i, pin)
      ensures m.Reg(r) == OperandValue(e, i.arg2, q) && r < 15
      ensures m.Reg(pr) == OperandValue(e, if Strikes(e, old(Tabs()), i, pr, pin) then i.arg2 else i.arg1, q)
    {
      if e.c.addresses[i.arg2].IConst? {
        hide RunsTo, Paced, RotatedByte, Slots, Env.WellFormed, Inverse, Pins, Sim, OperandValue;
        ConstNowhere(e, Tabs(), i.arg2);
        r := SCRATCH;
        ScratchConst(i.arg2, pin, live, q);
        return;
      }
      var n := e.c.Nid(i.arg2);
      assert Located(e, Snap(), n, q) && n < addrDescr.Length;
      hide RunsTo, Paced, RotatedByte, Wrap, Slots, Env.WellFormed, Inverse, Pins, OperandValue, Sim, Pick, Spill;
      if addrDescr[n] == -1 {
        r := LoadFresh(i.arg2, pin, live, q);
      } else {
        r := addrDescr[n];
      }
    }

    /** The store itself, to whatever address a is in register pr. */
    method EmitStore(r: nat, pr: nat, ghost pin: int, ghost a: Word, ghost v: Word, ghost live: set<nat>,
        ghost q: QState)
      requires Valid(pin) && Sim(e, Snap(), live, q)
      requires forall n :: n in e.c.addressTaken && e.IsVar(n) ==> !InReg(Snap(), n)
      requires m.Reg(r) == v && m.Reg(pr) == a && r < 15 && pr < 15
      modifies this`code, this`m, this`offsToLitTab
      ensures Valid(pin) && Sim(e, Snap(), Kept(e, a, live), q.(mem := q.mem[a := v]))
      ensures Snap() == old(Snap()).(m := m)
    {
      hide RunsTo, Paced, RotatedByte, Wrap, Inverse, Pins, Env.WellFormed, Env.ValidPointer, Slots;
      ghost var s := Snap();
      Emit(StrInd(r, pr));
      StoreThroughKeepsSim(e, s, Snap(), a, v, live, q);
    }

    /** Both operands of *p = x leave their registers if they have no further use. */
    method ReleaseStore(i: Quad, f: Flags, ghost kept: set<nat>, ghost live: set<nat>, ghost next: set<nat>,
                        ghost q: QState)
      requires Coded() && e.WellFormed() && Supported(e, i) && i.op.OpIndAsn?
      requires f == FlagsOf(e.c, i, live, next) && next <= live && kept <= live
      requires kept == live || (Where(e, Tabs(), i.arg1) == -1 && Where(e, Tabs(), i.arg2) == -1)
      requires Ok(e, Snap(), NO_PIN) && Sim(e, Snap(), kept, q) && OnlyNextInRegs(Snap(), e.c.NextBefore(i, next))
      modifies this, regDescr, addrDescr
      ensures Coded() && Done(e, Snap(), kept, next, q) && Fewer(old(Snap()), Snap())
      ensures Tabs() == ReleaseBoth(e, old(Tabs()), i, f)
    {
      IndAsnFlags(e.c, i, f, live, next);
      assert addrDescr.Length == |e.places| && e.c.Names(i.arg1) && i.arg2 < |e.c.addresses| && e.c.WellFormed(i);
      hide RunsTo, Paced, RotatedByte, Wrap, Slots, Env.WellFormed, Sim, Pins, FlagsOf, Inverse, OnlyNextInRegs,
          Supported, Cleared,
          Released;
      hide Context.NextBefore, Context.LiveBefore, Release, Where, Fewer;
      ghost var s := Snap();
      ReleasedLess(e, s, s, i.arg1, true, i.arg1);
      UpdateArgDescriptors(i.arg1, f.ar1Live, f.ar1Next, kept, q);
      ghost var s1 := Snap();
      ReleasedLess(e, s, s1, i.arg1, f.ar1Next, i.arg2);
      UpdateArgDescriptors(i.arg2, f.ar2Live, f.ar2Next, kept, q);
      IndAsnReleased(e, i, f, live, next, s, s1, Snap());
      ReleasedLess(e, s1, Snap(), i.arg2, f.ar2Next, i.arg2);
      FewerTrans(s, s1, Snap());
    }

    /** With the pointer in register pr: loads the value, stores to the address then in pr, unpins. */
    method FinishStore(i: Quad, pr: nat, ghost pin: int, ghost live: set<nat>, ghost q: QState)
      requires Valid(pin) && Sim(e, Snap(), live, q) && Supported(e, i) && i.op.OpIndAsn? && e.c.Operand(i.arg2) <= live
      requires Allocatable(pr) && m.Reg(pr) == OperandValue(e, i.arg1, q) && (pin == NO_PIN || pin == pr)
      requires forall n :: n in e.c.addressTaken && e.IsVar(n) ==> !InReg(Snap(), n)
      modifies this, pinned, modified, regDescr, addrDescr
      ensures Valid(NO_PIN) && Fewer(old(Snap()), Snap()) && Tabs() == ForValue(e, old(Tabs()), i, pin)
      ensures var v := OperandValue(e, i.arg2, q);
              var a := if Strikes(e, old(Tabs()), i, pr, pin) then v else OperandValue(e, i.arg1, q);
              Sim(e, Snap(), Kept(e, a, live), q.(mem := q.mem[a := v]))
    {
      assert addrDescr.Length == |e.places|;
      assert i.arg1 < |e.c.addresses| && i.arg2 < |e.c.addresses|;
      ghost var v := OperandValue(e, i.arg2, q);
      ghost var a := if Strikes(e, Tabs(), i, pr, pin) then v else OperandValue(e, i.arg1, q);
      hide RunsTo, Paced, RotatedByte, Wrap, Slots, Env.WellFormed, Kept, Pins, Inverse, OperandValue, Sim,
          Supported, Strikes, ForValue;
      ghost var s := Snap();
      var r := StoreValue(i, pr, pin, live, q);
      FewerTwice(e, s, s, Snap());
      EmitStore(r, pr, pin, a, v, live, q);
      UnpinReg(pr, pin, Kept(e, a, live), q.(mem := q.mem[a := v]));
    }

    /** *p = x with the address-taken variables already in memory. */
    method StoreThrough(i: Quad, f: Flags, ghost live: set<nat>, ghost q: QState)
      requires Valid(NO_PIN) && Sim(e, Snap(), live, q) && Supported(e, i) && i.op.OpIndAsn?
      requires e.c.Operand(i.arg1) + e.c.Operand(i.arg2) <= live
      requires forall n :: n in e.c.addressTaken && e.IsVar(n) ==> !InReg(Snap(), n)
      modifies this, pinned, modified, regDescr, addrDescr
      ensures Valid(NO_PIN) && Fewer(old(Snap()), Snap()) && Tabs() == ForStore(e, old(Tabs()), i, f)
      ensures var v := OperandValue(e, i.arg2, q);
              var struck := Strikes(e, ForPointer(e, old(Tabs()), i, f), i, PointerAt(e, old(Tabs()), i, f),
                                    PointerPin(e, old(Tabs()), i, f));
              var a := if struck then v else OperandValue(e, i.arg1, q);
              Sim(e, Snap(), Kept(e, a, live), q.(mem := q.mem[a := v]))
    {
      assert addrDescr.Length == |e.places|;
      hide RunsTo, Paced, RotatedByte, Wrap, Slots, Env.WellFormed, Kept, Pins, Inverse, OperandValue, Sim, Strikes,
          ForValue, ForPointer;
      hide PointerAt, PointerPin;
      ghost var s := Snap();
      var pr, pin := StorePointer(i, f, live, q);
      FewerTwice(e, s, s, Snap());
      FinishStore(i, pr, pin, live, q);
    }

    /** *p = x up to the release of its operands. */
    method StoreAliased(i: Quad, f: Flags, ghost live: set<nat>, ghost q: QState)
      requires Valid(NO_PIN) && Sim(e, Snap(), live, q) && Supported(e, i) && i.op.OpIndAsn?
      requires e.c.Operand(i.arg1) + e.c.Operand(i.arg2) <= live
      modifies this, pinned, modified, regDescr, addrDescr
      ensures Valid(NO_PIN) && Fewer(old(Snap()), Snap())
      ensures Tabs() == ForStore(e, SpillAliased(e, old(Tabs()), NREG), i, f)
      ensures Sim(e, Snap(), Kept(e, StoreAddress(e, old(Tabs()), i, q), live), StepCode(e, old(Tabs()), i, q))
      ensures forall n :: n in e.c.addressTaken && e.IsVar(n) ==> !InReg(Snap(), n)
    {
      assert |e.places| == addrDescr.Length;
      ClobbersMeans(e, Tabs(), i, f);
      hide RunsTo, Paced, RotatedByte, Wrap, Slots, Env.WellFormed, Kept, Pins, Inverse, OperandValue, Sim, Strikes,
          ForStore, ForPointer;
      hide PointerAt, PointerPin, SpillAliased, Clobbers;
      ghost var s0 := Snap();
      SpillAliasedObjects(live, q);
      ghost var s := Snap();
      StoreThrough(i, f, live, q);
      FewerTwice(e, s, s, Snap());
    }

    /** *p = x. The emitted code stores x at p, unless it clobbers the pointer and stores x at x.
        Nothing is assumed of the address: a store to the home of a variable no pointer points to
        leaves at least the address-taken variables and all other memory as the quads have them. */
    method ArmIndAsn(i: Quad, f: Flags, ghost live: set<nat>, ghost next: set<nat>, ghost q: QState)
      requires Coded() && e.WellFormed() && Supported(e, i) && i.op.OpIndAsn?
      requires f == FlagsOf(e.c, i, live, next) && next <= live && Ready(e, Snap(), i, live, next, q)
      requires Clobbers(e, Tabs(), i) || e.ValidPointer(OperandValue(e, i.arg1, q))
      modifies this, pinned, modified, regDescr, addrDescr
      ensures Coded() && Tabs() == After(e, old(Tabs()), i, f)
      ensures Done(e, Snap(), Kept(e, StoreAddress(e, old(Tabs()), i, q), live), next, StepCode(e, old(Tabs()), i, q))
      ensures forall b :: Visible(e, b, live) ==> m.Load(b) == Fetch(StepCode(e, old(Tabs()), i, q), b)
      ensures var p, v := OperandValue(e, i.arg1, q), OperandValue(e, i.arg2, q);
              Visible(e, p, live) ==> (m.Load(p) == v <==> !old(Clobbers(e, Tabs(), i)) || p == v || Fetch(q, p) == v)
    {
      IndAsnFlags(e.c, i, f, live, next);
      ghost var live0, next0 := e.c.LiveBefore(i, live), e.c.NextBefore(i, next);
      hide RunsTo, Paced, RotatedByte, Wrap, Slots, Env.WellFormed, Env.ValidPointer, Pins, FlagsOf, Inverse,
          OperandValue, OnlyNextInRegs;
      hide Context.NextBefore, Context.LiveBefore, Sim, Clobbers, StepCode, Kept, ForStore, ReleaseBoth, Where, Visible;
      ghost var s0, t0 := Snap(), Tabs();
      ghost var a, q' := StoreAddress(e, t0, i, q), StepCode(e, t0, i, q);
      StoreAliased(i, f, live0, q);
      ghost var s := Snap();
      FewerKeepsNext(s0, s, next0);
      KeptSubset(e, s, a, live0, live, q');
      if Clobbers(e, t0, i) {
        ClobberedLeave(e, t0, i, f);
      }
      ReleaseStore(i, f, Kept(e, a, live), live, next, q');
      FewerTwice(e, s, s, Snap());
      VisibleInMemory(e, Snap(), a, live, q');
      if Visible(e, OperandValue(e, i.arg1, q), live) {
        StoredExactly(e, t0, i, live, q, m);
      }
    }

    // ----------------------------------------------------------------
    // Blocks
    // ----------------------------------------------------------------

    method TranslateQuad(i: Quad, f: Flags, ghost live: set<nat>, ghost next: set<nat>, ghost q: QState)
      requires Coded() && e.WellFormed() && Supported(e, i)
      requires f == FlagsOf(e.c, i, live, next) && next <= live && Ready(e, Snap(), i, live, next, q)
      requires i.op.OpInd? || i.op.OpIndAsn? ==> e.ValidPointer(StoreAddress(e, Tabs(), i, q))
      modifies this, pinned, modified, regDescr, addrDescr
      ensures Coded() && Tabs() == After(e, old(Tabs()), i, f)
      ensures Done(e, Snap(), live, next, StepCode(e, old(Tabs()), i, q))
    {
      hide RunsTo, Paced, RotatedByte, FlagsOf, StepQuad, Ready, Done, OperandValue, Env.WellFormed,
          Env.ValidPointer, After;
      if IsArith(i.op) {
        ArmArith(i, f, live, next, q);
      } else if IsRelational(i.op) {
        ArmRelational(i, f, live, next, q);
      } else if i.op.OpInd? {
        ArmInd(i, f, live, next, q);
      } else if i.op.OpIndAsn? {
        ArmIndAsn(i, f, live, next, q);
      } else if i.op.OpAddrOf? {
        ArmAddrOf(i, f, live, next, q);
      } else {
        ArmUnary(i, f, live, next, q);
      }
    }

    /** Translates a block whose quads carry the bits of the backward scan. Started with the
        names live there in their homes, the emitted code leaves every name live on exit in its
        home, with the value RunCode gives it, and all registers free. */
    method TranslateBlock(quads: seq<Quad>, flags: seq<Flags>, ghost liveOut: set<nat>, ghost q: QState)
      requires Coded() && e.WellFormed() && AllSupported(e, quads) && Scanned(e, quads, flags, liveOut)
      requires InMemory(e, Snap(), LiveAt(e, quads, liveOut), q) && CodeSafe(e, Tabs(), quads, liveOut, q)
      requires |flags| == |quads|
      modifies this, pinned, modified, regDescr, addrDescr
      ensures Coded() && InMemory(e, Snap(), liveOut, RunCode(e, old(Tabs()), quads, liveOut, q))
    {
      hide RunsTo, Paced, RotatedByte, InMemory, Midway, Ready, Done, FlagsOf, StepCode, OperandValue, Supported,
          AllSupported;
      hide Env.WellFormed, Env.ValidPointer, Scanned, CodeSafe, RunCode, After;
      ghost var q', final := q, RunCode(e, Tabs(), quads, liveOut, q);
      MidwayStart(e, Snap(), quads, flags, liveOut, q);
      assert quads[0..] == quads && flags[0..] == flags;
      for k := 0 to |quads|
        invariant Coded() && Midway(e, Snap(), quads[k..], flags[k..], liveOut, q', final)
      {
        ghost var rest, bits := quads[k..], flags[k..];
        assert rest[0] == quads[k] && rest[1..] == quads[k + 1..] && bits[1..] == flags[k + 1..] && bits[0] == flags[k];
        ghost var s := Snap();
        MidwayNext(e, s, rest, bits, liveOut, q', final);
        TranslateQuad(quads[k], flags[k], LiveAt(e, rest[1..], liveOut), NextAt(e, rest[1..]), q');
        MidwayStep(e, s, Snap(), rest, bits, liveOut, q', final);
        q' := StepCode(e, TablesOf(s), quads[k], q');
      }
      assert quads[|quads|..] == [];
      MidwayEnd(e, Snap(), flags[|quads|..], liveOut, q', final);
    }

    /** The backward scan and the translation together. Whatever machine the code of the block is
        entered with, if memory holds what the block may read from outside, the code appended here
        leaves in memory what RunCode computes: what the quads compute, as long as no store is
        clobbered, and none is in an uncrowded block. */
    method CompileBlock(quads: seq<Quad>, liveOut: set<nat>, ghost entry: Machine, ghost q: QState)
      requires Apart() && e.WellFormed() && AllSupported(e, quads) && CodeSafe(e, NoRegisters(e), quads, liveOut, q)
      requires InMemory(e, Snap().(m := entry), LiveAt(e, quads, liveOut), q) && Paced(code, offsToLitTab)
      modifies this, trace, pinned, modified, regDescr, addrDescr
      ensures Apart() && old(code) <= code && m == Run(e.symbols, code[|old(code)|..], entry)
      ensures (forall k :: |old(code)| <= k < |code| ==> Encodable(code[k])) && Paced(code, offsToLitTab)
      ensures InMemory(e, Snap(), liveOut, RunCode(e, NoRegisters(e), quads, liveOut, q))
      ensures Uncrowded(e, quads) ==> InMemory(e, Snap(), liveOut, RunQuads(e, quads, q))
    {
      hide InMemory, AllSupported, Env.WellFormed, CodeSafe, RunCode, FlagsOf, Uncrowded, RunQuads, NoRegisters;
      FreeTables(e, Snap().(m := entry), LiveAt(e, quads, liveOut), q);
      SupportedWellFormed(e, quads);
      m := entry;
      trace.before, trace.entry := code, entry;
      assert code[|code|..] == [];
      var bits := new Flags[|quads|](_ => NO_FLAGS);
      var table := new OperandTable(e.c, bits);
      table.AnnotateBlock(quads, liveOut);
      ScannedFromBits(e, quads, bits[..], liveOut);
      TranslateBlock(quads, bits[..], liveOut, q);
      if Uncrowded(e, quads) {
        UncrowdedRight(e, quads, liveOut, q);
      }
    }
  }
}
