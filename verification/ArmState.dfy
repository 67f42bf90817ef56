/** The code generator's view of a function: where names live, what the descriptor tables say,
    and what it means for the emitted code to agree with the quads. */
module ArmState {
  import opened Ic
  import opened Dflow
  import opened ArmMachine

  /** Where a name lives in memory. Temporaries get a frame slot only when one is needed. */
  datatype Place = Unplaced | Symbol | Frame(offs: int)

  /** An entry of the list of temporary slots. */
  datatype Slot = Slot(nid: nat, offs: int, free: bool)

  /** Everything that is fixed while a function is translated. `area` is the size of the local
      area (a non-positive displacement), `frame` the run-time value of r11. */
  datatype Env = Env(c: Context, places: seq<Place>, symbols: seq<Word>, area: int, frame: Word)
  {
    predicate IsVar(n: nat) { n < |places| && !places[n].Unplaced? }

    function VarHome(n: nat): Word
      requires IsVar(n)
    {
      if places[n].Frame? then Wrap(frame + places[n].offs) else if n < |symbols| then symbols[n] else 0
    }

    function SlotOffs(k: nat): int { area - 8 * k }

    function SlotHome(k: nat): Word { Wrap(frame + SlotOffs(k)) }

    /** Distinct objects have distinct homes: variables, and the slots below the local area. */
    ghost predicate WellFormed() {
      && |symbols| == |places|
      && |c.addresses| > 0 && c.addresses[0].IsConst()
      && (forall a :: 0 <= a < |c.addresses| && !c.addresses[a].IsConst() ==>
            c.Nid(a) < |places| && (c.addresses[a].Id? <==> IsVar(c.Nid(a))))
      && (forall m, n :: IsVar(m) && IsVar(n) && m != n ==> VarHome(m) != VarHome(n))
      && (forall j, k :: 1 <= j < k <= |places| ==> SlotHome(j) != SlotHome(k))
      && (forall n, k :: IsVar(n) && 1 <= k <= |places| ==> VarHome(n) != SlotHome(k))
    }

    /** Memory that belongs to no variable and no slot. */
    ghost predicate IsHeap(p: Word) {
      && (forall n :: IsVar(n) ==> VarHome(n) != p)
      && (forall k :: 1 <= k <= |places| ==> SlotHome(k) != p)
    }

    /** What a pointer may point to: memory outside the frame's bookkeeping, or a variable
        whose address is taken. */
    ghost predicate ValidPointer(p: Word) {
      IsHeap(p) || exists n :: n in c.addressTaken && IsVar(n) && VarHome(n) == p
    }
  }

  // ------------------------------------------------------------------
  // Meaning of the quads
  // ------------------------------------------------------------------

  /** The state the quads work on: variables live in memory, temporaries on their own. */
  datatype QState = QState(temps: map<nat, Word>, mem: map<Word, Word>)

  function Fetch(q: QState, p: Word): Word { if p in q.mem then q.mem[p] else 0 }

  function NameValue(e: Env, n: nat, q: QState): Word {
    if e.IsVar(n) then Fetch(q, e.VarHome(n)) else if n in q.temps then q.temps[n] else 0
  }

  function Assign(e: Env, n: nat, w: Word, q: QState): QState {
    if e.IsVar(n) then q.(mem := q.mem[e.VarHome(n) := w]) else q.(temps := q.temps[n := w])
  }

  function OperandValue(e: Env, a: nat, q: QState): Word {
    if a >= |e.c.addresses| then 0
    else match e.c.addresses[a]
    case IConst(val) => Wrap(val)
    case StrLit(_) => 0
    case Id(n) => NameValue(e, n, q)
    case Temp(n) => NameValue(e, n, q)
  }

  function Truth(b: bool): Word { if b then 1 else 0 }

  function BinaryValue(op: OpKind, isUnsigned: bool, a: Word, b: Word): Word {
    match op
    case OpEQ => Truth(a == b)
    case OpNEQ => Truth(a != b)
    case OpLT => Truth(if isUnsigned then a < b else SignedLess(a, b))
    case OpLET => Truth(if isUnsigned then a <= b else !SignedLess(b, a))
    case OpGT => Truth(if isUnsigned then b < a else SignedLess(b, a))
    case OpGET => Truth(if isUnsigned then b <= a else !SignedLess(a, b))
    case _ => Arith(op, a, b)
  }

  function UnaryValue(op: OpKind, a: Word): Word {
    match op
    case OpNeg => Wrap(0 - a)
    case OpCmpl => 0xFFFF_FFFF - a
    case OpNot => Truth(a == 0)
    case _ => a
  }

  predicate IsArith(op: OpKind) {
    op.OpAdd? || op.OpSub? || op.OpMul? || op.OpAnd? || op.OpOr? || op.OpXor?
  }

  predicate IsRelational(op: OpKind) {
    op.OpEQ? || op.OpNEQ? || op.OpLT? || op.OpLET? || op.OpGT? || op.OpGET?
  }

  /** The quads covered: word-sized, straight-line. */
  predicate Supported(e: Env, q: Quad) {
    && e.c.WellFormed(q)
    && q.arg1 < |e.c.addresses| && q.arg2 < |e.c.addresses|
    && !e.c.addresses[q.arg1].StrLit? && !e.c.addresses[q.arg2].StrLit?
    && (IsArith(q.op) || IsRelational(q.op) || q.op.OpNeg? || q.op.OpCmpl? || q.op.OpNot? || q.op.OpAsn?
        || q.op.OpInd? || q.op.OpIndAsn? || (q.op.OpAddrOf? && e.c.addresses[q.arg1].Id?))
  }

  /** The value a quad gives its target. */
  ghost function QuadValue(e: Env, i: Quad, q: QState): Word
    requires e.WellFormed() && Supported(e, i) && !i.op.OpIndAsn?
  {
    if IsArith(i.op) || IsRelational(i.op) then
      BinaryValue(i.op, i.isUnsigned, OperandValue(e, i.arg1, q), OperandValue(e, i.arg2, q))
    else if i.op.OpInd? then Fetch(q, OperandValue(e, i.arg1, q))
    else if i.op.OpAddrOf? then e.VarHome(e.c.Nid(i.arg1))
    else UnaryValue(i.op, OperandValue(e, i.arg1, q))
  }

  ghost function StepQuad(e: Env, i: Quad, q: QState): QState
    requires e.WellFormed() && Supported(e, i)
  {
    if i.op.OpIndAsn? then q.(mem := q.mem[OperandValue(e, i.arg1, q) := OperandValue(e, i.arg2, q)])
    else Assign(e, e.c.Nid(i.tar), QuadValue(e, i, q), q)
  }

  ghost predicate AllSupported(e: Env, quads: seq<Quad>) {
    forall q :: q in quads ==> Supported(e, q)
  }

  ghost function RunQuads(e: Env, quads: seq<Quad>, q: QState): QState
    requires e.WellFormed() && AllSupported(e, quads)
  {
    if quads == [] then q
    else
      assert quads[0] in quads;
      RunQuads(e, quads[1..], StepQuad(e, quads[0], q))
  }

  /** Every pointer the run dereferences is valid. */
  ghost predicate PointersValid(e: Env, quads: seq<Quad>, q: QState)
    requires e.WellFormed() && AllSupported(e, quads)
  {
    quads != [] ==>
      assert quads[0] in quads;
      && (quads[0].op.OpInd? || quads[0].op.OpIndAsn? ==> e.ValidPointer(OperandValue(e, quads[0].arg1, q)))
      && PointersValid(e, quads[1..], StepQuad(e, quads[0], q))
  }

  // ------------------------------------------------------------------
  // The generator's state
  // ------------------------------------------------------------------

  /** A snapshot: the tables of the generator and the machine after the code emitted so far. */
  datatype State = State(pinned: seq<bool>, modified: seq<bool>, regDescr: seq<nat>, addrDescr: seq<int>,
                         temps: seq<Slot>, localArea: int, m: Machine)

  /** Registers the allocator hands out: v1..v7 and lr. */
  predicate Allocatable(r: int) { 4 <= r <= 10 || r == 14 }

  const NO_PIN := -1

  /** The two tables are inverse to each other and only allocatable registers hold names. */
  ghost predicate Inverse(e: Env, regDescr: seq<nat>, addrDescr: seq<int>) {
    && |regDescr| == NREG && |addrDescr| == |e.places|
    && (forall r :: 0 <= r < NREG && regDescr[r] != 0 ==>
          Allocatable(r) && e.c.Names(regDescr[r])
          && e.c.Nid(regDescr[r]) < |addrDescr| && addrDescr[e.c.Nid(regDescr[r])] == r)
    && (forall n :: 0 <= n < |addrDescr| && addrDescr[n] != -1 ==>
          0 <= addrDescr[n] < NREG && regDescr[addrDescr[n]] != 0
          && e.c.Names(regDescr[addrDescr[n]]) && e.c.Nid(regDescr[addrDescr[n]]) == n)
  }

  /** Apart from `pin`, exactly the reserved registers are pinned; the registers used so far
      are the lowest ones, as the prologue's save sequence expects. */
  ghost predicate Pins(pinned: seq<bool>, modified: seq<bool>, regDescr: seq<nat>, pin: int) {
    && |pinned| == NREG && |modified| == NREG && |regDescr| == NREG
    && (forall r :: 0 <= r < NREG ==> (pinned[r] <==> (!Allocatable(r) || r == pin)))
    && (forall r :: 0 <= r < NREG && modified[r] ==> Allocatable(r))
    && (forall r :: 0 <= r < NREG && regDescr[r] != 0 ==> modified[r])
    && (forall r, t :: 0 <= r < t < NREG && Allocatable(r) && modified[t] ==> modified[r])
    && (pin != NO_PIN ==> 0 <= pin < NREG && modified[pin])
  }

  /** Index of the slot that holds name n, or -1. */
  function FindSlot(temps: seq<Slot>, n: nat): (k: int)
    ensures -1 <= k < |temps|
    ensures k != -1 ==> !temps[k].free && temps[k].nid == n
    ensures k == -1 ==> forall i :: 0 <= i < |temps| ==> temps[i].free || temps[i].nid != n
  {
    if temps == [] then -1
    else if !temps[0].free && temps[0].nid == n then 0
    else var k := FindSlot(temps[1..], n); if k == -1 then -1 else k + 1
  }

  /** Slots are laid out downwards, newest first, one name per occupied slot. */
  ghost predicate Slots(e: Env, temps: seq<Slot>, localArea: int) {
    && |temps| <= |e.places|
    && localArea == e.SlotOffs(|temps|)
    && (forall k :: 0 <= k < |temps| ==> temps[k].offs == e.SlotOffs(|temps| - k))
    && (forall k :: 0 <= k < |temps| && !temps[k].free ==> temps[k].nid < |e.places| && !e.IsVar(temps[k].nid))
    && (forall j, k :: 0 <= j < k < |temps| && !temps[j].free && !temps[k].free ==> temps[j].nid != temps[k].nid)
  }

  ghost predicate SlotsOk(e: Env, s: State) { Slots(e, s.temps, s.localArea) }

  ghost predicate TablesOk(e: Env, s: State) { Inverse(e, s.regDescr, s.addrDescr) }

  ghost predicate Ok(e: Env, s: State, pin: int) {
    TablesOk(e, s) && Pins(s.pinned, s.modified, s.regDescr, pin) && SlotsOk(e, s) && s.m.Reg(FP) == e.frame
  }

  /** A variable always has a home; a temporary has one once it has a slot. */
  ghost predicate Housed(e: Env, temps: seq<Slot>, n: nat) {
    n < |e.places| && (e.IsVar(n) || FindSlot(temps, n) != -1)
  }

  ghost function HomeIn(e: Env, temps: seq<Slot>, n: nat): Word
    requires Housed(e, temps, n)
  {
    if e.IsVar(n) then e.VarHome(n) else Wrap(e.frame + temps[FindSlot(temps, n)].offs)
  }

  /** The homes of all names but n are the same in both lists of slots. */
  ghost predicate HomesKept(e: Env, temps: seq<Slot>, temps': seq<Slot>, n: nat) {
    forall k :: k != n && Housed(e, temps, k) ==> Housed(e, temps', k) && HomeIn(e, temps', k) == HomeIn(e, temps, k)
  }

  ghost predicate HasHome(e: Env, s: State, n: nat) { Housed(e, s.temps, n) }

  ghost function Home(e: Env, s: State, n: nat): Word
    requires HasHome(e, s, n)
  {
    HomeIn(e, s.temps, n)
  }

  ghost predicate HomesKeptBut(e: Env, s: State, t: State, n: nat) {
    HomesKept(e, s.temps, t.temps, n)
  }

  ghost predicate InReg(s: State, n: nat) { n < |s.addrDescr| && s.addrDescr[n] != -1 }

  /** Name n is where the tables say it is, with the value the quads give it. */
  ghost predicate Located(e: Env, s: State, n: nat, q: QState) {
    if InReg(s, n) then s.addrDescr[n] >= 0 && s.m.Reg(s.addrDescr[n]) == NameValue(e, n, q)
    else HasHome(e, s, n) && s.m.Load(Home(e, s, n)) == NameValue(e, n, q)
  }

  /** The machine agrees with the quads on the names in `live` and on all memory that is not
      a variable's or a slot's. */
  ghost predicate Sim(e: Env, s: State, live: set<nat>, q: QState) {
    && (forall n :: n in live ==> Located(e, s, n, q))
    && (forall p :: e.IsHeap(p) ==> s.m.Load(p) == Fetch(q, p))
  }

  /** Only names with a next use stay in registers. */
  ghost predicate OnlyNextInRegs(s: State, next: set<nat>) {
    forall n :: InReg(s, n) ==> n in next
  }

  /** The tables did not change. */
  predicate SameTables(s: State, t: State) {
    t.pinned == s.pinned && t.modified == s.modified && t.regDescr == s.regDescr && t.addrDescr == s.addrDescr
  }

  /** Registers other than the scratch register and r kept their values. */
  ghost predicate RegsKeptBut(s: State, t: State, r: nat) {
    forall k: nat :: k != SCRATCH && k != r ==> t.m.Reg(k) == s.m.Reg(k)
  }

  /** Names may have left their registers; none moved. */
  ghost predicate Fewer(s: State, t: State) {
    && |t.addrDescr| == |s.addrDescr|
    && forall n :: 0 <= n < |s.addrDescr| ==> t.addrDescr[n] == s.addrDescr[n] || t.addrDescr[n] == -1
  }

  /** Name n, and nothing else, is out of the tables. */
  ghost predicate Cleared(s: State, t: State, n: nat) {
    && n < |s.addrDescr| && t.addrDescr == s.addrDescr[n := -1]
    && |t.regDescr| == |s.regDescr|
    && (forall r :: 0 <= r < |s.regDescr| && r != s.addrDescr[n] ==> t.regDescr[r] == s.regDescr[r])
    && (0 <= s.addrDescr[n] < |s.regDescr| ==> t.regDescr[s.addrDescr[n]] == 0)
    && t.pinned == s.pinned && t.modified == s.modified
  }

  // ------------------------------------------------------------------
  // Lemmas about states
  // ------------------------------------------------------------------

  /** Distinct naturals below a bound are at most as many as the bound. */
  lemma {:induction false} DistinctBounded(ns: seq<nat>, bound: nat)
    requires forall i, j :: 0 <= i < j < |ns| ==> ns[i] != ns[j]
    requires forall i :: 0 <= i < |ns| ==> ns[i] < bound
    ensures |ns| <= bound
    decreases bound
  {
    assert ns != [] ==> ns[0] < bound;
    if bound > 0 && exists i :: 0 <= i < |ns| && ns[i] == bound - 1 {
      var i :| 0 <= i < |ns| && ns[i] == bound - 1;
      var rest := ns[..i] + ns[i + 1..];
      assert forall k :: 0 <= k < |rest| ==> rest[k] == ns[if k < i then k else k + 1];
      DistinctBounded(rest, bound - 1);
    } else if bound > 0 {
      DistinctBounded(ns, bound - 1);
    }
  }

  /** The list of slots never outgrows the names: when none is free and n has none, there is room. */
  lemma SlotAvailable(e: Env, s: State, n: nat)
    requires e.WellFormed() && SlotsOk(e, s) && n < |e.places| && !e.IsVar(n)
    requires FindSlot(s.temps, n) == -1
    requires forall k :: 0 <= k < |s.temps| ==> !s.temps[k].free
    ensures |s.temps| < |e.places|
  {
    hide Env.WellFormed;
    var ns: seq<nat> := [n] + seq(|s.temps|, k requires 0 <= k < |s.temps| => s.temps[k].nid);
    forall i, j | 0 <= i < j < |ns| ensures ns[i] != ns[j] {
      if i == 0 {
        assert s.temps[j - 1].nid != n;
      } else {
        assert s.temps[i - 1].nid != s.temps[j - 1].nid;
      }
    }
    DistinctBounded(ns, |e.places|);
  }

  /** Where an occupied slot is found. */
  lemma FindSlotUnique(e: Env, s: State, k: nat)
    requires e.WellFormed() && SlotsOk(e, s) && k < |s.temps| && !s.temps[k].free
    ensures FindSlot(s.temps, s.temps[k].nid) == k
  {
    hide Wrap;
    var i := FindSlot(s.temps, s.temps[k].nid);
    assert i != -1;
  }

  /** Giving a free slot to a name that has none. */
  lemma TakeSlot(e: Env, s: State, t: State, k: nat, n: nat)
    requires e.WellFormed() && SlotsOk(e, s) && n < |e.places| && !e.IsVar(n)
    requires FindSlot(s.temps, n) == -1 && k < |s.temps| && s.temps[k].free
    requires t == s.(temps := s.temps[k := s.temps[k].(nid := n, free := false)])
    ensures SlotsOk(e, t) && HomesKeptBut(e, s, t, n) && FindSlot(t.temps, n) == k
  {
    hide Wrap;
    FindSlotUnique(e, t, k);
    forall j | j != n && HasHome(e, s, j) && !e.IsVar(j) ensures FindSlot(t.temps, j) == FindSlot(s.temps, j) {
      FindSlotUnique(e, t, FindSlot(s.temps, j));
    }
  }

  /** Taking a slot back. */
  lemma ReleaseSlot(e: Env, s: State, t: State, k: nat)
    requires e.WellFormed() && SlotsOk(e, s) && k < |s.temps| && !s.temps[k].free
    requires t == s.(temps := s.temps[k := s.temps[k].(free := true)])
    ensures SlotsOk(e, t) && HomesKeptBut(e, s, t, s.temps[k].nid)
  {
    hide Wrap;
    var n := s.temps[k].nid;
    forall j | j != n && HasHome(e, s, j) && !e.IsVar(j) ensures FindSlot(t.temps, j) == FindSlot(s.temps, j) {
      FindSlotUnique(e, t, FindSlot(s.temps, j));
    }
  }

  lemma FindSlotCons(x: Slot, temps: seq<Slot>, n: nat)
    ensures FindSlot([x] + temps, n) ==
            if !x.free && x.nid == n then 0
            else if FindSlot(temps, n) == -1 then -1 else FindSlot(temps, n) + 1
  {
    assert ([x] + temps)[1..] == temps;
  }

  lemma NewSlotLayout(e: Env, temps: seq<Slot>, localArea: int, n: nat)
    requires Slots(e, temps, localArea) && n < |e.places| && !e.IsVar(n) && |temps| < |e.places|
    requires FindSlot(temps, n) == -1
    ensures Slots(e, [Slot(n, localArea - 8, false)] + temps, localArea - 8)
  {
    hide FindSlot;
  }

  lemma NewSlotHomes(e: Env, temps: seq<Slot>, x: Slot)
    requires |e.symbols| == |e.places| && !x.free
    ensures HomesKept(e, temps, [x] + temps, x.nid) && FindSlot([x] + temps, x.nid) == 0
  {
    hide FindSlot, Wrap;
    FindSlotCons(x, temps, x.nid);
    forall j | j != x.nid && Housed(e, temps, j)
      ensures Housed(e, [x] + temps, j) && HomeIn(e, [x] + temps, j) == HomeIn(e, temps, j)
    {
      FindSlotCons(x, temps, j);
    }
  }

  /** Growing the local area by a slot. */
  lemma NewSlot(e: Env, s: State, t: State, n: nat)
    requires e.WellFormed() && SlotsOk(e, s) && n < |e.places| && !e.IsVar(n)
    requires FindSlot(s.temps, n) == -1
    requires forall k :: 0 <= k < |s.temps| ==> !s.temps[k].free
    requires t == s.(temps := [Slot(n, s.localArea - 8, false)] + s.temps, localArea := s.localArea - 8)
    ensures SlotsOk(e, t) && HomesKeptBut(e, s, t, n) && FindSlot(t.temps, n) == 0
  {
    SlotAvailable(e, s, n);
    hide Wrap, Env.WellFormed, HomesKept, FindSlot, Slots;
    NewSlotLayout(e, s.temps, s.localArea, n);
    NewSlotHomes(e, s.temps, Slot(n, s.localArea - 8, false));
  }

  /** A temporary's home is one of the slot addresses. */
  lemma HomeIsSlot(e: Env, s: State, n: nat) returns (j: nat)
    requires e.WellFormed() && SlotsOk(e, s) && HasHome(e, s, n) && !e.IsVar(n)
    ensures 1 <= j <= |e.places| && j == |s.temps| - FindSlot(s.temps, n) && Home(e, s, n) == e.SlotHome(j)
  {
    hide Wrap;
    j := |s.temps| - FindSlot(s.temps, n);
  }

  /** Two names never share a home. */
  lemma HomesDistinct(e: Env, s: State, m: nat, n: nat)
    requires e.WellFormed() && SlotsOk(e, s) && HasHome(e, s, m) && HasHome(e, s, n) && m != n
    ensures Home(e, s, m) != Home(e, s, n)
  {
    hide Wrap;
    if !e.IsVar(m) {
      var j := HomeIsSlot(e, s, m);
      if !e.IsVar(n) {
        var k := HomeIsSlot(e, s, n);
        assert j != k;
        assert e.SlotHome(j) != e.SlotHome(k);
      }
    } else if !e.IsVar(n) {
      var k := HomeIsSlot(e, s, n);
    }
  }

  lemma HomeNotHeap(e: Env, s: State, n: nat)
    requires e.WellFormed() && SlotsOk(e, s) && HasHome(e, s, n)
    ensures !e.IsHeap(Home(e, s, n))
  {
    if !e.IsVar(n) {
      var j := HomeIsSlot(e, s, n);
    }
  }

  /** Storing name n in its home disturbs no other name. */
  lemma StoreKeepsOthers(e: Env, s: State, t: State, n: nat, w: Word, live: set<nat>, q: QState)
    requires e.WellFormed() && Sim(e, s, live, q) && SlotsOk(e, t) && SameTables(s, t)
    requires HomesKeptBut(e, s, t, n) && HasHome(e, t, n)
    requires t.m.mem == s.m.mem[Home(e, t, n) := w]
    requires forall k :: 0 <= k < NREG && k != SCRATCH ==> t.m.Reg(k) == s.m.Reg(k)
    requires TablesOk(e, s)
    ensures Sim(e, t, live - {n}, q)
    ensures n in live && InReg(s, n) ==> Located(e, t, n, q)
    ensures t.m.Load(Home(e, t, n)) == w
  {
    forall k | k in live && (k != n || InReg(s, n)) ensures Located(e, t, k, q) {
      assert Located(e, s, k, q);
      if InReg(s, k) {
        assert s.addrDescr[k] != SCRATCH;
      } else {
        HomesDistinct(e, t, n, k);
      }
    }
    HomeNotHeap(e, t, n);
  }

  /** Overwriting a register loses at most the name it holds. */
  lemma RegWriteKeepsOthers(e: Env, s: State, t: State, r: nat, live: set<nat>, q: QState)
    requires e.WellFormed() && TablesOk(e, s) && Sim(e, s, live, q)
    requires t == s.(m := t.m) && t.m.mem == s.m.mem && RegsKeptBut(s, t, r)
    requires forall n :: n in live && InReg(s, n) ==> s.addrDescr[n] != r
    ensures Sim(e, t, live, q)
  {
    forall n | n in live ensures Located(e, t, n, q) {
      assert Located(e, s, n, q);
    }
  }

  /** Assigning to a name changes the value of that name only. */
  lemma AssignKeepsOthers(e: Env, s: State, n: nat, w: Word, live: set<nat>, q: QState)
    requires e.WellFormed() && Sim(e, s, live, q) && n < |e.places|
    ensures Sim(e, s, live - {n}, Assign(e, n, w, q))
    ensures NameValue(e, n, Assign(e, n, w, q)) == w
  {
    forall k | k in live - {n} ensures Located(e, s, k, Assign(e, n, w, q)) {
      assert Located(e, s, k, q);
    }
  }

  /** Marking the lowest empty register as used keeps the used registers the lowest ones. */
  lemma MarkKeepsPins(s: State, r: nat, pin: int)
    requires Pins(s.pinned, s.modified, s.regDescr, pin) && r < NREG && !s.pinned[r]
    requires forall k :: 0 <= k < r ==> s.pinned[k] || s.regDescr[k] != 0
    ensures Pins(s.pinned, s.modified[r := true], s.regDescr, pin)
  {
  }

  lemma MarkKeepsSim(e: Env, s: State, r: nat, live: set<nat>, q: QState)
    requires e.WellFormed() && Sim(e, s, live, q) && r < |s.modified|
    ensures Sim(e, s.(modified := s.modified[r := true]), live, q)
  {
    hide Env.WellFormed, Wrap, FindSlot;
    forall n | n in live ensures Located(e, s.(modified := s.modified[r := true]), n, q) {
      assert Located(e, s, n, q);
    }
  }

  lemma WrapAdd(a: int, b: int)
    ensures Wrap(a + Wrap(b)) == Wrap(a + b)
  {
  }

  /** Clearing both table entries of the name in register r. */
  function DropReg(e: Env, s: State, r: nat): State
    requires r < |s.regDescr| && e.c.Names(s.regDescr[r]) && e.c.Nid(s.regDescr[r]) < |s.addrDescr|
  {
    s.(regDescr := s.regDescr[r := 0], addrDescr := s.addrDescr[e.c.Nid(s.regDescr[r]) := -1])
  }

  lemma DropRegKeepsTables(e: Env, s: State, r: nat, pin: int)
    requires r < NREG && Ok(e, s, pin) && s.regDescr[r] != 0
    ensures e.c.Names(s.regDescr[r]) && e.c.Nid(s.regDescr[r]) < |s.addrDescr|
    ensures Ok(e, DropReg(e, s, r), pin)
  {
    hide Env.WellFormed, Slots;
  }

  /** The name may leave its register once its home is up to date, or once it is dead. */
  lemma DropRegKeepsSim(e: Env, s: State, r: nat, pin: int, live: set<nat>, q: QState)
    requires e.WellFormed() && r < NREG && Ok(e, s, pin) && s.regDescr[r] != 0
    requires e.c.Names(s.regDescr[r]) && e.c.Nid(s.regDescr[r]) < |s.addrDescr|
    requires var n := e.c.Nid(s.regDescr[r]);
             Sim(e, s, live - {n}, q)
             && (n in live ==> HasHome(e, s, n) && s.m.Load(Home(e, s, n)) == NameValue(e, n, q))
    ensures Sim(e, DropReg(e, s, r), live, q)
  {
    hide Slots, Wrap;
    var n := e.c.Nid(s.regDescr[r]);
    var t := DropReg(e, s, r);
    forall k | k in live ensures Located(e, t, k, q) {
      if k != n {
        assert Located(e, s, k, q);
      }
    }
  }

  /** Entering name a into both tables for an empty register. */
  lemma EnterKeepsTables(e: Env, s: State, t: State, r: nat, a: nat, pin: int)
    requires e.WellFormed() && Ok(e, s, pin) && r < NREG && e.c.Names(a) && Allocatable(r)
    requires s.regDescr[r] == 0 && s.addrDescr[e.c.Nid(a)] == -1 && s.modified[r]
    requires t == s.(regDescr := s.regDescr[r := a], addrDescr := s.addrDescr[e.c.Nid(a) := r])
    ensures Ok(e, t, pin)
  {
    assert a != 0;
    hide Env.WellFormed, Slots;
  }

  /** Giving up a dead name's slot. */
  lemma ReleaseKeepsSim(e: Env, s: State, t: State, n: nat, live: set<nat>, q: QState)
    requires e.WellFormed() && Sim(e, s, live, q) && n !in live
    requires HomesKeptBut(e, s, t, n) && t == s.(temps := t.temps)
    ensures Sim(e, t, live, q)
  {
    hide Wrap, FindSlot;
    forall k | k in live ensures Located(e, t, k, q) {
      assert Located(e, s, k, q);
    }
  }

  lemma SimSubset(e: Env, s: State, live: set<nat>, less: set<nat>, q: QState)
    requires e.WellFormed() && Sim(e, s, live, q) && less <= live
    ensures Sim(e, s, less, q)
  {
  }

  /** A name just entered for the register that holds its value is located there. */
  lemma EnterKeepsSim(e: Env, s: State, t: State, n: nat, live: set<nat>, q: QState)
    requires e.WellFormed() && Sim(e, s, live - {n}, q) && n < |s.addrDescr| && TablesOk(e, t)
    requires n < |t.addrDescr| && 0 <= t.addrDescr[n]
    requires t == s.(regDescr := t.regDescr, addrDescr := s.addrDescr[n := t.addrDescr[n]])
    requires s.m.Reg(t.addrDescr[n]) == NameValue(e, n, q)
    ensures Sim(e, t, live, q)
  {
    hide Wrap, FindSlot;
    forall k | k in live ensures Located(e, t, k, q) {
      if k != n {
        assert Located(e, s, k, q);
      }
    }
  }

  lemma PinKeepsPins(s: State, r: nat)
    requires r < NREG && Allocatable(r) && Pins(s.pinned, s.modified, s.regDescr, NO_PIN) && s.modified[r]
    ensures Pins(s.pinned[r := true], s.modified, s.regDescr, r)
  {
  }

  lemma UnpinKeepsPins(s: State, r: nat, pin: int)
    requires r < NREG && Allocatable(r) && Pins(s.pinned, s.modified, s.regDescr, pin) && (pin == NO_PIN || pin == r)
    ensures Pins(s.pinned[r := false], s.modified, s.regDescr, NO_PIN)
  {
  }

  /** What the bits of a quad with operands say about its names. */
  lemma FlagFacts(c: Context, q: Quad, f: Flags, live: set<nat>, next: set<nat>)
    requires c.WellFormed(q) && f == FlagsOf(c, q, live, next) && next <= live
    requires ShapeOf(q.op).Binary? || ShapeOf(q.op).Unary? || ShapeOf(q.op).Ind?
    ensures var t := c.Nid(q.tar);
            && (f.tarLive <==> t in live) && (f.tarNext <==> t in next)
            && (c.Names(q.arg1) ==> (f.ar1Live <==> c.Nid(q.arg1) in live - {t}))
            && (c.Names(q.arg1) ==> (f.ar1Next <==> c.Nid(q.arg1) in next - {t}))
            && (ShapeOf(q.op).Binary? && c.Names(q.arg2) && c.Operand(q.arg1) != c.Operand(q.arg2) ==>
                  (f.ar2Live <==> c.Nid(q.arg2) in live - {t}) && (f.ar2Next <==> c.Nid(q.arg2) in next - {t}))
            && (ShapeOf(q.op).Binary? && c.Names(q.arg2) && c.Operand(q.arg1) == c.Operand(q.arg2) ==>
                  f.ar2Next)
  {
  }

  /** What UpdateArgDescriptors does to the tables. */
  ghost predicate Released(e: Env, s: State, t: State, arg: nat, nextUse: bool) {
    if e.c.Names(arg) && !nextUse then Cleared(s, t, e.c.Nid(arg))
    else t.addrDescr == s.addrDescr && t.regDescr == s.regDescr
  }

  /** Once the operands without a next use are out, the result register is empty, the target is
      in no register, and what stays in registers has a next use beyond the quad. */
  lemma OperandsReleased(e: Env, i: Quad, f: Flags, live: set<nat>, next: set<nat>, s: State, s1: State, s2: State,
      res: nat)
    requires e.WellFormed() && e.c.WellFormed(i) && f == FlagsOf(e.c, i, live, next) && next <= live
    requires ShapeOf(i.op).Binary? || ShapeOf(i.op).Unary? || ShapeOf(i.op).Ind?
    requires TablesOk(e, s) && OnlyNextInRegs(s, e.c.NextBefore(i, next)) && res < NREG
    requires s.regDescr[res] != 0 ==>
               e.c.Names(i.arg1) && e.c.Names(s.regDescr[res]) && !f.ar1Live
                   && e.c.Nid(s.regDescr[res]) == e.c.Nid(i.arg1)
    requires Released(e, s, s1, i.arg1, f.ar1Next)
    requires if ShapeOf(i.op).Binary? then Released(e, s1, s2, i.arg2, f.ar2Next) else s2 == s1
    ensures s1.regDescr[res] == 0 && s2.regDescr[res] == 0
    ensures e.c.Nid(i.tar) < |s2.addrDescr| && s2.addrDescr[e.c.Nid(i.tar)] == -1
    ensures OnlyNextInRegs(s2, next - {e.c.Nid(i.tar)})
  {
    FlagFacts(e.c, i, f, live, next);
    hide Env.WellFormed, FlagsOf;
    var t := e.c.Nid(i.tar);
    forall n | InReg(s2, n) ensures n in next - {t} {
      assert InReg(s1, n) && InReg(s, n);
      assert n in e.c.NextBefore(i, next);
    }
  }

  /** The target stays in a register only for a next use. */
  lemma EnterNext(s: State, t: State, n: nat, r: int, nextUse: bool, next: set<nat>)
    requires OnlyNextInRegs(s, next - {n}) && n < |s.addrDescr|
    requires t.addrDescr == s.addrDescr[n := if nextUse then r else -1]
    requires nextUse ==> n in next
    ensures OnlyNextInRegs(t, next)
  {
    forall k | InReg(t, k) ensures k in next {
      assert k != n ==> InReg(s, k);
    }
  }

  /** Loading an operand into the register that already holds it, or into an empty one. */
  lemma RegReloadKeepsSim(e: Env, s: State, t: State, r: nat, a: nat, live: set<nat>, q: QState)
    requires e.WellFormed() && TablesOk(e, s) && Sim(e, s, live, q) && r < NREG && a < |e.c.addresses|
    requires t == s.(m := t.m) && t.m.mem == s.m.mem && RegsKeptBut(s, t, r) && r != SCRATCH
    requires t.m.Reg(r) == OperandValue(e, a, q)
    requires s.regDescr[r] != 0 ==> e.c.Names(a) && e.c.Nid(s.regDescr[r]) == e.c.Nid(a)
    ensures Sim(e, t, live, q)
  {
    hide Wrap, FindSlot;
    forall n | n in live ensures Located(e, t, n, q) {
      assert Located(e, s, n, q);
    }
  }

  /** The condition under which a comparison yields 1, and the one under which it yields 0. */
  function CondOf(op: OpKind, isUnsigned: bool): (Cond, Cond) {
    match op
    case OpNEQ => (NE, EQ)
    case OpGT => if isUnsigned then (HI, LS) else (GT, LE)
    case OpGET => if isUnsigned then (HS, LO) else (GE, LT)
    case OpLT => if isUnsigned then (LO, HS) else (LT, GE)
    case OpLET => if isUnsigned then (LS, HI) else (LE, GT)
    case _ => (EQ, NE)
  }

  lemma CondOfCorrect(op: OpKind, isUnsigned: bool, a: Word, b: Word)
    requires IsRelational(op)
    ensures var c := CondOf(op, isUnsigned);
            BinaryValue(op, isUnsigned, a, b) == Truth(Holds(c.0, a, b)) && (Holds(c.1, a, b) <==> !Holds(c.0, a, b))
  {
    hide Arith;
  }

  // ------------------------------------------------------------------
  // Invariants of the handlers
  // ------------------------------------------------------------------

  /** The register holds no name that survives the quad: only, perhaps, its dying first operand. */
  ghost predicate ResultReg(e: Env, s: State, res: nat, arg1: nat, f: Flags) {
    && Allocatable(res) && |s.regDescr| == |s.modified| == NREG && s.modified[res]
    && (s.regDescr[res] != 0 ==>
          e.c.Names(arg1) && e.c.Names(s.regDescr[res]) && !f.ar1Live && e.c.Nid(s.regDescr[res]) == e.c.Nid(arg1))
  }

  /** A quad of the shapes with a computed result, with the bits the backward scan gave it. */
  ghost predicate Annotated(e: Env, i: Quad, f: Flags, live: set<nat>, next: set<nat>) {
    && e.WellFormed() && Supported(e, i) && f == FlagsOf(e.c, i, live, next) && next <= live
    && (ShapeOf(i.op).Binary? || ShapeOf(i.op).Unary? || ShapeOf(i.op).Ind?)
  }

  /** Before quad i: the machine agrees with the quads on the names live there, and only names
      with a next use are in registers. */
  ghost predicate Ready(e: Env, s: State, i: Quad, live: set<nat>, next: set<nat>, q: QState) {
    && e.WellFormed() && Supported(e, i)
    && Ok(e, s, NO_PIN) && Sim(e, s, e.c.LiveBefore(i, live), q) && OnlyNextInRegs(s, e.c.NextBefore(i, next))
  }

  /** The same, for a quad of the shapes with a computed result that carries its bits. */
  ghost predicate Begun(e: Env, s: State, i: Quad, f: Flags, live: set<nat>, next: set<nat>, q: QState) {
    Annotated(e, i, f, live, next) && Ready(e, s, i, live, next, q)
  }

  /** While the quad's result is being computed in register res: the machine agrees with the
      quads on all names that outlive the quad. */
  ghost predicate Working(e: Env, s: State, i: Quad, f: Flags, res: nat, live: set<nat>, next: set<nat>, q: QState) {
    && Annotated(e, i, f, live, next) && Ok(e, s, NO_PIN) && ResultReg(e, s, res, i.arg1, f)
    && Sim(e, s, live - {e.c.Nid(i.tar)}, q) && OnlyNextInRegs(s, e.c.NextBefore(i, next))
  }

  /** Between quads: the machine agrees with state q. */
  ghost predicate Done(e: Env, s: State, live: set<nat>, next: set<nat>, q: QState) {
    e.WellFormed() && Ok(e, s, NO_PIN) && Sim(e, s, live, q) && OnlyNextInRegs(s, next)
  }

  /** After quad i, which began in state q. */
  ghost predicate Finished(e: Env, s: State, i: Quad, live: set<nat>, next: set<nat>, q: QState) {
    e.WellFormed() && Supported(e, i) && Done(e, s, live, next, StepQuad(e, i, q))
  }

  /** From here on only the names that outlive the quad matter. */
  lemma StartWork(e: Env, s: State, i: Quad, f: Flags, res: nat, live: set<nat>, next: set<nat>, q: QState)
    requires Begun(e, s, i, f, live, next, q) && ResultReg(e, s, res, i.arg1, f)
    ensures Working(e, s, i, f, res, live, next, q)
  {
    hide Wrap, Slots, Env.WellFormed, FlagsOf, Located, Inverse;
    SimSubset(e, s, e.c.LiveBefore(i, live), live - {e.c.Nid(i.tar)}, q);
  }

  /** Instructions that touch no memory and no register but the result's keep the invariant. */
  lemma WorkGoesOn(e: Env, s: State, t: State, i: Quad, f: Flags, res: nat, live: set<nat>, next: set<nat>, q: QState)
    requires Working(e, s, i, f, res, live, next, q)
    requires t == s.(m := t.m) && t.m.mem == s.m.mem && RegsKeptBut(s, t, res) && t.m.Reg(FP) == s.m.Reg(FP)
    ensures Working(e, t, i, f, res, live, next, q)
  {
    FlagFacts(e.c, i, f, live, next);
    hide Wrap, Slots, Pins, Env.WellFormed, FlagsOf, Context.NextBefore, Located;
    RegWriteKeepsOthers(e, s, t, res, live - {e.c.Nid(i.tar)}, q);
  }

  /** The instructions that compute a result. */
  predicate Computes(ins: Instr, res: nat) {
    ins.Cmp? || ((ins.Alu? || ins.RsbZero? || ins.Mvn? || ins.MovIf? || ins.LdrInd?) && ins.rd == res)
  }

  lemma ComputesOnly(symbols: seq<Word>, ins: Instr, res: nat, m: Machine)
    requires Computes(ins, res)
    ensures var m' := Step(symbols, ins, m); m'.mem == m.mem && forall k: nat :: k != res ==> m'.Reg(k) == m.Reg(k)
  {
    hide Arith, Holds, Wrap;
  }

  lemma FewerKeepsNext(s: State, t: State, next: set<nat>)
    requires Fewer(s, t) && OnlyNextInRegs(s, next)
    ensures OnlyNextInRegs(t, next)
  {
    forall n | InReg(t, n) ensures n in next {
      assert InReg(s, n);
    }
  }

  /** What a valid pointer points to is in memory once no address-taken variable is in a register. */
  lemma PointeeInMemory(e: Env, s: State, t: State, i: Quad, f: Flags, live: set<nat>, next: set<nat>, q: QState)
    requires i.op.OpInd? && Begun(e, t, i, f, live, next, q)
    requires e.ValidPointer(OperandValue(e, i.arg1, q)) && Fewer(s, t)
    requires forall n :: n in e.c.addressTaken && e.IsVar(n) ==> !InReg(s, n)
    requires |s.addrDescr| == |e.places|
    ensures t.m.Load(OperandValue(e, i.arg1, q)) == Fetch(q, OperandValue(e, i.arg1, q))
  {
    hide Wrap, FindSlot, OperandValue;
    var p := OperandValue(e, i.arg1, q);
    if !e.IsHeap(p) {
      var n :| n in e.c.addressTaken && e.IsVar(n) && e.VarHome(n) == p;
      assert n in e.c.LiveBefore(i, live);
      assert Located(e, t, n, q);
      assert !InReg(t, n);
    }
  }

  lemma ArithValue(e: Env, s: State, i: Quad, f: Flags, live: set<nat>, next: set<nat>, q: QState)
    requires Begun(e, s, i, f, live, next, q) && IsArith(i.op)
    ensures QuadValue(e, i, q) == Arith(i.op, OperandValue(e, i.arg1, q), OperandValue(e, i.arg2, q))
  {
    hide Arith, Env.WellFormed, OperandValue;
  }

  lemma RelationalValue(e: Env, s: State, i: Quad, f: Flags, live: set<nat>, next: set<nat>, q: QState)
    requires Begun(e, s, i, f, live, next, q) && IsRelational(i.op)
    ensures var c := CondOf(i.op, i.isUnsigned);
            var a, b := OperandValue(e, i.arg1, q), OperandValue(e, i.arg2, q);
            QuadValue(e, i, q) == Truth(Holds(c.0, a, b)) && (Holds(c.1, a, b) <==> !Holds(c.0, a, b))
  {
    CondOfCorrect(i.op, i.isUnsigned, OperandValue(e, i.arg1, q), OperandValue(e, i.arg2, q));
    hide Arith, Env.WellFormed, OperandValue;
  }

  lemma UnaryQuadValue(e: Env, s: State, i: Quad, f: Flags, live: set<nat>, next: set<nat>, q: QState)
    requires Begun(e, s, i, f, live, next, q) && ShapeOf(i.op).Unary?
    ensures QuadValue(e, i, q) == UnaryValue(i.op, OperandValue(e, i.arg1, q))
    ensures i.op.OpNeg? || i.op.OpCmpl? || i.op.OpNot? || i.op.OpAsn?
  {
    hide Arith, Env.WellFormed, OperandValue;
  }

  lemma IndValue(e: Env, s: State, i: Quad, f: Flags, live: set<nat>, next: set<nat>, q: QState)
    requires i.op.OpInd? && Begun(e, s, i, f, live, next, q)
    ensures QuadValue(e, i, q) == Fetch(q, OperandValue(e, i.arg1, q))
  {
  }

  lemma ArithAdd(a: Word, b: Word)
    ensures Arith(OpAdd, a, b) == Wrap(a + b)
  {
  }

  /** Before x = &y: x is in no register. */
  lemma AddrOfFacts(e: Env, s: State, i: Quad, f: Flags, live: set<nat>, next: set<nat>, q: QState)
    requires e.WellFormed() && Supported(e, i) && i.op.OpAddrOf? && f == FlagsOf(e.c, i, live, next) && next <= live
    requires Ready(e, s, i, live, next, q)
    ensures var t := e.c.Nid(i.tar);
            && t < |s.addrDescr| && s.addrDescr[t] == -1 && e.IsVar(e.c.Nid(i.arg1))
            && Sim(e, s, live - {t}, q) && OnlyNextInRegs(s, next - {t})
            && QuadValue(e, i, q) == e.VarHome(e.c.Nid(i.arg1))
            && (f.tarLive <==> t in live) && (f.tarNext <==> t in next)
  {
    var t := e.c.Nid(i.tar);
    assert e.c.LiveBefore(i, live) == live - {t} && e.c.NextBefore(i, next) == next - {t};
    assert InReg(s, t) ==> t in next - {t};
  }

  // ------------------------------------------------------------------
  // Blocks
  // ------------------------------------------------------------------

  lemma SupportedWellFormed(e: Env, quads: seq<Quad>)
    requires AllSupported(e, quads)
    ensures forall q :: q in quads ==> e.c.WellFormed(q)
  {
    hide Context.WellFormed;
  }

  lemma SupportedTail(e: Env, quads: seq<Quad>)
    requires AllSupported(e, quads) && quads != []
    ensures Supported(e, quads[0]) && AllSupported(e, quads[1..])
  {
    hide Supported;
    assert quads[0] in quads;
  }

  /** Live names, and names with a next use, before the quads. */
  ghost function LiveAt(e: Env, quads: seq<Quad>, liveOut: set<nat>): set<nat>
    requires AllSupported(e, quads)
  {
    SupportedWellFormed(e, quads);
    e.c.ScanBack(quads, liveOut)
  }

  ghost function NextAt(e: Env, quads: seq<Quad>): set<nat>
    requires AllSupported(e, quads)
  {
    SupportedWellFormed(e, quads);
    e.c.NextScan(quads)
  }

  lemma NextAtCons(e: Env, quads: seq<Quad>)
    requires AllSupported(e, quads) && quads != []
    ensures Supported(e, quads[0]) && AllSupported(e, quads[1..])
    ensures NextAt(e, quads) == e.c.NextBefore(quads[0], NextAt(e, quads[1..]))
  {
    SupportedTail(e, quads);
  }

  /** The quads carry the bits the backward scan gives them. */
  ghost predicate Scanned(e: Env, quads: seq<Quad>, flags: seq<Flags>, liveOut: set<nat>)
    requires AllSupported(e, quads)
  {
    if quads == [] then flags == []
    else
      SupportedTail(e, quads);
      && flags != []
      && flags[0] == FlagsOf(e.c, quads[0], LiveAt(e, quads[1..], liveOut), NextAt(e, quads[1..]))
      && Scanned(e, quads[1..], flags[1..], liveOut)
  }

  /** No register holds a name. */
  ghost predicate RegistersFree(s: State) {
    && (forall r :: 0 <= r < |s.regDescr| ==> s.regDescr[r] == 0)
    && (forall n :: 0 <= n < |s.addrDescr| ==> s.addrDescr[n] == -1)
  }

  /** A function starts so. */
  lemma FreshOk(e: Env, s: State)
    requires e.WellFormed() && s.m.Reg(FP) == e.frame && s.temps == [] && s.localArea == e.area
    requires |s.pinned| == |s.modified| == |s.regDescr| == NREG && |s.addrDescr| == |e.places|
    requires forall r :: 0 <= r < NREG ==> (s.pinned[r] <==> !Allocatable(r)) && !s.modified[r] && s.regDescr[r] == 0
    requires forall n :: 0 <= n < |s.addrDescr| ==> s.addrDescr[n] == -1
    ensures Ok(e, s, NO_PIN) && RegistersFree(s)
  {
    hide Env.WellFormed, Wrap;
  }

  /** At a block boundary: all registers are free, and every name in `live` and all other
      memory hold in memory what the quads give them. */
  ghost predicate InMemory(e: Env, s: State, live: set<nat>, q: QState) {
    && e.WellFormed() && Ok(e, s, NO_PIN) && RegistersFree(s)
    && (forall n :: n in live ==> HasHome(e, s, n) && s.m.Load(Home(e, s, n)) == NameValue(e, n, q))
    && (forall p :: e.IsHeap(p) ==> s.m.Load(p) == Fetch(q, p))
  }

  /** The bits the backward scan left in the flags array are those of every quad. */
  lemma {:induction false} ScannedFromBits(e: Env, quads: seq<Quad>, flags: seq<Flags>, liveOut: set<nat>)
    requires AllSupported(e, quads) && |flags| == |quads|
    requires forall q :: q in quads ==> e.c.WellFormed(q)
    requires forall k :: 0 <= k < |quads| ==>
               flags[k] == FlagsOf(e.c, quads[k], e.c.ScanBack(quads[k + 1..], liveOut), e.c.NextScan(quads[k + 1..]))
    ensures Scanned(e, quads, flags, liveOut)
    decreases |quads|
  {
    if quads != [] {
      SupportedTail(e, quads);
      hide FlagsOf, Supported;
      forall k | 0 <= k < |quads[1..]|
        ensures flags[1..][k] == FlagsOf(e.c, quads[1..][k], e.c.ScanBack(quads[1..][k + 1..], liveOut),
                e.c.NextScan(quads[1..][k + 1..]))
      {
        assert quads[1..][k + 1..] == quads[k + 2..];
      }
      ScannedFromBits(e, quads[1..], flags[1..], liveOut);
    }
  }
}
