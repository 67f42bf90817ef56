/** A block whose compiled code loses a store through a pointer: eight names fill the registers,
    the pointer first, and the stored value is still in memory. */
module ArmClobber {
  import opened Ic
  import opened Dflow
  import opened ArmMachine
  import opened ArmState
  import opened ArmAlloc
  import opened ArmCgen

  /** Where the pointer points to. */
  const TARGET: Word := 0x100

  /** Nine local variables: names 0..8 at r11-4, r11-8, ..., through address entries 1..9. */
  const EXAMPLE_ENV := Env(Context([IConst(0), Id(0), Id(1), Id(2), Id(3), Id(4), Id(5), Id(6), Id(7), Id(8),
                                    IConst(TARGET)], {}, {}),
                           seq(9, n => Frame(-4 * (n + 1))), seq(9, n => 0), -40, 0x8000)

  /** p = TARGET or a_k = 0, for names 0..7. */
  function Define(k: nat): Quad { Quad(OpAsn, false, k + 1, if k == 0 then 10 else 0, 0) }

  /** *p = x, and then uses of a_1..a_7. */
  const STORE := Quad(OpIndAsn, false, 0, 1, 9)
  const USES := [Quad(OpAdd, false, 9, 2, 3), Quad(OpAdd, false, 9, 4, 5), Quad(OpAdd, false, 9, 6, 7),
                 Quad(OpAdd, false, 9, 8, 8)]

  /** The block from its k-th definition on. */
  function From(k: nat): seq<Quad>
    decreases 8 - k
  {
    if k < 8 then [Define(k)] + From(k + 1) else [STORE] + USES
  }

  lemma ExampleWellFormed()
    ensures EXAMPLE_ENV.WellFormed()
    ensures forall n: nat :: EXAMPLE_ENV.IsVar(n) <==> n < 9
    ensures forall n: nat :: n < 9 ==> EXAMPLE_ENV.VarHome(n) == 0x8000 - 4 * (n + 1)
    ensures EXAMPLE_ENV.IsHeap(TARGET)
  {
    var e := EXAMPLE_ENV;
    assert forall n: nat :: n < 9 ==> e.places[n] == Frame(-4 * (n + 1));
    assert forall n: nat :: e.IsVar(n) ==> n < 9 && e.VarHome(n) == 0x8000 - 4 * (n + 1);
    assert forall k: nat :: 1 <= k <= 9 ==> e.SlotHome(k) == 0x8000 - 40 - 8 * k;
  }

  lemma {:induction false} FromSupported(k: nat)
    ensures AllSupported(EXAMPLE_ENV, From(k))
    decreases 8 - k
  {
    hide Env.WellFormed;
    if k < 8 {
      FromSupported(k + 1);
      assert Supported(EXAMPLE_ENV, Define(k));
    }
  }

  lemma UsesSupported()
    ensures forall j :: 0 <= j <= 4 ==> AllSupported(EXAMPLE_ENV, USES[j..])
  {
    hide Env.WellFormed;
  }

  lemma UsesNext()
    ensures AllSupported(EXAMPLE_ENV, USES) && NextAt(EXAMPLE_ENV, USES) == {1, 2, 3, 4, 5, 6, 7}
  {
    UsesSupported();
    var e := EXAMPLE_ENV;
    assert USES[4..] == [] && NextAt(e, USES[4..]) == {};
    UseNext(3, {});
    UseNext(2, {7});
    UseNext(1, {5, 6, 7});
    UseNext(0, {3, 4, 5, 6, 7});
    assert USES[0..] == USES;
  }

  lemma UseNext(j: nat, next: set<nat>)
    requires j < 4 && AllSupported(EXAMPLE_ENV, USES[j + 1..]) && NextAt(EXAMPLE_ENV, USES[j + 1..]) == next
    ensures AllSupported(EXAMPLE_ENV, USES[j..])
    ensures NextAt(EXAMPLE_ENV, USES[j..]) ==
            next - {8} + (if j == 3 then {7} else {2 * j + 1, 2 * j + 2})
  {
    UsesSupported();
    assert USES[j..][1..] == USES[j + 1..];
    hide Env.WellFormed;
  }

  function Below(k: nat): (s: set<nat>)
    ensures forall n :: n in s <==> 0 <= n < k
  {
    if k == 0 then {} else Below(k - 1) + {k - 1}
  }

  lemma StoreNext()
    ensures AllSupported(EXAMPLE_ENV, From(8)) && NextAt(EXAMPLE_ENV, From(8)) == Below(8) + {8}
  {
    FromSupported(8);
    NextAtCons(EXAMPLE_ENV, From(8));
    UsesNext();
    hide Env.WellFormed, AllSupported;
    assert From(8)[1..] == USES;
  }

  /** Before the k-th definition the names below k and x have a next use: the store and the quads
      behind it use them all. */
  lemma {:induction false} AllUsed(k: nat)
    requires k <= 8
    ensures AllSupported(EXAMPLE_ENV, From(k)) && NextAt(EXAMPLE_ENV, From(k)) == Below(k) + {8}
    decreases 8 - k
  {
    FromSupported(k);
    hide Env.WellFormed, AllSupported, NextAt, Supported;
    if k < 8 {
      NextAtCons(EXAMPLE_ENV, From(k));
      AllUsed(k + 1);
      assert From(k)[1..] == From(k + 1);
    } else {
      StoreNext();
    }
  }

  // ------------------------------------------------------------------
  // The tables
  // ------------------------------------------------------------------

  function Reg(n: nat): nat { if n <= 6 then n + 4 else 14 }

  /** After k definitions names 0..k-1 are in r4..r10, lr. */
  function Held(k: nat): Tables {
    Tables(seq(NREG, r => if 4 <= r <= 10 && r - 4 < k then r - 3 else if r == 14 && 8 <= k then 8 else 0),
           seq(9, n => if 0 <= n < k then Reg(n) else -1))
  }

  lemma {:induction false} FirstFreeAt(regs: seq<nat>, pin: int, r: nat, k: nat)
    requires r <= k < |regs| && Allocatable(k) && k != pin && regs[k] == 0
    requires forall j :: r <= j < k && Allocatable(j) && j != pin ==> regs[j] != 0
    ensures FirstFree(regs, pin, r) == k
    decreases k - r
  {
    if r < k {
      FirstFreeAt(regs, pin, r + 1, k);
    }
  }

  lemma DefinitionPicks(k: nat)
    requires k < 8
    ensures Pick(Held(k), NO_PIN) == Reg(k) && Held(k).regs[Reg(k)] == 0
  {
    FirstFreeAt(Held(k).regs, NO_PIN, 0, Reg(k));
  }

  /** A definition takes the next register. */
  lemma DefinitionHolds(k: nat, f: Flags)
    requires k < 8 && f.tarNext
    ensures After(EXAMPLE_ENV, Held(k), Define(k), f) == Held(k + 1)
  {
    hide Env.WellFormed;
    DefinitionPicks(k);
    hide Pick;
    var e, t := EXAMPLE_ENV, Held(k);
    assert Spill(e, t, Reg(k)) == t;
    assert ForQuad(e, t, Define(k), f) == t && QuadResultAt(e, t, Define(k), f) == Reg(k);
    assert ReleaseBoth(e, t, Define(k), f) == t;
    var u := Enter(e, t, Reg(k), k + 1, true);
    assert u.regs == Held(k + 1).regs;
    assert u.addrs == Held(k + 1).addrs;
  }

  lemma DefinitionUsed(k: nat)
    requires k < 8
    ensures AllSupported(EXAMPLE_ENV, From(k)) && BitsAt(EXAMPLE_ENV, From(k), {}).tarNext
    ensures From(k)[0] == Define(k) && From(k)[1..] == From(k + 1)
  {
    FromSupported(k);
    AllUsed(k + 1);
    assert From(k)[1..] == From(k + 1);
    hide Env.WellFormed, AllSupported, NextAt, LiveAt;
  }

  lemma StoreClobbers()
    ensures Clobbers(EXAMPLE_ENV, Held(8), STORE)
  {
    hide Env.WellFormed;
  }

  // ------------------------------------------------------------------
  // The run
  // ------------------------------------------------------------------

  /** Assigning to a local variable leaves the heap and the other variables alone. */
  lemma AssignLocal(n: nat, w: Word, q: QState)
    requires n < 9
    ensures var q' := Assign(EXAMPLE_ENV, n, w, q);
            && NameValue(EXAMPLE_ENV, n, q') == w && Fetch(q', TARGET) == Fetch(q, TARGET)
            && forall j: nat :: j < 9 && j != n ==> NameValue(EXAMPLE_ENV, j, q') == NameValue(EXAMPLE_ENV, j, q)
  {
    ExampleWellFormed();
  }

  /** A quad that is no store through a pointer assigns a local variable, in the code too. */
  lemma Assigns(t: Tables, i: Quad, q: QState)
    requires EXAMPLE_ENV.WellFormed() && Supported(EXAMPLE_ENV, i) && (i.op.OpAsn? || i.op.OpAdd?)
    ensures StepCode(EXAMPLE_ENV, t, i, q) == StepQuad(EXAMPLE_ENV, i, q)
    ensures i.op.OpAsn? ==>
              StepQuad(EXAMPLE_ENV, i, q) ==
              Assign(EXAMPLE_ENV, EXAMPLE_ENV.c.Nid(i.tar), OperandValue(EXAMPLE_ENV, i.arg1, q), q)
    ensures exists w :: StepQuad(EXAMPLE_ENV, i, q) == Assign(EXAMPLE_ENV, EXAMPLE_ENV.c.Nid(i.tar), w, q)
  {
    hide Env.WellFormed, OperandValue, Arith;
  }

  /** The uses of a_1..a_7 change x alone. */
  lemma {:induction false} UsesHarmless(j: nat, t: Tables, q: QState)
    requires j <= 4
    ensures EXAMPLE_ENV.WellFormed() && AllSupported(EXAMPLE_ENV, USES[j..])
    ensures CodeSafe(EXAMPLE_ENV, t, USES[j..], {}, q) && PointersValid(EXAMPLE_ENV, USES[j..], q)
    ensures Fetch(RunCode(EXAMPLE_ENV, t, USES[j..], {}, q), TARGET) == Fetch(q, TARGET)
    ensures Fetch(RunQuads(EXAMPLE_ENV, USES[j..], q), TARGET) == Fetch(q, TARGET)
    decreases 4 - j
  {
    ExampleWellFormed();
    UsesSupported();
    hide Env.WellFormed, After, OperandValue, StepQuad, Env.VarHome, LiveAt, NextAt;
    if j < 4 {
      assert USES[j..][1..] == USES[j + 1..] && USES[j..][0] == USES[j];
      var i := USES[j];
      Assigns(t, i, q);
      var w :| StepQuad(EXAMPLE_ENV, i, q) == Assign(EXAMPLE_ENV, 8, w, q);
      AssignLocal(8, w, q);
      UsesHarmless(j + 1, After(EXAMPLE_ENV, t, i, BitsAt(EXAMPLE_ENV, USES[j..], {})), StepQuad(EXAMPLE_ENV, i, q));
    }
  }

  /** From the store on: the code stores x at x, the quads store x at p. */
  lemma StoreRuns(q: QState)
    requires NameValue(EXAMPLE_ENV, 0, q) == TARGET
    requires EXAMPLE_ENV.IsHeap(NameValue(EXAMPLE_ENV, 8, q)) && NameValue(EXAMPLE_ENV, 8, q) != TARGET
    ensures EXAMPLE_ENV.WellFormed() && AllSupported(EXAMPLE_ENV, From(8))
    ensures CodeSafe(EXAMPLE_ENV, Held(8), From(8), {}, q) && PointersValid(EXAMPLE_ENV, From(8), q)
    ensures Fetch(RunCode(EXAMPLE_ENV, Held(8), From(8), {}, q), TARGET) == Fetch(q, TARGET)
    ensures Fetch(RunQuads(EXAMPLE_ENV, From(8), q), TARGET) == NameValue(EXAMPLE_ENV, 8, q)
  {
    hide Env.WellFormed, After, LiveAt, NextAt, NameValue, Clobbers, RunCode, RunQuads, CodeSafe, PointersValid;
    hide AllSupported, BitsAt, Env.IsHeap;
    ExampleWellFormed();
    FromSupported(8);
    StoreClobbers();
    var e, x := EXAMPLE_ENV, NameValue(EXAMPLE_ENV, 8, q);
    assert From(8)[1..] == USES == USES[0..] && From(8)[0] == STORE;
    assert OperandValue(e, 1, q) == TARGET && OperandValue(e, 9, q) == x;
    RunsOn(e, Held(8), From(8), {}, q);
    var t := After(e, Held(8), STORE, BitsAt(e, From(8), {}));
    UsesHarmless(0, t, q.(mem := q.mem[x := x]));
    UsesHarmless(0, t, q.(mem := q.mem[TARGET := x]));
  }

  /** From any definition on: in the end the code has not changed the word p points to, which
      should be x. */
  lemma {:induction false} CodeRuns(k: nat, q: QState)
    requires k <= 8 && (k > 0 ==> NameValue(EXAMPLE_ENV, 0, q) == TARGET)
    requires EXAMPLE_ENV.IsHeap(NameValue(EXAMPLE_ENV, 8, q)) && NameValue(EXAMPLE_ENV, 8, q) != TARGET
    ensures EXAMPLE_ENV.WellFormed() && AllSupported(EXAMPLE_ENV, From(k))
    ensures CodeSafe(EXAMPLE_ENV, Held(k), From(k), {}, q) && PointersValid(EXAMPLE_ENV, From(k), q)
    ensures Fetch(RunCode(EXAMPLE_ENV, Held(k), From(k), {}, q), TARGET) == Fetch(q, TARGET)
    ensures Fetch(RunQuads(EXAMPLE_ENV, From(k), q), TARGET) == NameValue(EXAMPLE_ENV, 8, q)
    decreases 8 - k
  {
    hide Env.WellFormed, After, LiveAt, NextAt, NameValue, RunCode, RunQuads, CodeSafe, PointersValid, Assign, StepQuad;
    hide AllSupported, BitsAt, Env.IsHeap, StepCode;
    ExampleWellFormed();
    FromSupported(k);
    if k == 8 {
      StoreRuns(q);
    } else {
      var e, w := EXAMPLE_ENV, OperandValue(EXAMPLE_ENV, Define(k).arg1, q);
      DefinitionUsed(k);
      DefinitionHolds(k, BitsAt(e, From(k), {}));
      RunsOn(e, Held(k), From(k), {}, q);
      Assigns(Held(k), Define(k), q);
      AssignLocal(k, w, q);
      assert k == 0 ==> w == TARGET;
      CodeRuns(k + 1, Assign(e, k, w, q));
    }
  }

  /** Without quads that read more than they mention, what is live has a next use. */
  lemma {:induction false} LiveIsNext(c: Context, quads: seq<Quad>)
    requires forall q :: q in quads ==> c.WellFormed(q)
    requires forall q :: q in quads ==> c.Implicit(q) == {}
    ensures c.ScanBack(quads, {}) == c.NextScan(quads)
  {
    if quads != [] {
      LiveIsNext(c, quads[1..]);
    }
  }

  /** The block reads x alone from outside. */
  lemma ReadsX()
    ensures AllSupported(EXAMPLE_ENV, From(0)) && LiveAt(EXAMPLE_ENV, From(0), {}) == {8}
  {
    AllUsed(0);
    hide Env.WellFormed;
    SupportedWellFormed(EXAMPLE_ENV, From(0));
    LiveIsNext(EXAMPLE_ENV.c, From(0));
  }

  /** The generator's state at the block's entry, on such a machine. */
  lemma EntryInMemory(s: State, entry: Machine)
    requires Ok(EXAMPLE_ENV, s, NO_PIN) && RegistersFree(s) && s.m == entry
    ensures InMemory(EXAMPLE_ENV, s, {8}, QState(map[], entry.mem))
    ensures NoRegisters(EXAMPLE_ENV) == Held(0)
    ensures NameValue(EXAMPLE_ENV, 8, QState(map[], entry.mem)) == entry.Load(0x8000 - 36)
  {
    ExampleWellFormed();
    hide Env.WellFormed;
    assert NoRegisters(EXAMPLE_ENV).regs == Held(0).regs;
    assert NoRegisters(EXAMPLE_ENV).addrs == Held(0).addrs;
  }

  /** The block compiled: run from any machine whose x is another address on the heap, the code
      leaves the word at TARGET as it was, where the quads leave x. */
  method LosesStore(ghost entry: Machine) returns (code: seq<Instr>)
    requires entry.Reg(FP) == 0x8000
    requires EXAMPLE_ENV.IsHeap(entry.Load(0x8000 - 36)) && entry.Load(0x8000 - 36) != TARGET
    ensures Run(EXAMPLE_ENV.symbols, code, entry).Load(TARGET) == entry.Load(TARGET)
    ensures EXAMPLE_ENV.WellFormed() && AllSupported(EXAMPLE_ENV, From(0))
    ensures Fetch(RunQuads(EXAMPLE_ENV, From(0), QState(map[], entry.mem)), TARGET) == entry.Load(0x8000 - 36)
  {
    hide Env.WellFormed, Ok, RegistersFree, AllSupported, LiveAt, NameValue, Held, CodeSafe, RunCode, RunQuads;
    ExampleWellFormed();
    ReadsX();
    ghost var q := QState(map[], entry.mem);
    var g := new Generator(EXAMPLE_ENV, entry);
    EntryInMemory(g.Snap(), entry);
    CodeRuns(0, q);
    g.CompileBlock(From(0), {}, entry, q);
    code := g.code;
    assert g.code[0..] == g.code;
  }
}
