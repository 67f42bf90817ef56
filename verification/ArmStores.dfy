/** When no store through a pointer can be clobbered, read off the quads alone. */
module ArmStores {
  import opened Ic
  import opened Dflow
  import opened ArmMachine
  import opened ArmState
  import opened ArmAlloc

  ghost predicate Sound(e: Env, t: Tables) { Inverse(e, t.regs, t.addrs) }

  ghost predicate OnlyNext(t: Tables, next: set<nat>) {
    forall n :: 0 <= n < |t.addrs| && t.addrs[n] != -1 ==> n in next
  }

  /** Names may have left their registers; none moved. */
  ghost predicate Less(t: Tables, u: Tables) {
    |u.addrs| == |t.addrs| && forall n :: 0 <= n < |t.addrs| ==> u.addrs[n] == t.addrs[n] || u.addrs[n] == -1
  }

  /** Every store of a name through a pointer happens while at most eight names, those of the
      store included, have a next use. */
  ghost predicate Uncrowded(e: Env, quads: seq<Quad>)
    requires AllSupported(e, quads)
  {
    if quads == [] then true
    else
      SupportedTail(e, quads);
      && (quads[0].op.OpIndAsn? && e.c.Names(quads[0].arg2) ==> |NextAt(e, quads)| <= 8)
      && Uncrowded(e, quads[1..])
  }

  // ------------------------------------------------------------------
  // What the allocator keeps
  // ------------------------------------------------------------------

  lemma LeaveSound(e: Env, t: Tables, a: nat)
    requires e.WellFormed() && Sound(e, t)
    ensures Sound(e, Leave(e, t, a)) && Less(t, Leave(e, t, a))
    ensures Where(e, Leave(e, t, a), a) == -1
  {
    hide Env.WellFormed;
  }

  lemma SpillSound(e: Env, t: Tables, r: nat)
    requires e.WellFormed() && Sound(e, t) && r < NREG
    ensures Sound(e, Spill(e, t, r)) && Less(t, Spill(e, t, r)) && Spill(e, t, r).regs[r] == 0
    ensures forall k :: 0 <= k < NREG && k != r ==> Spill(e, t, r).regs[k] == t.regs[k]
  {
    LeaveSound(e, t, t.regs[r]);
    assert !e.c.Names(0);
    hide Env.WellFormed;
  }

  lemma SpillAliasedSound(e: Env, t: Tables)
    requires e.WellFormed() && Sound(e, t)
    ensures Sound(e, SpillAliased(e, t, NREG)) && Less(t, SpillAliased(e, t, NREG))
  {
    hide Env.WellFormed, Aliased;
  }

  lemma PickGood(t: Tables, pin: int)
    requires |t.regs| == NREG
    ensures var r := Pick(t, pin); r < NREG && Allocatable(r) && r != pin
  {
    FirstFreeFinds(t.regs, pin, 0);
  }

  lemma ForResultSound(e: Env, t: Tables, arg1: nat, f: Flags)
    requires e.WellFormed() && Sound(e, t)
    ensures var t1, r := ForResult(e, t, arg1, f), ResultAt(e, t, arg1, f);
            && Sound(e, t1) && Less(t, t1) && r < NREG && Allocatable(r)
            && (t1.regs[r] == 0 || (Where(e, t1, arg1) == r && !f.ar1Live))
  {
    PickGood(t, NO_PIN);
    SpillSound(e, t, Pick(t, NO_PIN));
    hide Env.WellFormed, Pick, Spill;
  }

  lemma ForSecondSound(e: Env, t: Tables, a: nat, imm: bool, pin: nat)
    requires e.WellFormed() && Sound(e, t) && pin < NREG
    ensures var t1 := ForSecond(e, t, a, imm, pin);
            Sound(e, t1) && Less(t, t1) && t1.regs[pin] == t.regs[pin]
  {
    PickGood(t, pin);
    SpillSound(e, t, Pick(t, pin));
    hide Env.WellFormed, Pick, Spill, Immediate;
  }

  lemma EnterSound(e: Env, t: Tables, r: nat, tar: nat, nextUse: bool)
    requires e.WellFormed() && Sound(e, t) && r < NREG && Allocatable(r) && t.regs[r] == 0
    requires Where(e, t, tar) == -1
    ensures Sound(e, Enter(e, t, r, tar, nextUse))
  {
    assert !e.c.Names(0);
    hide Env.WellFormed;
  }

  lemma ReleaseSound(e: Env, t: Tables, a: nat, nextUse: bool)
    requires e.WellFormed() && Sound(e, t)
    ensures Sound(e, Release(e, t, a, nextUse)) && Less(t, Release(e, t, a, nextUse))
    ensures !nextUse ==> Where(e, Release(e, t, a, nextUse), a) == -1
  {
    LeaveSound(e, t, a);
    hide Env.WellFormed, Leave;
  }

  lemma ReleaseBothSound(e: Env, t: Tables, i: Quad, f: Flags)
    requires e.WellFormed() && Sound(e, t)
    ensures var u := ReleaseBoth(e, t, i, f);
            && Sound(e, u) && Less(t, u)
            && (!f.ar1Next ==> Where(e, u, i.arg1) == -1)
            && ((ShapeOf(i.op).Binary? || ShapeOf(i.op).IndAsn?) && !f.ar2Next ==> Where(e, u, i.arg2) == -1)
  {
    ReleaseSound(e, t, i.arg1, f.ar1Next);
    var t1 := Release(e, t, i.arg1, f.ar1Next);
    ReleaseSound(e, t1, i.arg2, f.ar2Next);
    hide Env.WellFormed, Release, Inverse;
  }

  lemma ForQuadSound(e: Env, t: Tables, i: Quad, f: Flags)
    requires e.WellFormed() && Sound(e, t)
    ensures var u, r := ForQuad(e, t, i, f), QuadResultAt(e, t, i, f);
            && Sound(e, u) && Less(t, u) && r < NREG && Allocatable(r)
            && (u.regs[r] != 0 ==> !f.ar1Live && e.c.Names(u.regs[r]) && Inside(e, u, i.arg1)
                                   && e.c.Nid(u.regs[r]) == e.c.Nid(i.arg1))
  {
    SpillAliasedSound(e, t);
    var t0 := if i.op.OpInd? then SpillAliased(e, t, NREG) else t;
    ForResultSound(e, t0, i.arg1, f);
    var t1 := ForResult(e, t0, i.arg1, f);
    ForSecondSound(e, t1, i.arg2, !i.op.OpMul?, ResultAt(e, t0, i.arg1, f));
    hide Env.WellFormed, ForResult, ResultAt, ForSecond, SpillAliased;
  }

  lemma ForStoreSound(e: Env, t: Tables, i: Quad, f: Flags)
    requires e.WellFormed() && Sound(e, t)
    ensures Sound(e, ForStore(e, t, i, f)) && Less(t, ForStore(e, t, i, f))
  {
    ForResultSound(e, t, i.arg1, f);
    var t1, pin := ForPointer(e, t, i, f), PointerPin(e, t, i, f);
    PickGood(t1, pin);
    SpillSound(e, t1, Pick(t1, pin));
    hide Env.WellFormed, ForResult, ResultAt, Spill, Pick, Inverse;
  }

  lemma LessKeeps(t: Tables, u: Tables, next: set<nat>)
    requires Less(t, u) && OnlyNext(t, next)
    ensures OnlyNext(u, next)
  {
  }

  /** After a store the names of the tables have a further use. */
  lemma AfterStore(e: Env, t: Tables, i: Quad, f: Flags, live: set<nat>, next: set<nat>)
    requires e.WellFormed() && e.c.WellFormed(i) && i.op.OpIndAsn? && f == FlagsOf(e.c, i, live, next)
    requires Sound(e, t) && OnlyNext(t, e.c.NextBefore(i, next))
    ensures Sound(e, After(e, t, i, f)) && OnlyNext(After(e, t, i, f), next)
  {
    SpillAliasedSound(e, t);
    var t0 := SpillAliased(e, t, NREG);
    ForStoreSound(e, t0, i, f);
    var t1 := ForStore(e, t0, i, f);
    ReleaseBothSound(e, t1, i, f);
    hide Env.WellFormed, Inverse, SpillAliased, ForStore, ReleaseBoth;
    var u := ReleaseBoth(e, t1, i, f);
    forall n | 0 <= n < |u.addrs| && u.addrs[n] != -1 ensures n in next {
      assert t1.addrs[n] != -1 && t0.addrs[n] != -1 && t.addrs[n] != -1;
      assert n in e.c.NextBefore(i, next);
    }
  }

  /** What is left in registers once the operands are released has a use beyond the target. */
  lemma ReleasedNext(e: Env, t: Tables, u: Tables, i: Quad, f: Flags, live: set<nat>, next: set<nat>)
    requires e.WellFormed() && e.c.WellFormed(i) && f == FlagsOf(e.c, i, live, next) && next <= live
    requires ShapeOf(i.op).Binary? || ShapeOf(i.op).Unary? || ShapeOf(i.op).Ind?
    requires OnlyNext(t, e.c.NextBefore(i, next)) && Less(t, u) && |t.addrs| == |e.places|
    requires !f.ar1Next ==> Where(e, u, i.arg1) == -1
    requires ShapeOf(i.op).Binary? && !f.ar2Next ==> Where(e, u, i.arg2) == -1
    ensures OnlyNext(u, next - {e.c.Nid(i.tar)})
  {
    FlagFacts(e.c, i, f, live, next);
    assert forall a :: e.c.Names(a) ==> Inside(e, u, a);
    hide Env.WellFormed, FlagsOf;
    forall k | 0 <= k < |u.addrs| && u.addrs[k] != -1 ensures k in next - {e.c.Nid(i.tar)} {
      assert t.addrs[k] != -1;
      assert k in e.c.NextBefore(i, next);
    }
  }

  /** The result register is empty then. */
  lemma ReleasedEmpty(e: Env, u: Tables, w: Tables, r: nat, arg1: nat, next: set<nat>)
    requires e.WellFormed() && Sound(e, u) && Sound(e, w) && Less(u, w) && r < NREG
    requires OnlyNext(w, next)
    requires u.regs[r] != 0 ==> Inside(e, u, arg1) && e.c.Names(u.regs[r])
                                && e.c.Nid(u.regs[r]) == e.c.Nid(arg1) && e.c.Nid(arg1) !in next
    ensures w.regs[r] == 0
  {
    hide Env.WellFormed;
  }

  lemma TargetNamed(e: Env, t: Tables, i: Quad, f: Flags, live: set<nat>, next: set<nat>)
    requires e.WellFormed() && e.c.WellFormed(i) && f == FlagsOf(e.c, i, live, next) && next <= live
    requires ShapeOf(i.op).Binary? || ShapeOf(i.op).Unary? || ShapeOf(i.op).Ind?
    requires Sound(e, t)
    ensures |t.addrs| == |e.places| && e.c.Names(i.tar) && e.c.Nid(i.tar) < |t.addrs|
    ensures f.tarNext <==> e.c.Nid(i.tar) in next
    ensures e.c.Names(i.arg1) && !f.ar1Live ==> e.c.Nid(i.arg1) !in next - {e.c.Nid(i.tar)}
  {
    FlagFacts(e.c, i, f, live, next);
    hide FlagsOf;
  }

  lemma LessTwice(t: Tables, u: Tables, w: Tables)
    requires Less(t, u) && Less(u, w)
    ensures Less(t, w)
  {
  }

  lemma OutOfTables(e: Env, t: Tables, a: nat, next: set<nat>)
    requires e.c.Names(a) && OnlyNext(t, next) && e.c.Nid(a) !in next
    ensures Where(e, t, a) == -1
  {
  }

  lemma EnterNextUse(e: Env, t: Tables, r: nat, tar: nat, nextUse: bool, next: set<nat>)
    requires e.c.Names(tar) && OnlyNext(t, next - {e.c.Nid(tar)}) && (nextUse ==> e.c.Nid(tar) in next)
    ensures OnlyNext(Enter(e, t, r, tar, nextUse), next)
  {
  }

  /** And so they have after any other quad, whose target is in no register before it is entered. */
  lemma AfterOther(e: Env, t: Tables, i: Quad, f: Flags, live: set<nat>, next: set<nat>)
    requires e.WellFormed() && e.c.WellFormed(i) && f == FlagsOf(e.c, i, live, next) && next <= live
    requires ShapeOf(i.op).Binary? || ShapeOf(i.op).Unary? || ShapeOf(i.op).Ind?
    requires Sound(e, t) && OnlyNext(t, e.c.NextBefore(i, next))
    ensures Sound(e, After(e, t, i, f)) && OnlyNext(After(e, t, i, f), next)
  {
    hide Env.WellFormed, ForQuad, QuadResultAt, ReleaseBoth, After, FlagsOf, Inverse, OnlyNext, Less, Where, Enter;
    hide Context.NextBefore, Context.WellFormed;
    TargetNamed(e, t, i, f, live, next);
    var n := e.c.Nid(i.tar);
    ForQuadSound(e, t, i, f);
    var u, r := ForQuad(e, t, i, f), QuadResultAt(e, t, i, f);
    ReleaseBothSound(e, u, i, f);
    var w := ReleaseBoth(e, u, i, f);
    QuadTables(e, t, i, f);
    LessTwice(t, u, w);
    ReleasedNext(e, t, w, i, f, live, next);
    ReleasedEmpty(e, u, w, r, i.arg1, next - {n});
    OutOfTables(e, w, i.tar, next - {n});
    EnterSound(e, w, r, i.tar, f.tarNext);
    EnterNextUse(e, w, r, i.tar, f.tarNext, next);
  }

  lemma AfterAddrOf(e: Env, t: Tables, i: Quad, f: Flags, live: set<nat>, next: set<nat>)
    requires e.WellFormed() && e.c.WellFormed(i) && f == FlagsOf(e.c, i, live, next) && i.op.OpAddrOf?
    requires Sound(e, t) && OnlyNext(t, e.c.NextBefore(i, next))
    ensures Sound(e, After(e, t, i, f)) && OnlyNext(After(e, t, i, f), next)
  {
    PickGood(t, NO_PIN);
    var r := Pick(t, NO_PIN);
    SpillSound(e, t, r);
    assert e.c.Nid(i.tar) < |e.places| == |t.addrs|;
    hide Env.WellFormed, Pick, Spill;
    EnterSound(e, Spill(e, t, r), r, i.tar, f.tarNext);
  }

  lemma AfterSound(e: Env, t: Tables, i: Quad, f: Flags, live: set<nat>, next: set<nat>)
    requires e.WellFormed() && Supported(e, i) && f == FlagsOf(e.c, i, live, next) && next <= live
    requires Sound(e, t) && OnlyNext(t, e.c.NextBefore(i, next))
    ensures Sound(e, After(e, t, i, f)) && OnlyNext(After(e, t, i, f), next)
  {
    hide Env.WellFormed, After, Inverse, FlagsOf, OnlyNext, Context.NextBefore;
    if i.op.OpIndAsn? {
      AfterStore(e, t, i, f, live, next);
    } else if i.op.OpAddrOf? {
      AfterAddrOf(e, t, i, f, live, next);
    } else {
      AfterOther(e, t, i, f, live, next);
    }
  }

  // ------------------------------------------------------------------
  // Counting
  // ------------------------------------------------------------------

  /** A set with distinct members has at least as many members. */
  lemma {:induction false} DistinctMembers(ns: seq<nat>, s: set<nat>)
    requires forall i, j :: 0 <= i < j < |ns| ==> ns[i] != ns[j]
    requires forall i :: 0 <= i < |ns| ==> ns[i] in s
    ensures |ns| <= |s|
  {
    if ns != [] {
      var k := |ns| - 1;
      DistinctMembers(ns[..k], s - {ns[k]});
    }
  }

  const ALLOCATABLE: seq<nat> := [4, 5, 6, 7, 8, 9, 10, 14]

  /** A clobbered store needs eight names in registers, and the stored one. */
  lemma ClobbersCrowded(e: Env, t: Tables, i: Quad, next: set<nat>)
    requires e.WellFormed() && e.c.WellFormed(i) && Sound(e, t) && Clobbers(e, t, i)
    requires OnlyNext(t, next) && e.c.Nid(i.arg2) in next
    ensures |next| >= 9
  {
    assert forall r :: r in ALLOCATABLE ==> 0 <= r < NREG && Allocatable(r);
    assert e.c.Nid(i.arg2) < |e.places| == |t.addrs|;
    hide Env.WellFormed;
    var held: seq<nat> := seq(8, k requires 0 <= k < 8 =>
      assert ALLOCATABLE[k] in ALLOCATABLE; e.c.Nid(t.regs[ALLOCATABLE[k]]));
    forall k | 0 <= k < 8 ensures held[k] < |t.addrs| && t.addrs[held[k]] == ALLOCATABLE[k] {
      assert ALLOCATABLE[k] in ALLOCATABLE;
    }
    forall j, k | 0 <= j < k < 8 ensures held[j] != held[k] {
      assert t.addrs[held[j]] != t.addrs[held[k]];
    }
    DistinctMembers(held + [e.c.Nid(i.arg2)], next);
  }

  /** Without crowding no store of the block is clobbered. */
  lemma {:induction false} UncrowdedSafe(e: Env, t: Tables, quads: seq<Quad>, liveOut: set<nat>)
    requires e.WellFormed() && AllSupported(e, quads) && Uncrowded(e, quads)
    requires Sound(e, t) && OnlyNext(t, NextAt(e, quads))
    ensures !Loses(e, t, quads, liveOut)
    decreases |quads|
  {
    if quads != [] {
      SupportedTail(e, quads);
      SupportedWellFormed(e, quads);
      SupportedWellFormed(e, quads[1..]);
      NextUseIsLive(e.c, quads[1..], liveOut);
      var i, f, live, next := quads[0], BitsAt(e, quads, liveOut), LiveAt(e, quads[1..], liveOut),
          NextAt(e, quads[1..]);
      assert NextAt(e, quads) == e.c.NextBefore(i, next);
      hide Env.WellFormed, After, Clobbers, FlagsOf, Inverse, OnlyNext;
      AfterSound(e, t, i, f, live, next);
      if Clobbers(e, t, i) {
        ClobberNames(e, t, i, next);
        ClobbersCrowded(e, t, i, NextAt(e, quads));
        assert false;
      }
      UncrowdedSafe(e, After(e, t, i, f), quads[1..], liveOut);
    }
  }

  lemma ClobberNames(e: Env, t: Tables, i: Quad, next: set<nat>)
    requires Supported(e, i) && Clobbers(e, t, i)
    ensures i.op.OpIndAsn? && e.c.Names(i.arg2) && e.c.WellFormed(i)
    ensures e.c.Nid(i.arg2) in e.c.NextBefore(i, next)
  {
  }

  /** A block that reads at most eight names is uncrowded. */
  lemma {:induction false} FewNamesUncrowded(e: Env, quads: seq<Quad>, names: set<nat>)
    requires AllSupported(e, quads) && |names| <= 8
    requires forall i :: i in quads ==> Supported(e, i) && e.c.Uses(i) <= names
    ensures Uncrowded(e, quads) && NextAt(e, quads) <= names
    decreases |quads|
  {
    hide Supported, Context.WellFormed, Context.Uses;
    if quads != [] {
      NextAtCons(e, quads);
      FewNamesUncrowded(e, quads[1..], names);
      assert quads[0] in quads;
      Cardinal(NextAt(e, quads), names);
    }
  }

  lemma {:induction false} Cardinal(s: set<nat>, t: set<nat>)
    requires s <= t
    ensures |s| <= |t|
  {
    if s != {} {
      var x :| x in s;
      Cardinal(s - {x}, t - {x});
    }
  }

  /** A block entered with no name in a register, none of whose stores is crowded: its code does
      what its quads do, and is safe wherever they are. */
  lemma UncrowdedRight(e: Env, quads: seq<Quad>, liveOut: set<nat>, q: QState)
    requires e.WellFormed() && AllSupported(e, quads) && Uncrowded(e, quads)
    ensures RunCode(e, NoRegisters(e), quads, liveOut, q) == RunQuads(e, quads, q)
    ensures CodeSafe(e, NoRegisters(e), quads, liveOut, q) <==> PointersValid(e, quads, q)
  {
    var t := NoRegisters(e);
    assert !e.c.Names(0);
    UncrowdedSafe(e, t, quads, liveOut);
    NothingLost(e, t, quads, liveOut, q);
  }
}
