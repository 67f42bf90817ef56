/** Liveness: the block summaries, the iterative solver and the backward annotation scan. */
module Dflow {
  import opened Ic

  /** What the analyses read besides the quads: the address table, the address-taken
      variables and the static objects the function modifies. */
  datatype Context = Context(addresses: seq<Address>, addressTaken: set<nat>, modifiedStatics: set<nat>)
  {
    function With(modified: set<nat>): Context { this.(modifiedStatics := modified) }

    predicate Names(a: nat) { a < |addresses| && !addresses[a].IsConst() }

    function Nid(a: nat): nat
      requires Names(a)
    {
      addresses[a].Nid()
    }

    /** The name read through operand a, if it is not a constant. */
    function Operand(a: nat): set<nat>
      requires a < |addresses|
    {
      if addresses[a].IsConst() then {} else {addresses[a].Nid()}
    }

    /** Every operand a quad is about to use is present, and names where names are needed. */
    predicate WellFormed(q: Quad) {
      match ShapeOf(q.op)
      case Binary => Names(q.tar) && q.arg1 < |addresses| && q.arg2 < |addresses|
      case Unary => Names(q.tar) && q.arg1 < |addresses|
      case Sink => q.arg1 < |addresses|
      case AddrOf => Names(q.tar)
      case Ind => Names(q.tar) && Names(q.arg1)
      case IndAsn => Names(q.arg1) && q.arg2 < |addresses|
      case Call => q.tar != 0 ==> Names(q.tar)
      case IndCall => (q.tar != 0 ==> Names(q.tar)) && q.arg1 < |addresses|
      case Other => true
    }

    /** Names the quad reads through its first and its second operand. */
    function Uses1(q: Quad): set<nat>
      requires WellFormed(q)
    {
      match ShapeOf(q.op)
      case Binary | Unary | Sink | Ind | IndAsn | IndCall => Operand(q.arg1)
      case AddrOf | Call | Other => {}
    }

    function Uses2(q: Quad): set<nat>
      requires WellFormed(q)
    {
      match ShapeOf(q.op)
      case Binary | IndAsn => Operand(q.arg2)
      case _ => {}
    }

    function Uses(q: Quad): set<nat>
      requires WellFormed(q)
    {
      Uses1(q) + Uses2(q)
    }

    /** Names the quad may read without mentioning them. */
    function Implicit(q: Quad): set<nat> {
      match ShapeOf(q.op)
      case Ind => addressTaken
      case Call | IndCall => addressTaken + modifiedStatics
      case _ => {}
    }

    /** Names the quad certainly redefines. */
    function Defs(q: Quad): set<nat>
      requires WellFormed(q)
    {
      match ShapeOf(q.op)
      case Binary | Unary | AddrOf | Ind => {Nid(q.tar)}
      case Call | IndCall => if q.tar != 0 then {Nid(q.tar)} else {}
      case Sink | IndAsn | Other => {}
    }

    function LiveBefore(q: Quad, live: set<nat>): set<nat>
      requires WellFormed(q)
    {
      live - Defs(q) + Uses(q) + Implicit(q)
    }

    function NextBefore(q: Quad, next: set<nat>): set<nat>
      requires WellFormed(q)
    {
      next - Defs(q) + Uses(q)
    }

    /** Live names before the first of the quads, given those live after the last. */
    function ScanBack(quads: seq<Quad>, live: set<nat>): set<nat>
      requires forall q :: q in quads ==> WellFormed(q)
    {
      if quads == [] then live
      else LiveBefore(quads[0], ScanBack(quads[1..], live))
    }

    /** Names with a use further on in the block. */
    function NextScan(quads: seq<Quad>): set<nat>
      requires forall q :: q in quads ==> WellFormed(q)
    {
      if quads == [] then {}
      else NextBefore(quads[0], NextScan(quads[1..]))
    }

    /** Upward-exposed names of the quads: read before any definition in them. */
    function Exposed(quads: seq<Quad>): set<nat>
      requires forall q :: q in quads ==> WellFormed(q)
    {
      if quads == [] then {}
      else
        var k := |quads| - 1;
        Exposed(quads[..k]) + (Uses(quads[k]) + Implicit(quads[k]) - Killed(quads[..k]))
    }

    function Killed(quads: seq<Quad>): set<nat>
      requires forall q :: q in quads ==> WellFormed(q)
    {
      if quads == [] then {}
      else
        var k := |quads| - 1;
        Killed(quads[..k]) + Defs(quads[k])
    }
  }

  // ------------------------------------------------------------------
  // Block summaries
  // ------------------------------------------------------------------

  /** Records a read of operand a, unless it is a constant or already redefined in the block. */
  method AddUEVar(c: Context, a: nat, ueVar: set<nat>, varKill: set<nat>) returns (ueVar': set<nat>)
    requires a < |c.addresses|
    ensures ueVar' == ueVar + (c.Operand(a) - varKill)
  {
    ueVar' := ueVar;
    if !c.addresses[a].IsConst() && c.Nid(a) !in varKill {
      ueVar' := ueVar + {c.Nid(a)};
    }
  }

  /** The static object an assignment modifies, if its target is one. */
  function Modified(c: Context, statics: set<nat>, q: Quad): set<nat>
    requires c.WellFormed(q)
  {
    if q.op.OpAsn? && c.addresses[q.tar].Id? && c.Nid(q.tar) in statics then {c.Nid(q.tar)} else {}
  }

  function ModifiedBy(c: Context, statics: set<nat>, quads: seq<Quad>): set<nat>
    requires forall q :: q in quads ==> c.WellFormed(q)
  {
    if quads == [] then {}
    else
      var k := |quads| - 1;
      ModifiedBy(c, statics, quads[..k]) + Modified(c, statics, quads[k])
  }

  /** What the forward pass finds exposed: a call reads the statics modified by the quads before it, in this block or
      earlier in the code. */
  function Gathered(c: Context, statics: set<nat>, quads: seq<Quad>, modified: set<nat>): set<nat>
    requires forall q :: q in quads ==> c.WellFormed(q)
  {
    if quads == [] then {}
    else
      var k := |quads| - 1;
      Gathered(c, statics, quads[..k], modified)
      + (c.Uses(quads[k]) + c.With(modified + ModifiedBy(c, statics, quads[..k])).Implicit(quads[k])
         - c.Killed(quads[..k]))
  }

  /** The body of the forward pass for one quad. */
  method SummarizeQuad(c: Context, statics: set<nat>, q: Quad, ueVar: set<nat>, varKill: set<nat>, modified: set<nat>)
    returns (ueVar': set<nat>, varKill': set<nat>, modified': set<nat>)
    requires c.WellFormed(q)
    ensures ueVar' == ueVar + (c.Uses(q) + c.With(modified).Implicit(q) - varKill)
    ensures varKill' == varKill + c.Defs(q)
    ensures modified' == modified + Modified(c, statics, q)
  {
    ueVar', varKill', modified' := ueVar, varKill, modified;
    match ShapeOf(q.op)
    case Binary =>
      ueVar' := AddUEVar(c, q.arg1, ueVar', varKill);
      ueVar' := AddUEVar(c, q.arg2, ueVar', varKill);
      varKill' := varKill + {c.Nid(q.tar)};
    case Unary =>
      if q.op.OpAsn? && c.addresses[q.tar].Id? && c.Nid(q.tar) in statics {
        modified' := modified' + {c.Nid(q.tar)};
      }
      ueVar' := AddUEVar(c, q.arg1, ueVar', varKill);
      varKill' := varKill + {c.Nid(q.tar)};
    case Sink =>
      ueVar' := AddUEVar(c, q.arg1, ueVar', varKill);
    case AddrOf =>
      varKill' := varKill + {c.Nid(q.tar)};
    case Ind =>
      ueVar' := ueVar' + (c.addressTaken - varKill);
      ueVar' := AddUEVar(c, q.arg1, ueVar', varKill);
      varKill' := varKill + {c.Nid(q.tar)};
    case IndAsn =>
      ueVar' := AddUEVar(c, q.arg2, ueVar', varKill);
      ueVar' := AddUEVar(c, q.arg1, ueVar', varKill);
    case Call | IndCall =>
      ueVar' := ueVar' + (c.addressTaken + modified - varKill);
      if q.op.OpIndCall? {
        ueVar' := AddUEVar(c, q.arg1, ueVar', varKill);
      }
      if q.tar != 0 {
        varKill' := varKill + {c.Nid(q.tar)};
      }
    case Other =>
  }

  /** One pass over a block computing UEVar and VarKill, while the set of modified statics grows. */
  method LiveInitBlock(c: Context, statics: set<nat>, quads: seq<Quad>, exitBlock: bool, modified: set<nat>)
    returns (ueVar: set<nat>, varKill: set<nat>, modified': set<nat>)
    requires forall q :: q in quads ==> c.WellFormed(q)
    ensures ueVar == Gathered(c, statics, quads, modified) + (if exitBlock then modified else {})
    ensures varKill == c.Killed(quads)
    ensures modified' == modified + ModifiedBy(c, statics, quads)
  {
    ueVar, varKill, modified' := {}, {}, modified;
    if exitBlock {
      ueVar := modified;
    }
    ghost var seed := ueVar;
    for i := 0 to |quads|
      invariant ueVar == seed + Gathered(c, statics, quads[..i], modified)
      invariant varKill == c.Killed(quads[..i])
      invariant modified' == modified + ModifiedBy(c, statics, quads[..i])
    {
      assert quads[i] in quads;
      assert quads[..i + 1][..i] == quads[..i];
      ueVar, varKill, modified' := SummarizeQuad(c, statics, quads[i], ueVar, varKill, modified');
    }
    assert quads[..|quads|] == quads;
  }

  predicate AllWellFormed(c: Context, blocks: seq<seq<Quad>>) {
    forall b, q :: 0 <= b < |blocks| && q in blocks[b] ==> c.WellFormed(q)
  }

  /** The statics modified in the first n blocks. */
  function ModifiedBefore(c: Context, statics: set<nat>, blocks: seq<seq<Quad>>, n: nat): set<nat>
    requires n <= |blocks| && AllWellFormed(c, blocks)
  {
    if n == 0 then {} else ModifiedBefore(c, statics, blocks, n - 1) + ModifiedBy(c, statics, blocks[n - 1])
  }

  /** UEVar of block b; the last block is the exit. */
  function SummaryOf(c: Context, statics: set<nat>, blocks: seq<seq<Quad>>, b: nat): set<nat>
    requires b < |blocks| && AllWellFormed(c, blocks)
  {
    var before := ModifiedBefore(c, statics, blocks, b);
    Gathered(c, statics, blocks[b], before) + (if b == |blocks| - 1 then before else {})
  }

  function KilledIn(c: Context, blocks: seq<seq<Quad>>, b: nat): set<nat>
    requires b < |blocks| && AllWellFormed(c, blocks)
  {
    c.Killed(blocks[b])
  }

  /** The first part of `dflow_LiveOut`: the summaries of all blocks, the exit block last. */
  method GatherInfo(c: Context, statics: set<nat>, blocks: seq<seq<Quad>>)
    returns (ueVar: seq<set<nat>>, varKill: seq<set<nat>>, modified: set<nat>)
    requires AllWellFormed(c, blocks)
    ensures |ueVar| == |varKill| == |blocks|
    ensures forall b :: 0 <= b < |blocks| ==> ueVar[b] == SummaryOf(c, statics, blocks, b)
    ensures forall b :: 0 <= b < |blocks| ==> varKill[b] == KilledIn(c, blocks, b)
    ensures modified == ModifiedBefore(c, statics, blocks, |blocks|)
  {
    hide Gathered, ModifiedBy, Context.Killed, Context.WellFormed;
    ueVar, varKill, modified := [], [], {};
    for i := 0 to |blocks|
      invariant |ueVar| == |varKill| == i && modified == ModifiedBefore(c, statics, blocks, i)
      invariant forall b :: 0 <= b < i ==> ueVar[b] == SummaryOf(c, statics, blocks, b)
      invariant forall b :: 0 <= b < i ==> varKill[b] == KilledIn(c, blocks, b)
    {
      var u, k;
      u, k, modified := LiveInitBlock(c, statics, blocks[i], i == |blocks| - 1, modified);
      assert u == SummaryOf(c, statics, blocks, i) && k == KilledIn(c, blocks, i);
      ueVar, varKill := ueVar + [u], varKill + [k];
    }
  }

  /** What a call may read of the statics modified only further on in the code, and not killed before the call. */
  function Late(c: Context, statics: set<nat>, quads: seq<Quad>, modified: set<nat>, final: set<nat>): set<nat>
    requires forall q :: q in quads ==> c.WellFormed(q)
  {
    if quads == [] then {}
    else
      var k := |quads| - 1;
      Late(c, statics, quads[..k], modified, final)
      + (if ShapeOf(quads[k].op).Call? || ShapeOf(quads[k].op).IndCall?
         then final - modified - ModifiedBy(c, statics, quads[..k]) - c.Killed(quads[..k]) else {})
  }

  /** The set of modified statics matters only to what calls read. */
  lemma WithSame(c: Context, q: Quad, modified: set<nat>, final: set<nat>)
    requires c.WellFormed(q) && modified <= final
    ensures c.With(final).WellFormed(q) && c.With(final).Uses(q) == c.Uses(q) && c.With(final).Defs(q) == c.Defs(q)
    ensures c.With(final).Implicit(q) ==
            c.With(modified).Implicit(q)
            + (if ShapeOf(q.op).Call? || ShapeOf(q.op).IndCall? then final - modified else {})
  {
  }

  /** The forward pass misses exactly those, of what is exposed with all modified statics known. */
  lemma {:induction false} GatheredMisses(c: Context, statics: set<nat>, quads: seq<Quad>, modified: set<nat>,
      final: set<nat>)
    requires forall q :: q in quads ==> c.WellFormed(q)
    requires modified + ModifiedBy(c, statics, quads) <= final
    ensures forall q :: q in quads ==> c.With(final).WellFormed(q)
    ensures c.With(final).Exposed(quads)
         == Gathered(c, statics, quads, modified) + Late(c, statics, quads, modified, final)
    ensures c.With(final).Killed(quads) == c.Killed(quads)
    decreases |quads|
  {
    hide Context.With, Context.Uses, Context.Defs, Context.Implicit, Context.WellFormed, Modified;
    forall q | q in quads ensures c.With(final).WellFormed(q) { WithSame(c, q, {}, final); }
    if quads != [] {
      var k := |quads| - 1;
      GatheredMisses(c, statics, quads[..k], modified, final);
      WithSame(c, quads[k], modified + ModifiedBy(c, statics, quads[..k]), final);
    }
  }

  /** A block's summary is complete exactly if what its calls may read of statics modified only later is exposed
      anyway. */
  lemma GatheredExactly(c: Context, statics: set<nat>, quads: seq<Quad>, modified: set<nat>, final: set<nat>)
    requires forall q :: q in quads ==> c.WellFormed(q)
    requires modified + ModifiedBy(c, statics, quads) <= final
    ensures forall q :: q in quads ==> c.With(final).WellFormed(q)
    ensures Gathered(c, statics, quads, modified) == c.With(final).Exposed(quads) <==>
            Late(c, statics, quads, modified, final) <= Gathered(c, statics, quads, modified)
  {
    GatheredMisses(c, statics, quads, modified, final);
  }

  lemma ScanBackSplit(c: Context, quads: seq<Quad>, q: Quad, live: set<nat>)
    requires forall x :: x in quads + [q] ==> c.WellFormed(x)
    ensures forall x :: x in quads ==> c.WellFormed(x)
    ensures c.WellFormed(q)
    ensures c.ScanBack(quads + [q], live) == c.ScanBack(quads, c.LiveBefore(q, live))
    decreases |quads|
  {
    forall x | x in quads ensures c.WellFormed(x) { assert x in quads + [q]; }
    assert q in quads + [q];
    if quads == [] {
      assert quads + [q] == [q];
      assert [q][1..] == [];
    } else {
      assert (quads + [q])[1..] == quads[1..] + [q];
      ScanBackSplit(c, quads[1..], q, live);
    }
  }

  /** The forward summary and the backward scan agree on every block. */
  lemma {:induction false} SummaryMatchesScan(c: Context, quads: seq<Quad>, live: set<nat>)
    requires forall q :: q in quads ==> c.WellFormed(q)
    ensures c.ScanBack(quads, live) == c.Exposed(quads) + (live - c.Killed(quads))
    decreases |quads|
  {
    if quads != [] {
      var k := |quads| - 1;
      assert quads == quads[..k] + [quads[k]];
      ScanBackSplit(c, quads[..k], quads[k], live);
      SummaryMatchesScan(c, quads[..k], c.LiveBefore(quads[k], live));
    }
  }

  /** Every name with a next use is live, at every point of a block. */
  lemma {:induction false} NextUseIsLive(c: Context, quads: seq<Quad>, live: set<nat>)
    requires forall q :: q in quads ==> c.WellFormed(q)
    ensures c.NextScan(quads) <= c.ScanBack(quads, live)
    decreases |quads|
  {
    if quads != [] {
      NextUseIsLive(c, quads[1..], live);
    }
  }

  // ------------------------------------------------------------------
  // Annotation of the quads
  // ------------------------------------------------------------------

  /** The six bits kept per quad. */
  datatype Flags = Flags(tarLive: bool, ar1Live: bool, ar2Live: bool, tarNext: bool, ar1Next: bool, ar2Next: bool)

  const NO_FLAGS := Flags(false, false, false, false, false, false)

  /** The bits of a quad, from the sets that hold just after it. A second operand equal to
      the first always finds itself in both sets. */
  function FlagsOf(c: Context, q: Quad, live: set<nat>, next: set<nat>): Flags
    requires c.WellFormed(q)
  {
    var defs, one, two := c.Defs(q), c.Uses1(q), c.Uses2(q);
    Flags(defs != {} && defs <= live,
          one != {} && one <= live - defs,
          two != {} && two <= live - defs + one,
          defs != {} && defs <= next,
          one != {} && one <= next - defs,
          two != {} && two <= next - defs + one)
  }

  /** The operand table and the flags array of the backward scan. */
  class OperandTable {
    const c: Context
    const flags: array<Flags>
    var live: set<nat>
    var next: set<nat>

    constructor (c: Context, flags: array<Flags>)
      ensures this.c == c && this.flags == flags
    {
      this.c, this.flags := c, flags;
      live, next := {}, {};
    }

    method UpdateTar(i: nat, tar: nat)
      requires i < flags.Length && c.Names(tar)
      modifies this, flags
      ensures live == old(live) - {c.Nid(tar)} && next == old(next) - {c.Nid(tar)}
      ensures flags[i] == old(flags[i]).(tarLive := old(flags[i].tarLive) || c.Nid(tar) in old(live),
                                         tarNext := old(flags[i].tarNext) || c.Nid(tar) in old(next))
      ensures forall k :: 0 <= k < flags.Length && k != i ==> flags[k] == old(flags[k])
    {
      var nid := c.Nid(tar);
      if nid in live {
        flags[i] := flags[i].(tarLive := true);
        live := live - {nid};
      }
      if nid in next {
        flags[i] := flags[i].(tarNext := true);
        next := next - {nid};
      }
    }

    /** Does nothing for a constant operand. */
    method UpdateArg1(i: nat, arg: nat)
      requires i < flags.Length && arg < |c.addresses|
      modifies this, flags
      ensures live == old(live) + c.Operand(arg) && next == old(next) + c.Operand(arg)
      ensures flags[i] == old(flags[i]).(
                            ar1Live := old(flags[i].ar1Live) || (c.Names(arg) && c.Nid(arg) in old(live)),
                            ar1Next := old(flags[i].ar1Next) || (c.Names(arg) && c.Nid(arg) in old(next)))
      ensures forall k :: 0 <= k < flags.Length && k != i ==> flags[k] == old(flags[k])
    {
      if c.addresses[arg].IsConst() {
        return;
      }
      var nid := c.Nid(arg);
      if nid in live {
        flags[i] := flags[i].(ar1Live := true);
      } else {
        live := live + {nid};
      }
      if nid in next {
        flags[i] := flags[i].(ar1Next := true);
      } else {
        next := next + {nid};
      }
    }

    /** Does nothing for a constant operand. */
    method UpdateArg2(i: nat, arg: nat)
      requires i < flags.Length && arg < |c.addresses|
      modifies this, flags
      ensures live == old(live) + c.Operand(arg) && next == old(next) + c.Operand(arg)
      ensures flags[i] == old(flags[i]).(
                            ar2Live := old(flags[i].ar2Live) || (c.Names(arg) && c.Nid(arg) in old(live)),
                            ar2Next := old(flags[i].ar2Next) || (c.Names(arg) && c.Nid(arg) in old(next)))
      ensures forall k :: 0 <= k < flags.Length && k != i ==> flags[k] == old(flags[k])
    {
      if c.addresses[arg].IsConst() {
        return;
      }
      var nid := c.Nid(arg);
      if nid in live {
        flags[i] := flags[i].(ar2Live := true);
      } else {
        live := live + {nid};
      }
      if nid in next {
        flags[i] := flags[i].(ar2Next := true);
      } else {
        next := next + {nid};
      }
    }

    method ScanBinary(i: nat, q: Quad)
      requires i < flags.Length && c.WellFormed(q) && ShapeOf(q.op).Binary? && flags[i] == NO_FLAGS
      modifies this, flags
      ensures live == c.LiveBefore(q, old(live)) && next == c.NextBefore(q, old(next))
      ensures flags[i] == FlagsOf(c, q, old(live), old(next))
      ensures forall k :: 0 <= k < flags.Length && k != i ==> flags[k] == old(flags[k])
    {
      UpdateTar(i, q.tar);
      UpdateArg1(i, q.arg1);
      UpdateArg2(i, q.arg2);
    }

    method ScanCall(i: nat, q: Quad)
      requires i < flags.Length && c.WellFormed(q) && (q.op.OpCall? || q.op.OpIndCall?) && flags[i] == NO_FLAGS
      modifies this, flags
      ensures live == c.LiveBefore(q, old(live)) && next == c.NextBefore(q, old(next))
      ensures flags[i] == FlagsOf(c, q, old(live), old(next))
      ensures forall k :: 0 <= k < flags.Length && k != i ==> flags[k] == old(flags[k])
    {
      if q.tar != 0 {
        UpdateTar(i, q.tar);
      }
      if q.op.OpIndCall? {
        UpdateArg1(i, q.arg1);
      }
      live := live + c.modifiedStatics;
      live := live + c.addressTaken;
    }

    /** The body of the backward scan for quad i. */
    method ScanQuad(i: nat, q: Quad)
      requires i < flags.Length && c.WellFormed(q) && flags[i] == NO_FLAGS
      modifies this, flags
      ensures live == c.LiveBefore(q, old(live)) && next == c.NextBefore(q, old(next))
      ensures flags[i] == FlagsOf(c, q, old(live), old(next))
      ensures forall k :: 0 <= k < flags.Length && k != i ==> flags[k] == old(flags[k])
    {
      match ShapeOf(q.op)
      case Binary =>
        ScanBinary(i, q);
      case Unary =>
        UpdateTar(i, q.tar);
        UpdateArg1(i, q.arg1);
      case Sink =>
        UpdateArg1(i, q.arg1);
      case AddrOf =>
        UpdateTar(i, q.tar);
      case Ind =>
        UpdateTar(i, q.tar);
        UpdateArg1(i, q.arg1);
        live := live + c.addressTaken;
      case IndAsn =>
        UpdateArg1(i, q.arg1);
        UpdateArg2(i, q.arg2);
      case Call | IndCall =>
        ScanCall(i, q);
      case Other =>
    }

    /** Annotates one block; afterwards the table holds the sets at the block's start. */
    method AnnotateBlock(quads: seq<Quad>, liveOut: set<nat>)
      requires flags.Length == |quads| && forall i :: 0 <= i < flags.Length ==> flags[i] == NO_FLAGS
      requires forall q :: q in quads ==> c.WellFormed(q)
      modifies this, flags
      ensures forall i :: 0 <= i < |quads| ==>
                flags[i] == FlagsOf(c, quads[i], c.ScanBack(quads[i + 1..], liveOut), c.NextScan(quads[i + 1..]))
      ensures live == c.Exposed(quads) + (liveOut - c.Killed(quads))
      ensures next <= live
    {
      hide FlagsOf, Context.LiveBefore, Context.NextBefore, Context.WellFormed;
      next := {};
      live := liveOut;
      var i := |quads|;
      while i > 0
        invariant 0 <= i <= |quads|
        invariant live == c.ScanBack(quads[i..], liveOut) && next == c.NextScan(quads[i..])
        invariant forall k :: 0 <= k < i ==> flags[k] == NO_FLAGS
        invariant forall k :: i <= k < |quads| ==>
                    flags[k] == FlagsOf(c, quads[k], c.ScanBack(quads[k + 1..], liveOut), c.NextScan(quads[k + 1..]))
      {
        i := i - 1;
        assert quads[i..][1..] == quads[i + 1..] && quads[i..][0] == quads[i];
        ScanQuad(i, quads[i]);
      }
      assert quads[0..] == quads;
      SummaryMatchesScan(c, quads, liveOut);
      NextUseIsLive(c, quads, liveOut);
    }
  }

  // ------------------------------------------------------------------
  // LiveOut
  // ------------------------------------------------------------------

  /** A function's flow graph: the successors, the block summaries and the post-order. */
  datatype Graph = Graph(succ: seq<seq<nat>>, ueVar: seq<set<nat>>, varKill: seq<set<nat>>, po: seq<nat>)
  {
    ghost predicate WellFormed() {
      && |ueVar| == |varKill| == |po| == |succ|
      && (forall b, k :: 0 <= b < |succ| && 0 <= k < |succ[b]| ==> succ[b][k] < |succ|)
      && (forall i :: 0 <= i < |po| ==> po[i] < |succ|)
      && (forall b :: 0 <= b < |succ| ==> b in po)
    }

    /** A non-empty path: every step is an edge. */
    ghost predicate IsPath(p: seq<nat>) {
      && |p| >= 2
      && (forall i :: 0 <= i < |p| ==> p[i] < |succ|)
      && (forall i :: 0 <= i < |p| - 1 ==> p[i + 1] in succ[p[i]])
    }

    /** p leads from b to a block that reads x first, past no block that redefines it. */
    ghost predicate Reveals(p: seq<nat>, b: nat, x: nat)
      requires WellFormed()
    {
      && IsPath(p)
      && p[0] == b
      && x in ueVar[p[|p| - 1]]
      && (forall i :: 0 < i < |p| - 1 ==> x !in varKill[p[i]])
    }

    ghost predicate LiveOnExit(b: nat, x: nat)
      requires WellFormed()
    {
      exists p :: Reveals(p, b, x)
    }

    /** The contribution of successor m. */
    function Flow(m: nat, out: set<nat>): set<nat>
      requires m < |ueVar| && m < |varKill|
    {
      out - varKill[m] + ueVar[m]
    }

    /** Right-hand side of the data-flow equation for b, over its first k successors. */
    function Joined(b: nat, k: nat, out: seq<set<nat>>): set<nat>
      requires b < |succ| && k <= |succ[b]| && |out| == |succ| == |ueVar| == |varKill|
      requires forall j :: 0 <= j < |succ[b]| ==> succ[b][j] < |succ|
    {
      if k == 0 then {} else Joined(b, k - 1, out) + Flow(succ[b][k - 1], out[succ[b][k - 1]])
    }

    ghost predicate Solves(out: seq<set<nat>>)
      requires WellFormed()
    {
      && |out| == |succ|
      && forall b :: 0 <= b < |succ| ==> out[b] == Joined(b, |succ[b]|, out)
    }
  }

  lemma JoinedMembers(g: Graph, b: nat, k: nat, out: seq<set<nat>>, x: nat)
    requires g.WellFormed() && b < |g.succ| && k <= |g.succ[b]| && |out| == |g.succ|
    ensures x in g.Joined(b, k, out) <==>
            exists j :: 0 <= j < k && x in g.Flow(g.succ[b][j], out[g.succ[b][j]])
  {
  }

  lemma JoinedMonotone(g: Graph, b: nat, k: nat, small: seq<set<nat>>, big: seq<set<nat>>)
    requires g.WellFormed() && b < |g.succ| && k <= |g.succ[b]| && |small| == |big| == |g.succ|
    requires forall i :: 0 <= i < |small| ==> small[i] <= big[i]
    ensures g.Joined(b, k, small) <= g.Joined(b, k, big)
  {
  }

  /** A fixed point contains everything the path definition asks for. */
  lemma {:induction false} SolutionCoversPaths(g: Graph, out: seq<set<nat>>, p: seq<nat>, b: nat, x: nat)
    requires g.WellFormed() && g.Solves(out) && g.Reveals(p, b, x)
    ensures x in out[b]
    decreases |p|
  {
    var m := p[1];
    assert p[0 + 1] in g.succ[p[0]];
    var j :| 0 <= j < |g.succ[b]| && g.succ[b][j] == m;
    if |p| > 2 {
      var tail := p[1..];
      assert g.IsPath(tail) by {
        forall i | 0 <= i < |tail| - 1 ensures tail[i + 1] in g.succ[tail[i]] {
          assert p[(i + 1) + 1] in g.succ[p[i + 1]];
        }
      }
      assert forall i :: 0 < i < |tail| - 1 ==> tail[i] == p[i + 1];
      SolutionCoversPaths(g, out, tail, m, x);
      assert x !in g.varKill[p[1]];
    }
    assert x in g.Flow(m, out[m]);
    JoinedMembers(g, b, |g.succ[b]|, out, x);
  }

  /** Whatever one equation adds is still live by the path definition. */
  lemma JoinedIsLive(g: Graph, b: nat, out: seq<set<nat>>, x: nat)
    requires g.WellFormed() && b < |g.succ| && |out| == |g.succ|
    requires forall i, y :: 0 <= i < |out| && y in out[i] ==> g.LiveOnExit(i, y)
    requires x in g.Joined(b, |g.succ[b]|, out)
    ensures g.LiveOnExit(b, x)
  {
    JoinedMembers(g, b, |g.succ[b]|, out, x);
    var j :| 0 <= j < |g.succ[b]| && x in g.Flow(g.succ[b][j], out[g.succ[b][j]]);
    var m := g.succ[b][j];
    if x in g.ueVar[m] {
      assert g.Reveals([b, m], b, x);
    } else {
      assert g.LiveOnExit(m, x);
      var p :| g.Reveals(p, m, x);
      var q := [b] + p;
      assert g.IsPath(q) by {
        forall i | 0 <= i < |q| - 1 ensures q[i + 1] in g.succ[q[i]] {
          if i > 0 {
            assert p[(i - 1) + 1] in g.succ[p[i - 1]];
          }
        }
      }
      assert forall i :: 0 < i < |q| - 1 ==> x !in g.varKill[q[i]];
      assert g.Reveals(q, b, x);
    }
  }

  ghost function AllExposed(g: Graph): set<nat> {
    set b, x | 0 <= b < |g.ueVar| && x in g.ueVar[b] :: x
  }

  /** What is still missing from the sets; it shrinks whenever a set grows. */
  ghost function Missing(g: Graph, out: seq<set<nat>>): set<(nat, nat)> {
    set b: nat, x | 0 <= b < |out| && x in AllExposed(g) && x !in out[b] :: (b, x)
  }

  lemma JoinedBounded(g: Graph, b: nat, k: nat, out: seq<set<nat>>)
    requires g.WellFormed() && b < |g.succ| && k <= |g.succ[b]| && |out| == |g.succ|
    requires forall i :: 0 <= i < |out| ==> out[i] <= AllExposed(g)
    ensures g.Joined(b, k, out) <= AllExposed(g)
  {
  }

  /** Between two updates: the sets only grow, stay live by the path definition, and
      never hold more than their equation allows. */
  ghost predicate Sound(g: Graph, out: seq<set<nat>>)
    requires g.WellFormed()
  {
    && |out| == |g.succ|
    && (forall b :: 0 <= b < |out| ==> out[b] <= AllExposed(g))
    && (forall b, x :: 0 <= b < |out| && x in out[b] ==> g.LiveOnExit(b, x))
    && (forall b :: 0 <= b < |out| ==> out[b] <= g.Joined(b, |g.succ[b]|, out))
  }

  lemma UpdateStaysSound(g: Graph, out: seq<set<nat>>, b: nat)
    requires g.WellFormed() && Sound(g, out) && b < |out|
    ensures Sound(g, out[b := g.Joined(b, |g.succ[b]|, out)])
    ensures out[b] != g.Joined(b, |g.succ[b]|, out) ==>
              Missing(g, out[b := g.Joined(b, |g.succ[b]|, out)]) < Missing(g, out)
  {
    var new_ := g.Joined(b, |g.succ[b]|, out);
    var out' := out[b := new_];
    JoinedBounded(g, b, |g.succ[b]|, out);
    forall x | x in new_ ensures g.LiveOnExit(b, x) { JoinedIsLive(g, b, out, x); }
    forall i | 0 <= i < |out'| ensures out'[i] <= g.Joined(i, |g.succ[i]|, out') {
      JoinedMonotone(g, i, |g.succ[i]|, out, out');
    }
    if out[b] != new_ {
      var x :| x in new_ && x !in out[b];
      assert (b, x) in Missing(g, out) && (b, x) !in Missing(g, out');
    }
  }

  /** A sound solution is exactly the path definition: the least fixed point. */
  lemma SoundSolutionIsExact(g: Graph, out: seq<set<nat>>)
    requires g.WellFormed() && Sound(g, out) && g.Solves(out)
    ensures forall b, x :: 0 <= b < |g.succ| ==> (x in out[b] <==> g.LiveOnExit(b, x))
  {
    forall b, x | 0 <= b < |g.succ| && g.LiveOnExit(b, x) ensures x in out[b] {
      var p :| g.Reveals(p, b, x);
      SolutionCoversPaths(g, out, p, b, x);
    }
  }

  /** Evaluates the equation of block b. */
  method NewOut(g: Graph, b: nat, liveOut: array<set<nat>>) returns (newOut: set<nat>)
    requires g.WellFormed() && b < |g.succ| && liveOut.Length == |g.succ|
    ensures newOut == g.Joined(b, |g.succ[b]|, liveOut[..])
  {
    newOut := {};
    for k := 0 to |g.succ[b]|
      invariant newOut == g.Joined(b, k, liveOut[..])
    {
      var m := g.succ[b][k];
      var tmp := liveOut[m];
      tmp := tmp - g.varKill[m];
      tmp := tmp + g.ueVar[m];
      newOut := newOut + tmp;
    }
  }

  /** Re-evaluates one block's set in place. */
  method Relax(g: Graph, b: nat, liveOut: array<set<nat>>) returns (changed: bool)
    requires g.WellFormed() && Sound(g, liveOut[..]) && b < liveOut.Length
    modifies liveOut
    ensures Sound(g, liveOut[..])
    ensures liveOut[..] == old(liveOut[..])[b := g.Joined(b, |g.succ[b]|, old(liveOut[..]))]
    ensures changed <==> liveOut[..] != old(liveOut[..])
    ensures changed ==> Missing(g, liveOut[..]) < old(Missing(g, liveOut[..]))
  {
    var newOut := NewOut(g, b, liveOut);
    ghost var was := liveOut[..];
    UpdateStaysSound(g, was, b);
    changed := false;
    if liveOut[b] != newOut {
      liveOut[b] := newOut;
      changed := true;
    }
    assert liveOut[..] == was[b := newOut];
  }

  ghost predicate SolvedAt(g: Graph, b: nat, out: seq<set<nat>>)
    requires g.WellFormed()
  {
    |out| == |g.succ| && b < |out| && out[b] == g.Joined(b, |g.succ[b]|, out)
  }

  /** One pass over the blocks in post-order. */
  method Sweep(g: Graph, liveOut: array<set<nat>>) returns (changed: bool)
    requires g.WellFormed() && liveOut.Length == |g.succ| && Sound(g, liveOut[..])
    modifies liveOut
    ensures Sound(g, liveOut[..])
    ensures changed ==> Missing(g, liveOut[..]) < old(Missing(g, liveOut[..]))
    ensures !changed ==> liveOut[..] == old(liveOut[..]) && g.Solves(liveOut[..])
  {
    hide Sound, Missing;
    changed := false;
    ghost var start := liveOut[..];
    for i := 0 to |g.po|
      invariant Sound(g, liveOut[..])
      invariant changed ==> Missing(g, liveOut[..]) < Missing(g, start)
      invariant !changed ==> liveOut[..] == start
      invariant !changed ==> forall k :: 0 <= k < i ==> SolvedAt(g, g.po[k], start)
    {
      var c := Relax(g, g.po[i], liveOut);
      if c {
        changed := true;
      }
    }
    if !changed {
      forall b | 0 <= b < |start| ensures start[b] == g.Joined(b, |g.succ[b]|, start) {
        assert b in g.po;
        assert SolvedAt(g, b, start);
      }
    }
  }

  /** The iterative solver: terminates with LiveOut exactly as the path definition says. */
  method LiveOut(g: Graph) returns (liveOut: array<set<nat>>)
    requires g.WellFormed()
    ensures liveOut.Length == |g.succ|
    ensures g.Solves(liveOut[..])
    ensures forall b, x :: 0 <= b < |g.succ| ==> (x in liveOut[b] <==> g.LiveOnExit(b, x))
  {
    liveOut := new set<nat>[|g.succ|](_ => {});
    var changed := true;
    while changed
      invariant Sound(g, liveOut[..])
      invariant !changed ==> g.Solves(liveOut[..])
      decreases Missing(g, liveOut[..]), changed
    {
      changed := Sweep(g, liveOut);
    }
    SoundSolutionIsExact(g, liveOut[..]);
    assert forall b :: 0 <= b < liveOut.Length ==> liveOut[..][b] == liveOut[b];
  }

  // ------------------------------------------------------------------
  // A store that is lost
  // ------------------------------------------------------------------

  /** A loop that calls a function before the static object s is first assigned, and leaves through a block that assigns
      it again. */
  const CALL_FIRST: seq<seq<Quad>> := [[Quad(OpCall, false, 0, 0, 0)], [Quad(OpAsn, false, 1, 0, 0)],
                                       [Quad(OpAsn, false, 1, 0, 0)], []]
  const CALL_SUCC: seq<seq<nat>> := [[1], [0, 2], [3], []]
  const CALL_CONTEXT := Context([IConst(0), Id(0)], {}, {})

  /** The exit block reads all modified statics. */
  function AtExit(b: nat): set<nat> { if b == 3 then {0} else {} }

  /** Name 0 is assigned in block 1, and the next round's call may read it; but the summary of the call's block does not
      have it, and the analysis takes it for dead at the end of block 1. */
  lemma StaticTakenForDead(g: Graph, full: Graph)
    requires g == Graph(CALL_SUCC, [{}, {}, {}, {0}], [{}, {0}, {0}, {}], [3, 2, 1, 0])
    requires full == g.(ueVar := [{0}, {}, {}, {0}])
    ensures AllWellFormed(CALL_CONTEXT, CALL_FIRST)
    ensures forall b :: 0 <= b < 4 ==>
              && g.varKill[b] == KilledIn(CALL_CONTEXT, CALL_FIRST, b)
              && g.ueVar[b] == SummaryOf(CALL_CONTEXT, {0}, CALL_FIRST, b)
              && full.ueVar[b] == CALL_CONTEXT.With({0}).Exposed(CALL_FIRST[b]) + AtExit(b)
    ensures g.WellFormed() && full.WellFormed() && full.LiveOnExit(1, 0) && !g.LiveOnExit(1, 0)
  {
    CallFirstSummaries();
    hide ModifiedBefore, Gathered, Context.Exposed, Context.Killed, Context.With, Context.WellFormed;
    NotRevealed(g, full);
  }

  lemma NotRevealed(g: Graph, full: Graph)
    requires g == Graph(CALL_SUCC, [{}, {}, {}, {0}], [{}, {0}, {0}, {}], [3, 2, 1, 0])
    requires full == g.(ueVar := [{0}, {}, {}, {0}])
    ensures g.WellFormed() && full.WellFormed() && full.LiveOnExit(1, 0) && !g.LiveOnExit(1, 0)
  {
    CallFirstGraphs(g, full);
    hide Graph.WellFormed, Graph.Reveals;
    forall p ensures !g.Reveals(p, 1, 0) { ThroughBlock2(g, p); }
  }

  lemma CallFirstGraphs(g: Graph, full: Graph)
    requires g == Graph(CALL_SUCC, [{}, {}, {}, {0}], [{}, {0}, {0}, {}], [3, 2, 1, 0])
    requires full == g.(ueVar := [{0}, {}, {}, {0}])
    ensures g.WellFormed() && full.WellFormed() && full.Reveals([1, 0], 1, 0)
  {
    assert g.po[0] == 3 && g.po[1] == 2 && g.po[2] == 1 && g.po[3] == 0;
  }

  /** The exit block is reached through block 2 only. */
  lemma ThroughBlock2(g: Graph, p: seq<nat>)
    requires g == Graph(CALL_SUCC, [{}, {}, {}, {0}], [{}, {0}, {0}, {}], [3, 2, 1, 0]) && g.WellFormed()
    ensures g.IsPath(p) && p[|p| - 1] == 3 ==> p[|p| - 2] == 2
    ensures !g.Reveals(p, 1, 0)
  {
    if g.IsPath(p) {
      var k := |p| - 2;
      assert p[k + 1] in g.succ[p[k]];
    }
  }

  lemma CallFirstSummaries()
    ensures AllWellFormed(CALL_CONTEXT, CALL_FIRST)
    ensures forall b :: 0 <= b < 4 ==>
              var before := ModifiedBefore(CALL_CONTEXT, {0}, CALL_FIRST, b);
              && CALL_CONTEXT.Killed(CALL_FIRST[b]) == (if b == 1 || b == 2 then {0} else {})
              && Gathered(CALL_CONTEXT, {0}, CALL_FIRST[b], before) == {}
              && CALL_CONTEXT.With({0}).Exposed(CALL_FIRST[b]) == (if b == 0 then {0} else {})
              && (b == 3 ==> before == {0})
  {
    OneQuad(CALL_FIRST[0][0], {});
    OneQuad(CALL_FIRST[1][0], {});
    OneQuad(CALL_FIRST[2][0], {0});
    assert ModifiedBefore(CALL_CONTEXT, {0}, CALL_FIRST, 0) == {};
    assert ModifiedBefore(CALL_CONTEXT, {0}, CALL_FIRST, 1) == {};
    assert ModifiedBefore(CALL_CONTEXT, {0}, CALL_FIRST, 2) == {0};
    assert ModifiedBefore(CALL_CONTEXT, {0}, CALL_FIRST, 3) == {0};
  }

  /** The summaries of a block of one quad. */
  lemma OneQuad(q: Quad, modified: set<nat>)
    requires CALL_CONTEXT.WellFormed(q)
    ensures CALL_CONTEXT.Killed([q]) == CALL_CONTEXT.Defs(q)
    ensures ModifiedBy(CALL_CONTEXT, {0}, [q]) == Modified(CALL_CONTEXT, {0}, q)
    ensures Gathered(CALL_CONTEXT, {0}, [q], modified) ==
            CALL_CONTEXT.Uses(q) + CALL_CONTEXT.With(modified).Implicit(q)
    ensures CALL_CONTEXT.With({0}).Exposed([q]) == CALL_CONTEXT.Uses(q) + CALL_CONTEXT.With({0}).Implicit(q)
  {
    assert [q][..0] == [];
  }
}
