/** What the sets of the liveness analysis are for: quads executed over a valuation of the names, and why the live
    names, and no others, decide what they do. */
module Liveness {
  import opened Ic
  import opened Dflow

  type Valuation = nat -> int

  /** The values of the names, and everything else the program can reach. */
  datatype State = State(vals: Valuation, world: int)

  /** What operators, memory and other functions do is a parameter. A call may read the address-taken variables and the
      statics this function modifies, and may change any name. */
  datatype Sense = Sense(
    binary: (OpKind, bool, int, int) -> int,
    unary: (OpKind, bool, int) -> int,
    literal: string -> int,
    address: nat -> int,
    loaded: (int, map<nat, int>, int) -> int,
    pointsTo: (int, nat) -> bool,
    stored: (int, int, int) -> int,
    called: (int, map<nat, int>, int) -> (int, int),
    touched: (int, map<nat, int>, int, nat, int) -> int)

  /** What can be seen of a quad: the value it computes, what it delivers, and where it goes. */
  datatype Act =
    | Nothing
    | Computes(v: int)
    | Stores(p: int, v: int)
    | Passes(v: int)
    | Returns(v: int)
    | Dispatches(v: int)
    | Branches(taken: bool)
    | Goes(to: nat)
    | Calls(f: int, read: map<nat, int>, world: int)

  function Value(c: Context, m: Sense, a: nat, s: State): int {
    if a >= |c.addresses| then 0
    else
      match c.addresses[a]
      case IConst(v) => v
      case StrLit(str) => m.literal(str)
      case Id(n) => s.vals(n)
      case Temp(n) => s.vals(n)
  }

  function Set(c: Context, a: nat, v: int, s: State): State {
    if c.Names(a) then s.(vals := (n: nat) => if n == c.Nid(a) then v else s.vals(n)) else s
  }

  function ValuesOf(names: set<nat>, s: State): map<nat, int> { map n | n in names :: s.vals(n) }

  /** One quad: its act and the state after it. */
  function Execute(c: Context, m: Sense, q: Quad, s: State): (Act, State) {
    match q.op
    case OpAdd | OpSub | OpMul | OpDiv | OpRem | OpSHL | OpSHR | OpAnd | OpOr | OpXor
       | OpEQ | OpNEQ | OpLT | OpLET | OpGT | OpGET =>
      var v := m.binary(q.op, q.isUnsigned, Value(c, m, q.arg1, s), Value(c, m, q.arg2, s));
      (Computes(v), Set(c, q.tar, v, s))
    case OpNeg | OpCmpl | OpNot | OpCh | OpUCh | OpSh | OpUSh | OpLLSX | OpLLZX | OpAsn =>
      var v := m.unary(q.op, q.isUnsigned, Value(c, m, q.arg1, s));
      (Computes(v), Set(c, q.tar, v, s))
    case OpAddrOf =>
      (Computes(m.address(q.arg1)), Set(c, q.tar, m.address(q.arg1), s))
    case OpInd =>
      var v := m.loaded(Value(c, m, q.arg1, s), ValuesOf(c.addressTaken, s), s.world);
      (Computes(v), Set(c, q.tar, v, s))
    case OpIndAsn =>
      var p, v := Value(c, m, q.arg1, s), Value(c, m, q.arg2, s);
      (Stores(p, v),
       State((n: nat) => if n in c.addressTaken && m.pointsTo(p, n) then v else s.vals(n), m.stored(p, v, s.world)))
    case OpCall => Call(c, m, q, q.arg1, s)
    case OpIndCall => Call(c, m, q, Value(c, m, q.arg1, s), s)
    case OpArg => (Passes(Value(c, m, q.arg1, s)), s)
    case OpRet => (Returns(Value(c, m, q.arg1, s)), s)
    case OpSwitch => (Dispatches(Value(c, m, q.arg1, s)), s)
    case OpCBr => (Branches(Value(c, m, q.arg1, s) != 0), s)
    case OpJmp => (Goes(q.tar), s)
    case OpLab | OpCase | OpBegArg | OpNOp => (Nothing, s)
  }

  function Call(c: Context, m: Sense, q: Quad, f: int, s: State): (Act, State) {
    var read := ValuesOf(c.addressTaken + c.modifiedStatics, s);
    var (v, world) := m.called(f, read, s.world);
    var after := State((n: nat) => m.touched(f, read, s.world, n, s.vals(n)), world);
    (Calls(f, read, s.world), if q.tar != 0 then Set(c, q.tar, v, after) else after)
  }

  function Acts(c: Context, m: Sense, quads: seq<Quad>, s: State): seq<Act> {
    if quads == [] then []
    else
      var (a, s1) := Execute(c, m, quads[0], s);
      [a] + Acts(c, m, quads[1..], s1)
  }

  function Final(c: Context, m: Sense, quads: seq<Quad>, s: State): State {
    if quads == [] then s else Final(c, m, quads[1..], Execute(c, m, quads[0], s).1)
  }

  /** The states differ at most in names outside the set. */
  ghost predicate Agree(s: State, t: State, names: set<nat>) {
    s.world == t.world && forall n :: n in names ==> s.vals(n) == t.vals(n)
  }

  // ------------------------------------------------------------------
  // The live names suffice
  // ------------------------------------------------------------------

  lemma ValuesAgree(s: State, t: State, names: set<nat>, more: set<nat>)
    requires Agree(s, t, more) && names <= more
    ensures ValuesOf(names, s) == ValuesOf(names, t)
  {
  }

  lemma OperandAgrees(c: Context, m: Sense, a: nat, s: State, t: State, names: set<nat>)
    requires Agree(s, t, names) && (c.Names(a) ==> c.Nid(a) in names)
    ensures Value(c, m, a, s) == Value(c, m, a, t)
  {
  }

  lemma SetAgrees(c: Context, a: nat, v: int, s: State, t: State, names: set<nat>, live: set<nat>)
    requires c.Names(a) && Agree(s, t, names) && live - {c.Nid(a)} <= names
    ensures Agree(Set(c, a, v, s), Set(c, a, v, t), live)
  {
  }

  lemma CallAgrees(c: Context, m: Sense, q: Quad, f: int, live: set<nat>, s: State, t: State)
    requires c.WellFormed(q) && (q.op.OpCall? || q.op.OpIndCall?) && Agree(s, t, c.LiveBefore(q, live))
    ensures Call(c, m, q, f, s).0 == Call(c, m, q, f, t).0
    ensures Agree(Call(c, m, q, f, s).1, Call(c, m, q, f, t).1, live)
  {
    ValuesAgree(s, t, c.addressTaken + c.modifiedStatics, c.LiveBefore(q, live));
    hide ValuesOf;
  }

  lemma StoreAgrees(c: Context, m: Sense, q: Quad, live: set<nat>, s: State, t: State)
    requires c.WellFormed(q) && q.op.OpIndAsn? && Agree(s, t, c.LiveBefore(q, live))
    ensures Execute(c, m, q, s).0 == Execute(c, m, q, t).0
    ensures Agree(Execute(c, m, q, s).1, Execute(c, m, q, t).1, live)
  {
    OperandAgrees(c, m, q.arg1, s, t, c.LiveBefore(q, live));
    OperandAgrees(c, m, q.arg2, s, t, c.LiveBefore(q, live));
    hide Value;
  }

  /** States that agree on what is live before a quad see the same act and agree on what is live behind it. */
  lemma LiveSuffices(c: Context, m: Sense, q: Quad, live: set<nat>, s: State, t: State)
    requires c.WellFormed(q) && Agree(s, t, c.LiveBefore(q, live))
    ensures Execute(c, m, q, s).0 == Execute(c, m, q, t).0
    ensures Agree(Execute(c, m, q, s).1, Execute(c, m, q, t).1, live)
  {
    var names := c.LiveBefore(q, live);
    match ShapeOf(q.op)
    case Binary =>
      OperandAgrees(c, m, q.arg1, s, t, names);
      OperandAgrees(c, m, q.arg2, s, t, names);
      ComputedAgrees(c, m, q, live, s, t);
    case Unary =>
      OperandAgrees(c, m, q.arg1, s, t, names);
      ComputedAgrees(c, m, q, live, s, t);
    case AddrOf => ComputedAgrees(c, m, q, live, s, t);
    case Ind =>
      OperandAgrees(c, m, q.arg1, s, t, names);
      ValuesAgree(s, t, c.addressTaken, names);
      ComputedAgrees(c, m, q, live, s, t);
    case IndAsn => StoreAgrees(c, m, q, live, s, t);
    case Sink => OperandAgrees(c, m, q.arg1, s, t, names);
    case Call => CallAgrees(c, m, q, q.arg1, live, s, t);
    case IndCall =>
      OperandAgrees(c, m, q.arg1, s, t, names);
      CallAgrees(c, m, q, Value(c, m, q.arg1, s), live, s, t);
    case Other =>
  }

  lemma ComputedAgrees(c: Context, m: Sense, q: Quad, live: set<nat>, s: State, t: State)
    requires c.WellFormed(q) && Agree(s, t, c.LiveBefore(q, live))
    requires ShapeOf(q.op).Binary? || ShapeOf(q.op).Unary? || ShapeOf(q.op).AddrOf? || ShapeOf(q.op).Ind?
    requires ShapeOf(q.op).AddrOf? || Value(c, m, q.arg1, s) == Value(c, m, q.arg1, t)
    requires ShapeOf(q.op).Binary? ==> Value(c, m, q.arg2, s) == Value(c, m, q.arg2, t)
    requires ShapeOf(q.op).Ind? ==> ValuesOf(c.addressTaken, s) == ValuesOf(c.addressTaken, t)
    ensures Execute(c, m, q, s).0 == Execute(c, m, q, t).0
    ensures Agree(Execute(c, m, q, s).1, Execute(c, m, q, t).1, live)
  {
    hide Value, ValuesOf, Set;
    var a := Execute(c, m, q, s).0;
    assert a.Computes? && a == Execute(c, m, q, t).0;
    SetAgrees(c, q.tar, a.v, s, t, c.LiveBefore(q, live), live);
  }

  /** And so for a block: what the backward scan finds live decides all acts of the block, and the values live behind
      it. */
  lemma {:induction false} BlockLiveSuffices(c: Context, m: Sense, quads: seq<Quad>, live: set<nat>, s: State, t: State)
    requires forall q :: q in quads ==> c.WellFormed(q)
    requires Agree(s, t, c.ScanBack(quads, live))
    ensures Acts(c, m, quads, s) == Acts(c, m, quads, t)
    ensures Agree(Final(c, m, quads, s), Final(c, m, quads, t), live)
  {
    if quads != [] {
      LiveSuffices(c, m, quads[0], c.ScanBack(quads[1..], live), s, t);
      BlockLiveSuffices(c, m, quads[1..], live, Execute(c, m, quads[0], s).1, Execute(c, m, quads[0], t).1);
    }
  }

  /** A target whose bit says that it is dead may be given any value. */
  lemma DeadTargetUnseen(c: Context, m: Sense, q: Quad, rest: seq<Quad>, live: set<nat>, next: set<nat>, s: State,
      w: int)
    requires c.WellFormed(q) && (forall x :: x in rest ==> c.WellFormed(x)) && c.Defs(q) != {}
    requires !FlagsOf(c, q, c.ScanBack(rest, live), next).tarLive
    ensures var s1 := Execute(c, m, q, s).1;
            var s2 := Set(c, q.tar, w, s1);
            Acts(c, m, rest, s1) == Acts(c, m, rest, s2) && Agree(Final(c, m, rest, s1), Final(c, m, rest, s2), live)
  {
    var s1 := Execute(c, m, q, s).1;
    BlockLiveSuffices(c, m, rest, live, s1, Set(c, q.tar, w, s1));
  }

  // ------------------------------------------------------------------
  // Whole runs
  // ------------------------------------------------------------------

  /** The acts of the blocks along a path. */
  function PathActs(c: Context, m: Sense, blocks: seq<seq<Quad>>, path: seq<nat>, s: State): seq<seq<Act>>
    requires forall i :: 0 <= i < |path| ==> path[i] < |blocks|
  {
    if path == [] then []
    else [Acts(c, m, blocks[path[0]], s)] + PathActs(c, m, blocks, path[1..], Final(c, m, blocks[path[0]], s))
  }

  /** The graph's summaries are those of the blocks. */
  ghost predicate Summarizes(c: Context, g: Graph, blocks: seq<seq<Quad>>) {
    && g.WellFormed() && |blocks| == |g.succ| && AllWellFormed(c, blocks)
    && forall b :: 0 <= b < |blocks| ==> g.ueVar[b] == c.Exposed(blocks[b]) && g.varKill[b] == c.Killed(blocks[b])
  }

  ghost predicate Follows(g: Graph, b: nat, path: seq<nat>)
    requires g.WellFormed()
    decreases |path|
  {
    if path == [] then b < |g.succ| else b < |g.succ| && path[0] in g.succ[b] && Follows(g, path[0], path[1..])
  }

  lemma FollowsInside(g: Graph, b: nat, path: seq<nat>)
    requires g.WellFormed() && Follows(g, b, path)
    ensures b < |g.succ| && forall i :: 0 <= i < |path| ==> path[i] < |g.succ|
    decreases |path|
  {
    if path != [] {
      FollowsInside(g, path[0], path[1..]);
      assert forall i :: 1 <= i < |path| ==> path[i] == path[1..][i - 1];
    }
  }

  /** What is live before a successor is live at the end of the block. */
  lemma EdgeLive(c: Context, g: Graph, blocks: seq<seq<Quad>>, out: seq<set<nat>>, b: nat, n: nat)
    requires Summarizes(c, g, blocks) && g.Solves(out) && b < |g.succ| && n in g.succ[b]
    ensures n < |blocks| && (forall q :: q in blocks[n] ==> c.WellFormed(q))
    ensures c.ScanBack(blocks[n], out[n]) <= out[b]
  {
    SummaryMatchesScan(c, blocks[n], out[n]);
    var k :| 0 <= k < |g.succ[b]| && g.succ[b][k] == n;
    forall x | x in c.ScanBack(blocks[n], out[n]) ensures x in out[b] {
      assert x in g.Flow(g.succ[b][k], out[g.succ[b][k]]);
      JoinedMembers(g, b, |g.succ[b]|, out, x);
    }
  }

  /** States that agree on LiveOut at the end of a block go through whatever follows with the same acts: no other name
      can make a difference any more. */
  lemma {:induction false} LiveOutSuffices(c: Context, m: Sense, g: Graph, blocks: seq<seq<Quad>>, out: seq<set<nat>>,
      b: nat, path: seq<nat>, s: State, t: State)
    requires Summarizes(c, g, blocks) && g.Solves(out) && Follows(g, b, path) && Agree(s, t, out[b])
    ensures forall i :: 0 <= i < |path| ==> path[i] < |blocks|
    ensures PathActs(c, m, blocks, path, s) == PathActs(c, m, blocks, path, t)
    decreases |path|
  {
    FollowsInside(g, b, path);
    if path != [] {
      hide Execute, Context.WellFormed, Graph.Solves, Acts, Final, Context.Exposed, Context.Killed, Context.ScanBack;
      var n := path[0];
      EdgeLive(c, g, blocks, out, b, n);
      BlockLiveSuffices(c, m, blocks[n], out[n], s, t);
      LiveOutSuffices(c, m, g, blocks, out, n, path[1..], Final(c, m, blocks[n], s), Final(c, m, blocks[n], t));
    }
  }

  // ------------------------------------------------------------------
  // And no fewer names do
  // ------------------------------------------------------------------

  function Changed(s: State, n: nat, w: int): State { s.(vals := (k: nat) => if k == n then w else s.vals(k)) }

  /** Two runs of a quad can be told apart by its act, or by a name live behind it. */
  ghost predicate Differs(c: Context, m: Sense, q: Quad, live: set<nat>, s: State, t: State) {
    || Execute(c, m, q, s).0 != Execute(c, m, q, t).0
    || exists k :: k in live && Execute(c, m, q, s).1.vals(k) != Execute(c, m, q, t).1.vals(k)
  }

  /** Name n decides something about the quad: with some meaning of the operators, states that differ in n alone can be
      told apart. */
  ghost predicate Decides(c: Context, q: Quad, live: set<nat>, n: nat) {
    exists m: Sense, s: State, w: int :: Differs(c, m, q, live, s, Changed(s, n, w))
  }

  lemma OnlyLiveDecides(c: Context, m: Sense, q: Quad, live: set<nat>, s: State, n: nat, w: int)
    requires c.WellFormed(q) && Differs(c, m, q, live, s, Changed(s, n, w))
    ensures n in c.LiveBefore(q, live)
  {
    if n !in c.LiveBefore(q, live) {
      LiveSuffices(c, m, q, live, s, Changed(s, n, w));
    }
  }

  /** A meaning under which every operand shows: the first, if it is the name in question, else the second. */
  function Revealing(n: nat, first: bool): Sense {
    Sense((op, u, a, b) => if first then a else b, (op, u, a) => a, _ => 0, _ => 0,
          (p, vs, world) => if first then p else if n in vs then vs[n] else 0, (_, _) => false,
          (_, _, world) => world, (_, _, world) => (0, world), (_, _, _, _, v) => v)
  }

  lemma RevealedValues(c: Context, m: Sense, n: nat, a: nat)
    ensures var s, t := State(_ => 0, 0), Changed(State(_ => 0, 0), n, 1);
            c.Names(a) ==> Value(c, m, a, s) == 0 && Value(c, m, a, t) == if c.Nid(a) == n then 1 else 0
  {
  }

  lemma OperandDecides(c: Context, q: Quad, n: nat)
    requires c.WellFormed(q) && n in c.Uses(q)
    ensures var s := State(_ => 0, 0);
            Execute(c, Revealing(n, n in c.Uses1(q)), q, s).0 !=
            Execute(c, Revealing(n, n in c.Uses1(q)), q, Changed(s, n, 1)).0
  {
    var m := Revealing(n, n in c.Uses1(q));
    RevealedValues(c, m, n, q.arg1);
    RevealedValues(c, m, n, q.arg2);
    hide Value, ValuesOf, Set, Changed;
  }

  lemma ImplicitDecides(c: Context, q: Quad, n: nat)
    requires c.WellFormed(q) && n in c.Implicit(q) && n !in c.Uses1(q)
    ensures var s := State(_ => 0, 0);
            Execute(c, Revealing(n, false), q, s).0 != Execute(c, Revealing(n, false), q, Changed(s, n, 1)).0
  {
    var s := State(_ => 0, 0);
    var before, after := ValuesOf(c.Implicit(q), s), ValuesOf(c.Implicit(q), Changed(s, n, 1));
    assert n in before && before[n] == 0 && n in after && after[n] == 1;
    hide Value, Set, Changed, ValuesOf;
  }

  lemma SurvivorDecides(c: Context, q: Quad, n: nat, first: bool)
    requires c.WellFormed(q) && n !in c.Defs(q)
    ensures var s := State(_ => 0, 0);
            && Execute(c, Revealing(n, first), q, s).1.vals(n) == 0
            && Execute(c, Revealing(n, first), q, Changed(s, n, 1)).1.vals(n) == 1
  {
    hide Value, ValuesOf;
  }

  lemma EveryLiveDecides(c: Context, q: Quad, live: set<nat>, n: nat)
    requires c.WellFormed(q) && n in c.LiveBefore(q, live)
    ensures Decides(c, q, live, n)
  {
    var first := n in c.Uses1(q);
    var m, s := Revealing(n, first), State(_ => 0, 0);
    assert Differs(c, m, q, live, s, Changed(s, n, 1)) by {
      if n in c.Uses(q) {
        OperandDecides(c, q, n);
      } else if n in c.Implicit(q) {
        ImplicitDecides(c, q, n);
      } else {
        SurvivorDecides(c, q, n, first);
      }
      hide Execute, Revealing, Changed;
    }
  }

  /** The names live before a quad are exactly those that decide something. */
  lemma LiveExactly(c: Context, q: Quad, live: set<nat>, n: nat)
    requires c.WellFormed(q)
    ensures n in c.LiveBefore(q, live) <==> Decides(c, q, live, n)
  {
    hide Differs, Context.LiveBefore, Context.WellFormed;
    if Decides(c, q, live, n) {
      var m: Sense, s: State, w: int :| Differs(c, m, q, live, s, Changed(s, n, w));
      OnlyLiveDecides(c, m, q, live, s, n, w);
    }
    if n in c.LiveBefore(q, live) {
      EveryLiveDecides(c, q, live, n);
    }
  }
}
