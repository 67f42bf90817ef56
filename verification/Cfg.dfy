/** Basic blocks, the flow graph between them, and its depth-first numbering. */
module Cfg {
  import opened Lowering
  import Dflow

  // ------------------------------------------------------------------
  // Blocks
  // ------------------------------------------------------------------

  /** Where control can go at instruction i, other than to the next instruction. */
  function JumpTargets(code: seq<Instr>, i: nat): seq<nat>
    requires i < |code|
  {
    match code[i]
    case Jmp(l) => [Find(code, l)]
    case CBr(yes, _, no) => [Find(code, yes), Find(code, no)]
    case _ => []
  }

  /** Instruction i makes instruction k begin a block: k is a target, or stands behind a jump. */
  predicate Makes(code: seq<Instr>, i: nat, k: nat)
    requires i < |code|
  {
    k in JumpTargets(code, i) || (code[i].Jmp? && k == i + 1)
  }

  /** The instructions that begin a block, as far as the first n instructions tell. */
  ghost predicate LeaderBelow(code: seq<Instr>, n: nat, k: nat)
    requires n <= |code|
  {
    k <= 1 || exists i :: 0 <= i < n && Makes(code, i, k)
  }

  ghost predicate Leader(code: seq<Instr>, k: nat) { LeaderBelow(code, |code|, k) }

  /**
   * The form lowered functions have: the entry jump, labels that exist and are unique, no jump at the end, and behind
   * every conditional branch an instruction that begins a block.
   */
  ghost predicate Structured(code: seq<Instr>) {
    && |code| >= 2 && code[0].Jmp? && code[1].Lab? && Find(code, code[0].l) == 1 && Unique(code)
    && !code[|code| - 1].Jmp? && !code[|code| - 1].CBr?
    && (forall i, k :: 0 <= i < |code| && k in JumpTargets(code, i) ==> k < |code|)
    && (forall i :: 0 <= i < |code| && code[i].CBr? ==> Leader(code, i + 1))
  }

  /** The last instruction of the block that begins at k. */
  ghost function LastOf(code: seq<Instr>, k: nat): (last: nat)
    requires k < |code|
    ensures k <= last < |code|
    decreases |code| - k
  {
    if k + 1 < |code| && !Leader(code, k + 1) then LastOf(code, k + 1) else k
  }

  /** The first instruction of the block that contains pc. */
  ghost function FirstOf(code: seq<Instr>, pc: nat): (k: nat)
    ensures k <= pc && Leader(code, k)
  {
    if Leader(code, pc) then pc else FirstOf(code, pc - 1)
  }

  lemma {:induction false} LastOfIsLast(code: seq<Instr>, k: nat)
    requires k < |code|
    ensures forall j :: k < j <= LastOf(code, k) ==> !Leader(code, j)
    ensures LastOf(code, k) + 1 < |code| ==> Leader(code, LastOf(code, k) + 1)
    decreases |code| - k
  {
    if k + 1 < |code| && !Leader(code, k + 1) {
      LastOfIsLast(code, k + 1);
    }
  }

  lemma {:induction false} FirstOfIsFirst(code: seq<Instr>, pc: nat)
    ensures forall j :: FirstOf(code, pc) < j <= pc ==> !Leader(code, j)
  {
    if !Leader(code, pc) {
      FirstOfIsFirst(code, pc - 1);
    }
  }

  lemma {:induction false} ReachesEnd(code: seq<Instr>, k: nat, pc: nat)
    requires k <= pc < |code| && forall j :: k < j <= pc ==> !Leader(code, j)
    ensures pc <= LastOf(code, k)
    decreases pc - k
  {
    if k < pc {
      assert !Leader(code, k + 1);
      ReachesEnd(code, k + 1, pc);
    }
  }

  /** The blocks partition the code: pc lies in the block of its first instruction, and in no other. */
  lemma InOneBlock(code: seq<Instr>, pc: nat, k: nat)
    requires pc < |code| && k < |code| && Leader(code, k)
    ensures k <= pc <= LastOf(code, k) <==> k == FirstOf(code, pc)
  {
    FirstOfIsFirst(code, pc);
    LastOfIsLast(code, k);
    ReachesEnd(code, FirstOf(code, pc), pc);
  }

  /** Where control can go from the last instruction of a block. */
  function Exits(code: seq<Instr>, last: nat): set<nat>
    requires last < |code|
  {
    match code[last]
    case Jmp(l) => {Find(code, l)}
    case CBr(yes, _, no) => {Find(code, yes), Find(code, no)}
    case _ => if last + 1 < |code| then {last + 1} else {}
  }

  /** Inside a block control goes to the next instruction. */
  lemma StaysInBlock(m: Meaning, code: seq<Instr>, pc: nat, s: Env)
    requires Structured(code) && pc < |code| && pc != LastOf(code, FirstOf(code, pc))
    ensures Step(m, code, pc, s).0 == pc + 1 && pc + 1 <= LastOf(code, FirstOf(code, pc))
  {
    var f := FirstOf(code, pc);
    InOneBlock(code, pc, f);
    LastOfIsLast(code, f);
    if code[pc].Jmp? {
      BehindJump(code, pc);
    }
  }

  lemma BehindJump(code: seq<Instr>, i: nat)
    requires i < |code| && code[i].Jmp?
    ensures Leader(code, i + 1)
  {
    assert Makes(code, i, i + 1);
  }

  /** From a block's last instruction control goes to one of its exits, and each exit begins a block. */
  lemma LeavesThroughExit(m: Meaning, code: seq<Instr>, pc: nat, s: Env)
    requires Structured(code) && pc < |code| && pc == LastOf(code, FirstOf(code, pc))
    ensures pc + 1 < |code| ==> Step(m, code, pc, s).0 in Exits(code, pc)
    ensures pc + 1 == |code| ==> Exits(code, pc) == {} && Step(m, code, pc, s).0 == |code|
  {
    hide Find, Unique, LastOf, FirstOf;
  }

  lemma ExitsAreLeaders(code: seq<Instr>, k: nat, x: nat)
    requires Structured(code) && k < |code| && x in Exits(code, LastOf(code, k))
    ensures x < |code| && Leader(code, x)
  {
    LastOfIsLast(code, k);
    var last := LastOf(code, k);
    if code[last].Jmp? || code[last].CBr? {
      assert x in JumpTargets(code, last) && Makes(code, last, x);
    }
  }

  /** Every exit is taken in some state, where the condition of the branch is a name. */
  lemma ExitsAreTaken(m: Meaning, code: seq<Instr>, last: nat, x: nat) returns (s: Env)
    requires last < |code| && x in Exits(code, last) && (code[last].CBr? ==> code[last].c.Name?)
    ensures Step(m, code, last, s).0 == x
  {
    s := map[];
    if code[last].CBr? && x == Find(code, code[last].yes) {
      s := map[code[last].c.x := 1];
    }
  }

  /** A block that does not end in a jump falls into a label. */
  lemma FallsIntoLabel(code: seq<Instr>, k: nat)
    requires Structured(code) && k < |code| && Leader(code, k)
    ensures var last := LastOf(code, k);
      last + 1 < |code| && !code[last].Jmp? && !code[last].CBr? ==>
        code[last + 1].Lab? && Find(code, code[last + 1].l) == last + 1
  {
    LastOfIsLast(code, k);
    var last := LastOf(code, k);
    if last + 1 < |code| && !code[last].Jmp? && !code[last].CBr? {
      assert Leader(code, last + 1) && last > 0;
      var i :| 0 <= i < |code| && Makes(code, i, last + 1);
      assert last + 1 in JumpTargets(code, i);
      FindAt(code, last + 1, code[last + 1].l);
    }
  }

  // ------------------------------------------------------------------
  // Building the graph
  // ------------------------------------------------------------------

  /** The node of each leader, -1 where no block begins; and the leader of each node. */
  ghost predicate Nodes(leader2node: seq<int>, leaders: seq<nat>) {
    && (forall k :: 0 <= k < |leader2node| && leader2node[k] != -1 ==>
          0 <= leader2node[k] < |leaders| && leaders[leader2node[k]] == k)
    && (forall n :: 0 <= n < |leaders| ==> leaders[n] < |leader2node| && leader2node[leaders[n]] == n)
  }

  /** The first n instructions have been looked at. */
  ghost predicate Found(code: seq<Instr>, n: nat, leader2node: seq<int>)
    requires n <= |code|
  {
    && |leader2node| == |code|
    && forall k :: 0 <= k < |code| ==> (leader2node[k] != -1 <==> LeaderBelow(code, n, k))
  }

  /** The node that begins at k is there now. */
  function Added(leader2node: seq<int>, leaders: seq<nat>, k: nat): (seq<int>, seq<nat>)
    requires k < |leader2node|
  {
    if leader2node[k] == -1 then (leader2node[k := |leaders|], leaders + [k]) else (leader2node, leaders)
  }

  lemma AddedNodes(leader2node: seq<int>, leaders: seq<nat>, k: nat)
    requires Nodes(leader2node, leaders) && k < |leader2node|
    ensures var (l2n, ls) := Added(leader2node, leaders, k);
      Nodes(l2n, ls) && |l2n| == |leader2node|
      && forall j :: 0 <= j < |l2n| ==> (l2n[j] != -1 <==> leader2node[j] != -1 || j == k)
  {
  }

  ghost predicate NoRepeat(s: seq<nat>) { forall i, j :: 0 <= i < j < |s| ==> s[i] != s[j] }

  /** The lists of out-edges and in-edges hold exactly these edges, each once. */
  ghost predicate Linked(out: seq<seq<nat>>, inn: seq<seq<nat>>, edges: set<(nat, nat)>, n: nat) {
    && |out| == |inn| == n
    && (forall b :: 0 <= b < n ==> NoRepeat(out[b]) && NoRepeat(inn[b]))
    && (forall b, c :: 0 <= b < n ==> (c in out[b] <==> (b, c) in edges))
    && (forall b, c :: 0 <= c < n ==> (b in inn[c] <==> (b, c) in edges))
    && (forall b, c :: (b, c) in edges ==> b < n && c < n)
  }

  function EdgeAdded(p: seq<nat>, e: nat): seq<nat> { if e in p then p else p + [e] }

  lemma LinkedAdd(out: seq<seq<nat>>, inn: seq<seq<nat>>, edges: set<(nat, nat)>, n: nat, b: nat, c: nat)
    requires Linked(out, inn, edges, n) && b < n && c < n
    ensures Linked(out[b := EdgeAdded(out[b], c)], inn[c := EdgeAdded(inn[c], b)], edges + {(b, c)}, n)
  {
  }

  /** The edges of the first n nodes are the exits of their blocks. */
  ghost predicate Exact(code: seq<Instr>, leaders: seq<nat>, last: seq<nat>, edges: set<(nat, nat)>, n: nat) {
    && |last| == n <= |leaders|
    && (forall b :: 0 <= b < n ==> leaders[b] < |code| && last[b] == LastOf(code, leaders[b]))
    && (forall b: nat, c: nat :: b < |leaders| && c < |leaders| ==>
          ((b, c) in edges <==> b < n && leaders[c] in Exits(code, last[b])))
  }

  /** These are the edges out of node n, whose block ends at l. */
  ghost predicate Leads(code: seq<Instr>, leaders: seq<nat>, n: nat, l: nat, more: set<(nat, nat)>)
    requires l < |code|
  {
    forall b: nat, c: nat :: (b, c) in more <==> b == n && c < |leaders| && leaders[c] in Exits(code, l)
  }

  lemma ExactStep(code: seq<Instr>, leaders: seq<nat>, last: seq<nat>, edges: set<(nat, nat)>, n: nat, l: nat,
      more: set<(nat, nat)>)
    requires Exact(code, leaders, last, edges, n) && n < |leaders| && leaders[n] < |code|
             && l == LastOf(code, leaders[n])
    requires Leads(code, leaders, n, l, more)
    ensures Exact(code, leaders, last + [l], edges + more, n + 1)
  {
  }

  class Builder {
    const code: seq<Instr>
    const lab2instr: map<nat, nat>
    const leader2node: array<int>
    var leaders: seq<nat>
    var last: seq<nat>
    var out: seq<seq<nat>>
    var inn: seq<seq<nat>>

    constructor (code: seq<Instr>, lab2instr: map<nat, nat>)
      ensures this.code == code && this.lab2instr == lab2instr && leaders == [] && fresh(leader2node)
      ensures leader2node[..] == seq(|code|, _ => -1)
    {
      this.code, this.lab2instr := code, lab2instr;
      leader2node := new int[|code|](_ => -1);
      leaders, last, out, inn := [], [], [], [];
    }

    /** A node for the block that begins at k, unless there is one. */
    method NewNode(k: nat)
      requires k < leader2node.Length && Nodes(leader2node[..], leaders)
      modifies this`leaders, leader2node
      ensures Nodes(leader2node[..], leaders)
      ensures forall j :: 0 <= j < leader2node.Length ==> (leader2node[j] != -1
              <==> old(leader2node[j]) != -1 || j == k)
      ensures leaders == if old(leader2node[k]) == -1 then old(leaders) + [k] else old(leaders)
    {
      hide Nodes;
      AddedNodes(leader2node[..], leaders, k);
      ghost var (l2n, ls) := Added(leader2node[..], leaders, k);
      if leader2node[k] == -1 {
        leader2node[k] := |leaders|;
        leaders := leaders + [k];
      }
      assert leader2node[..] == l2n;
    }

    /** What instruction i says about where blocks begin. */
    method Scan(i: nat)
      requires i < |code| == leader2node.Length && Structured(code) && Resolved(code, lab2instr)
               && Nodes(leader2node[..], leaders)
      modifies this`leaders, leader2node
      ensures Nodes(leader2node[..], leaders)
      ensures forall k :: 0 <= k < |code| ==> (leader2node[k] != -1 <==> old(leader2node[k]) != -1 || Makes(code, i, k))
      ensures code[i].Lab? ==> leaders == old(leaders)
      ensures i + 1 < |code| && JumpTargets(code, i) == [i + 1] && old(leader2node[i + 1]) == -1
              ==> leaders == old(leaders) + [i + 1]
    {
      hide Unique, Find, Nodes;
      match code[i]
      case Jmp(l) =>
        assert Find(code, l) in JumpTargets(code, i);
        NewNode(lab2instr[l]);
        NewNode(i + 1);
      case CBr(yes, _, no) =>
        assert Find(code, yes) in JumpTargets(code, i) && Find(code, no) in JumpTargets(code, i);
        NewNode(lab2instr[yes]);
        NewNode(lab2instr[no]);
      case _ =>
    }

    /** The first part of build_CFG: which instructions begin a block. */
    method FindLeaders()
      requires Structured(code) && Resolved(code, lab2instr)
      requires leaders == [] && leader2node[..] == seq(|code|, _ => -1)
      modifies this`leaders, leader2node
      ensures Nodes(leader2node[..], leaders) && Found(code, |code|, leader2node[..])
      ensures ExitForm(code) ==> |leaders| > 0 && leaders[|leaders| - 1] == |code| - 1
    {
      hide Unique, Find, Makes, Nodes, Found, ExitForm, JumpTargets;
      assert leader2node.Length == |leader2node[..]| == |code|;
      assert Nodes(leader2node[..], leaders) by { NoNodes(|code|); }
      NewNode(0);
      NewNode(1);
      StartFound(code, leader2node[..]);
      ExitLong(code);
      var i := 2;
      while i < |code|
        invariant 2 <= i <= |code|
        invariant Nodes(leader2node[..], leaders) && Found(code, i, leader2node[..])
        invariant ExitForm(code) && i >= |code| - 1 ==> |leaders| > 0 && leaders[|leaders| - 1] == |code| - 1
      {
        ghost var was := leader2node[..];
        ExitNext(code, i, was);
        Scan(i);
        FoundStep(code, i, was, leader2node[..]);
        i := i + 1;
      }
    }

    /** edge_add, on both sides. */
    method AddEdge(b: nat, c: nat, ghost edges: set<(nat, nat)>)
      requires Linked(out, inn, edges, |leaders|) && b < |leaders| && c < |leaders|
      modifies this`out, this`inn
      ensures Linked(out, inn, edges + {(b, c)}, |leaders|)
    {
      LinkedAdd(out, inn, edges, |leaders|, b, c);
      out := out[b := EdgeAdded(out[b], c)];
      inn := inn[c := EdgeAdded(inn[c], b)];
    }

    /** The last instruction of node n's block. */
    method FindLast(n: nat) returns (l: nat)
      requires n < |leaders| && leader2node.Length == |code|
      requires Nodes(leader2node[..], leaders) && Found(code, |code|, leader2node[..])
      ensures leaders[n] < |code| && l == LastOf(code, leaders[n])
    {
      assert leader2node[..][leaders[n]] == n;
      l := leaders[n] + 1;
      while l < |code| && leader2node[l] == -1
        invariant leaders[n] < l <= |code| && LastOf(code, l - 1) == LastOf(code, leaders[n])
      {
        assert leader2node[..][l] == -1;
        l := l + 1;
      }
      assert l < |code| ==> leader2node[..][l] != -1;
      l := l - 1;
    }

    /** The edges out of node n, whose block ends at l. */
    method LinkNode(n: nat, l: nat, ghost edges: set<(nat, nat)>) returns (ghost more: set<(nat, nat)>)
      requires n < |leaders| && leader2node.Length == |code| && Structured(code) && Resolved(code, lab2instr)
      requires Nodes(leader2node[..], leaders) && Found(code, |code|, leader2node[..])
      requires leaders[n] < |code| && l == LastOf(code, leaders[n])
      requires Linked(out, inn, edges, |leaders|)
      modifies this`out, this`inn
      ensures Linked(out, inn, edges + more, |leaders|)
      ensures Leads(code, leaders, n, l, more)
    {
      hide Find, Unique, Linked, Structured, Nodes, Found, LastOf, Leads;
      ghost var l2n := leader2node[..];
      NodeOfExit(code, leaders, l2n, n, l);
      match code[l]
      case CBr(yes, _, no) =>
        assert Find(code, yes) in Exits(code, l) && Find(code, no) in Exits(code, l);
        var succ1 := leader2node[lab2instr[yes]];
        var succ2 := leader2node[lab2instr[no]];
        AddEdge(n, succ1, edges);
        AddEdge(n, succ2, edges + {(n, succ1)});
        more := {(n, succ1), (n, succ2)};
        LeadsTwo(code, leaders, n, l, succ1, succ2);
        assert edges + {(n, succ1)} + {(n, succ2)} == edges + more;
      case Jmp(t) =>
        assert Find(code, t) in Exits(code, l);
        var succ := leader2node[lab2instr[t]];
        AddEdge(n, succ, edges);
        more := {(n, succ)};
        LeadsOne(code, leaders, n, l, succ);
      case _ =>
        if l != |code| - 1 {
          var succ := leader2node[lab2instr[code[l + 1].l]];
          AddEdge(n, succ, edges);
          more := {(n, succ)};
          LeadsOne(code, leaders, n, l, succ);
        } else {
          more := {};
          LeadsNone(code, leaders, n, l);
          assert edges + more == edges;
        }
    }

    /** The second part of build_CFG: where each block ends, and the edges. */
    method SetEdges() returns (ghost edges: set<(nat, nat)>)
      requires leader2node.Length == |code| && Structured(code) && Resolved(code, lab2instr)
      requires Nodes(leader2node[..], leaders) && Found(code, |code|, leader2node[..])
      modifies this`out, this`inn, this`last
      ensures Linked(out, inn, edges, |leaders|) && Exact(code, leaders, last, edges, |leaders|)
    {
      hide Nodes, Found, Structured, Linked, Exact, Resolved, LastOf;
      last, edges := [], {};
      out, inn := seq(|leaders|, _ => []), seq(|leaders|, _ => []);
      NoEdges(code, leaders);
      var i := 0;
      while i < |leaders|
        invariant 0 <= i <= |leaders|
        invariant Linked(out, inn, edges, |leaders|) && Exact(code, leaders, last, edges, i)
      {
        var l := FindLast(i);
        ghost var more := LinkNode(i, l, edges);
        ExactStep(code, leaders, last, edges, i, l, more);
        edges := edges + more;
        last := last + [l];
        i := i + 1;
      }
    }

    /** build_CFG, up to the numbering. */
    method Build() returns (ghost edges: set<(nat, nat)>)
      requires Structured(code) && Resolved(code, lab2instr)
      requires leaders == [] && leader2node[..] == seq(|code|, _ => -1)
      modifies this, leader2node
      ensures Nodes(leader2node[..], leaders) && Found(code, |code|, leader2node[..])
      ensures Linked(out, inn, edges, |leaders|) && Exact(code, leaders, last, edges, |leaders|)
      ensures ExitForm(code) ==> |leaders| > 0 && leaders[|leaders| - 1] == |code| - 1
    {
      hide Nodes, Found, Structured, Linked, Exact, Resolved, LastOf, ExitForm;
      assert leader2node.Length == |leader2node[..]| == |code|;
      FindLeaders();
      edges := SetEdges();
    }
  }

  lemma NoEdges(code: seq<Instr>, leaders: seq<nat>)
    ensures Linked(seq(|leaders|, _ => []), seq(|leaders|, _ => []), {}, |leaders|) && Exact(code, leaders, [], {}, 0)
  {
  }

  lemma LeadsTwo(code: seq<Instr>, leaders: seq<nat>, n: nat, l: nat, c1: nat, c2: nat)
    requires l < |code| && c1 < |leaders| && c2 < |leaders| && Exits(code, l) == {leaders[c1], leaders[c2]}
             && Distinct(leaders)
    ensures Leads(code, leaders, n, l, {(n, c1), (n, c2)})
  {
  }

  lemma LeadsOne(code: seq<Instr>, leaders: seq<nat>, n: nat, l: nat, c: nat)
    requires l < |code| && c < |leaders| && Exits(code, l) == {leaders[c]} && Distinct(leaders)
    ensures Leads(code, leaders, n, l, {(n, c)})
  {
  }

  lemma LeadsNone(code: seq<Instr>, leaders: seq<nat>, n: nat, l: nat)
    requires l < |code| && Exits(code, l) == {}
    ensures Leads(code, leaders, n, l, {})
  {
  }

  ghost predicate Distinct(leaders: seq<nat>) {
    forall i, j :: 0 <= i < |leaders| && 0 <= j < |leaders| && leaders[i] == leaders[j] ==> i == j
  }

  /** Every exit of a block has a node. */
  lemma NodeOfExit(code: seq<Instr>, leaders: seq<nat>, l2n: seq<int>, n: nat, l: nat)
    requires Structured(code) && Nodes(l2n, leaders) && Found(code, |code|, l2n)
    requires n < |leaders| && leaders[n] < |code| && l == LastOf(code, leaders[n])
    ensures forall x :: x in Exits(code, l) ==> x < |code| == |l2n| && 0 <= l2n[x] < |leaders| && leaders[l2n[x]] == x
    ensures Distinct(leaders)
    ensures l + 1 < |code| && !code[l].Jmp? && !code[l].CBr? ==> code[l + 1].Lab? && Find(code, code[l + 1].l) == l + 1
  {
    forall x | x in Exits(code, l) ensures x < |code| && 0 <= l2n[x] < |leaders| && leaders[l2n[x]] == x {
      ExitsAreLeaders(code, leaders[n], x);
    }
    assert l2n[leaders[n]] == n;
    FallsIntoLabel(code, leaders[n]);
  }

  lemma NoNodes(n: nat)
    ensures Nodes(seq(n, _ => -1), [])
  {
  }

  /** The code ends with a jump to a label at its very end that nothing else leads to: the exit block. */
  ghost predicate ExitForm(code: seq<Instr>) {
    var n := |code|;
    n >= 4 && code[n - 1].Lab? && code[n - 2].Jmp? && JumpTargets(code, n - 2) == [n - 1]
        && !LeaderBelow(code, n - 2, n - 1)
  }

  lemma ExitLong(code: seq<Instr>)
    ensures ExitForm(code) ==> |code| >= 4
  {
  }

  /** The last two turns of the scan: the exit block gets its node, and no other comes after it. */
  lemma ExitNext(code: seq<Instr>, i: nat, l2n: seq<int>)
    requires 2 <= i < |code| && Found(code, i, l2n)
    ensures ExitForm(code) && i == |code| - 1 ==> code[i].Lab?
    ensures ExitForm(code) && i == |code| - 2 ==> JumpTargets(code, i) == [i + 1] && l2n[i + 1] == -1
  {
  }

  /** The label table leads where a search of the code would. */
  ghost predicate Resolved(code: seq<Instr>, lab2instr: map<nat, nat>) {
    && (forall l :: l in lab2instr ==> lab2instr[l] == Find(code, l))
    && (forall i :: 0 <= i < |code| && code[i].Jmp? ==> code[i].l in lab2instr)
    && (forall i :: 0 <= i < |code| && code[i].CBr? ==> code[i].yes in lab2instr && code[i].no in lab2instr)
    && (forall i :: 0 <= i < |code| && code[i].Lab? ==> code[i].l in lab2instr)
  }

  /** The entry jump leads to the instruction behind it. */
  lemma StartFound(code: seq<Instr>, l2n: seq<int>)
    requires Structured(code) && |l2n| == |code|
    requires forall k :: 0 <= k < |code| ==> (l2n[k] != -1 <==> k <= 1)
    ensures Found(code, 2, l2n)
  {
  }

  lemma FoundStep(code: seq<Instr>, i: nat, was: seq<int>, now: seq<int>)
    requires i < |code| && Found(code, i, was) && |now| == |code|
    requires forall k :: 0 <= k < |code| ==> (now[k] != -1 <==> was[k] != -1 || Makes(code, i, k))
    ensures Found(code, i + 1, now)
  {
  }

  // ------------------------------------------------------------------
  // Depth-first numbering
  // ------------------------------------------------------------------

  ghost predicate InRange(succ: seq<seq<nat>>) {
    forall b, k :: 0 <= b < |succ| && 0 <= k < |succ[b]| ==> succ[b][k] < |succ|
  }

  ghost predicate Path(succ: seq<seq<nat>>, p: seq<nat>) {
    && |p| > 0 && (forall i :: 0 <= i < |p| ==> p[i] < |succ|)
    && forall i :: 0 <= i < |p| - 1 ==> p[i + 1] in succ[p[i]]
  }

  ghost predicate Reaches(succ: seq<seq<nat>>, u: nat, v: nat) {
    exists p :: Path(succ, p) && p[0] == u && p[|p| - 1] == v
  }

  lemma ReachesSelf(succ: seq<seq<nat>>, u: nat)
    requires u < |succ|
    ensures Reaches(succ, u, u)
  {
    assert Path(succ, [u]) && [u][0] == u && [u][|[u]| - 1] == u;
  }

  lemma ReachesOn(succ: seq<seq<nat>>, u: nat, v: nat, w: nat)
    requires Reaches(succ, u, v) && InRange(succ) && v < |succ| && w in succ[v]
    ensures Reaches(succ, u, w)
  {
    var p :| Path(succ, p) && p[0] == u && p[|p| - 1] == v;
    var q := p + [w];
    assert w < |succ| by {
      var k :| 0 <= k < |succ[v]| && succ[v][k] == w;
    }
    forall i | 0 <= i < |q| - 1 ensures q[i + 1] in succ[q[i]] {
      assert i < |p| - 1 ==> q[i + 1] == p[i + 1] && p[i + 1] in succ[p[i]];
    }
    assert Path(succ, q) && q[0] == u && q[|q| - 1] == w;
  }

  function Marked(visited: seq<bool>): set<nat> { set i | 0 <= i < |visited| && visited[i] }

  /** Entered but not yet numbered. */
  ghost function Open(visited: seq<bool>, po: seq<nat>): set<nat> { set b | b in Marked(visited) && b !in po }

  /** Every edge out of a numbered node leads to one numbered before it, or to one from which it can be reached. */
  ghost predicate Ordered(succ: seq<seq<nat>>, po: seq<nat>) {
    && (forall i :: 0 <= i < |po| ==> po[i] < |succ|)
    && forall i, v :: 0 <= i < |po| && v in succ[po[i]] ==> v in po[..i] || Reaches(succ, v, po[i])
  }

  ghost predicate Numbering(succ: seq<seq<nat>>, visited: seq<bool>, nunvisited: int, po: seq<nat>) {
    && InRange(succ) && |visited| == |succ| && NoRepeat(po) && Ordered(succ, po)
    && (forall b :: b in po ==> b in Marked(visited))
    && nunvisited == |succ| - |Marked(visited)|
  }

  lemma {:induction false} MarkedBound(visited: seq<bool>)
    ensures |Marked(visited)| <= |visited|
    ensures |Marked(visited)| == |visited| ==> forall b :: 0 <= b < |visited| ==> visited[b]
  {
    if visited != [] {
      var n := |visited| - 1;
      MarkedBound(visited[..n]);
      assert Marked(visited) == Marked(visited[..n]) + if visited[n] then {n} else {};
      assert n !in Marked(visited[..n]);
    }
  }

  lemma MarkOne(visited: seq<bool>, n: nat)
    requires n < |visited| && !visited[n]
    ensures Marked(visited[n := true]) == Marked(visited) + {n} && |Marked(visited[n := true])| == |Marked(visited)| + 1
  {
  }

  /** A node is entered. */
  lemma Enter(succ: seq<seq<nat>>, visited: seq<bool>, nunvisited: int, po: seq<nat>, n: nat)
    requires Numbering(succ, visited, nunvisited, po) && n < |succ| && !visited[n]
    ensures Numbering(succ, visited[n := true], nunvisited - 1, po) && nunvisited > 0
    ensures Open(visited[n := true], po) == Open(visited, po) + {n} && n !in Open(visited, po)
  {
    MarkOne(visited, n);
    MarkedBound(visited[n := true]);
  }

  /** A node all of whose successors have been entered is numbered. */
  lemma Leave(succ: seq<seq<nat>>, visited: seq<bool>, nunvisited: int, po: seq<nat>, n: nat)
    requires Numbering(succ, visited, nunvisited, po) && n < |succ| && n in Open(visited, po)
    requires Entered(succ[n], Marked(visited))
    requires forall b :: b in Open(visited, po) ==> Reaches(succ, b, n)
    ensures Numbering(succ, visited, nunvisited, po + [n])
    ensures Open(visited, po + [n]) == Open(visited, po) - {n}
  {
    var po' := po + [n];
    forall i, v | 0 <= i < |po'| && v in succ[po'[i]] ensures v in po'[..i] || Reaches(succ, v, po'[i]) {
      if i < |po| {
        assert po'[..i] == po[..i] && po'[i] == po[i];
      } else {
        assert po'[..i] == po && po'[i] == n;
      }
    }
  }

  class Numberer {
    const succ: seq<seq<nat>>
    var visited: seq<bool>
    var nunvisited: int
    var po: seq<nat>
    var rpo: seq<nat>

    constructor (succ: seq<seq<nat>>)
      ensures this.succ == succ
    {
      this.succ := succ;
    }

    /** number_subCFG. */
    method NumberSub(n: nat)
      requires Numbering(succ, visited, nunvisited, po) && n < |succ| && !visited[n]
      requires forall b :: b in Open(visited, po) ==> Reaches(succ, b, n)
      modifies this`visited, this`nunvisited, this`po
      ensures Numbering(succ, visited, nunvisited, po) && nunvisited < old(nunvisited)
      ensures Marked(visited) >= Marked(old(visited)) + {n}
      ensures Open(visited, po) == Open(old(visited), old(po)) && old(po) <= po
      decreases nunvisited, 0
    {
      Sizes(succ, visited, nunvisited, po);
      MarkedIs(visited);
      hide Numbering, Reaches, Open, Marked, InRange;
      Enter(succ, visited, nunvisited, po, n);
      MarkOne(visited, n);
      ghost var open := Open(visited, po) + {n};
      visited := visited[n := true];
      nunvisited := nunvisited - 1;
      ReachesSelf(succ, n);
      var i := 0;
      while i < |succ[n]|
        invariant 0 <= i <= |succ[n]|
        invariant Numbering(succ, visited, nunvisited, po) && nunvisited < old(nunvisited)
        invariant Marked(visited) >= Marked(old(visited)) + {n} && Open(visited, po) == open && old(po) <= po
        invariant Entered(succ[n][..i], Marked(visited))
      {
        ghost var marked := Marked(visited);
        Visit(n, succ[n][i]);
        EnterNext(succ[n], i, marked, Marked(visited));
        i := i + 1;
      }
      assert succ[n][..i] == succ[n];
      Leave(succ, visited, nunvisited, po, n);
      po := po + [n];
    }

    /** A successor s of node n, which is open. */
    method Visit(n: nat, s: nat)
      requires Numbering(succ, visited, nunvisited, po) && n < |succ| && s in succ[n]
      requires forall b :: b in Open(visited, po) ==> Reaches(succ, b, n)
      modifies this`visited, this`nunvisited, this`po
      ensures Numbering(succ, visited, nunvisited, po) && nunvisited <= old(nunvisited)
      ensures Marked(visited) >= Marked(old(visited)) + {s}
      ensures Open(visited, po) == Open(old(visited), old(po)) && old(po) <= po
      decreases nunvisited, 1
    {
      hide Numbering, Reaches, Open, Marked;
      SuccessorInRange(succ, visited, nunvisited, po, n, s);
      MarkedIs(visited);
      if !visited[s] {
        forall b | b in Open(visited, po) ensures Reaches(succ, b, s) {
          ReachesOn(succ, b, n, s);
        }
        NumberSub(s);
      }
    }

    /** number_CFG. */
    method NumberCfg()
      requires InRange(succ)
      modifies this
      ensures Permutation(po, |succ|) && Ordered(succ, po)
      ensures |rpo| == |po| && forall k :: 0 <= k < |po| ==> rpo[k] == po[|po| - 1 - k]
    {
      visited, nunvisited, po := seq(|succ|, _ => false), |succ|, [];
      StartNumbering(succ);
      while nunvisited != 0
        invariant Numbering(succ, visited, nunvisited, po) && Open(visited, po) == {}
        decreases nunvisited
      {
        hide Numbering, Reaches, Open;
        Sizes(succ, visited, nunvisited, po);
        SomeUnvisited(succ, visited, nunvisited, po);
        var n := 0;
        while visited[n]
          invariant 0 <= n < |visited| == |succ| && exists k :: n <= k < |visited| && !visited[k]
          decreases |visited| - n
        {
          n := n + 1;
        }
        NumberSub(n);
      }
      AllNumbered(succ, visited, po);
      Reverse();
    }

    method Reverse()
      modifies this`rpo
      ensures |rpo| == |po| && forall k :: 0 <= k < |po| ==> rpo[k] == po[|po| - 1 - k]
    {
      rpo := [];
      var n2 := |po|;
      while n2 > 0
        invariant 0 <= n2 <= |po| && |rpo| == |po| - n2
        invariant forall k :: 0 <= k < |rpo| ==> rpo[k] == po[|po| - 1 - k]
      {
        n2 := n2 - 1;
        rpo := rpo + [po[n2]];
      }
    }
  }

  lemma Sizes(succ: seq<seq<nat>>, visited: seq<bool>, nunvisited: int, po: seq<nat>)
    requires Numbering(succ, visited, nunvisited, po)
    ensures |visited| == |succ| && InRange(succ)
  {
  }

  predicate Entered(ss: seq<nat>, marked: set<nat>) { forall s :: s in ss ==> s in marked }

  lemma EnterNext(ss: seq<nat>, i: nat, before: set<nat>, after: set<nat>)
    requires i < |ss| && Entered(ss[..i], before) && before <= after && ss[i] in after
    ensures Entered(ss[..i + 1], after)
  {
    assert ss[..i + 1] == ss[..i] + [ss[i]];
  }

  lemma MarkedIs(visited: seq<bool>)
    ensures forall b :: 0 <= b < |visited| ==> (visited[b] <==> b in Marked(visited))
  {
  }

  lemma SuccessorInRange(succ: seq<seq<nat>>, visited: seq<bool>, nunvisited: int, po: seq<nat>, n: nat, s: nat)
    requires Numbering(succ, visited, nunvisited, po) && n < |succ| && s in succ[n]
    ensures InRange(succ) && s < |succ| == |visited|
  {
    var k :| 0 <= k < |succ[n]| && succ[n][k] == s;
  }

  lemma StartNumbering(succ: seq<seq<nat>>)
    requires InRange(succ)
    ensures Numbering(succ, seq(|succ|, _ => false), |succ|, []) && Open(seq(|succ|, _ => false), []) == {}
  {
    assert Marked(seq(|succ|, _ => false)) == {};
  }

  lemma SomeUnvisited(succ: seq<seq<nat>>, visited: seq<bool>, nunvisited: int, po: seq<nat>)
    requires Numbering(succ, visited, nunvisited, po) && nunvisited != 0
    ensures nunvisited > 0 && exists k :: 0 <= k < |visited| && !visited[k]
  {
    MarkedBound(visited);
    if forall k :: 0 <= k < |visited| ==> visited[k] {
      AllMarked(visited);
    }
  }

  lemma {:induction false} AllMarked(visited: seq<bool>)
    requires forall k :: 0 <= k < |visited| ==> visited[k]
    ensures |Marked(visited)| == |visited|
  {
    if visited != [] {
      var n := |visited| - 1;
      AllMarked(visited[..n]);
      assert Marked(visited) == Marked(visited[..n]) + {n} && n !in Marked(visited[..n]);
    }
  }

  /** Each of the n nodes occurs exactly once. */
  ghost predicate Permutation(po: seq<nat>, n: nat) {
    NoRepeat(po) && forall b :: b in po <==> 0 <= b < n
  }

  lemma AllNumbered(succ: seq<seq<nat>>, visited: seq<bool>, po: seq<nat>)
    requires Numbering(succ, visited, 0, po) && Open(visited, po) == {}
    ensures Permutation(po, |succ|) && Ordered(succ, po)
  {
    MarkedBound(visited);
    forall b | 0 <= b < |succ| ensures b in po {
      assert b in Marked(visited) && b !in Open(visited, po);
    }
  }

  /** Along an edge u -> v that no path leads back over, the post-order puts v first. */
  lemma PostOrder(succ: seq<seq<nat>>, po: seq<nat>, i: nat, j: nat)
    requires Permutation(po, |succ|) && Ordered(succ, po) && i < |po| && j < |po|
    requires po[j] in succ[po[i]] && !Reaches(succ, po[j], po[i])
    ensures j < i
  {
    assert po[j] in po[..i];
    var k :| 0 <= k < i && po[k] == po[j];
  }

  /** The numbered graph is one the liveness solver works on. */
  lemma NumberedGraph(out: seq<seq<nat>>, po: seq<nat>, ueVar: seq<set<nat>>, varKill: seq<set<nat>>)
    requires InRange(out) && Permutation(po, |out|) && |ueVar| == |varKill| == |po| == |out|
    ensures Dflow.Graph(out, ueVar, varKill, po).WellFormed()
  {
    assert forall i :: 0 <= i < |po| ==> po[i] in po;
  }
}
