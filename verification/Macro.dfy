/** Expansion of object-like macros by splicing replacement lists and re-enabler tokens into the token list. */
module Macro {

  datatype Tok =
    | Id(name: string)
    | Other(text: string)
    | StrLit(str: string)
    | Number(n: int)
    | NewLine
    | Reenabler(macro: string)

  /** Where a token stands, for __FILE__ and __LINE__. */
  datatype Loc = Loc(file: string, line: int)

  datatype Node = Node(tok: Tok, loc: Loc, deleted: bool)

  /** The replacement lists of the defined macros. */
  type Defs = map<string, seq<Tok>>

  /** A token of the source or of a replacement list, neither the end of a line nor a marker. */
  predicate Plain(t: Tok) { !t.NewLine? && !t.Reenabler? }

  predicate AllPlain(ts: seq<Node>) {
    forall k :: 0 <= k < |ts| ==> Plain(ts[k].tok) && !ts[k].deleted
  }

  predicate PlainDefs(defs: Defs) {
    forall x, k :: x in defs && 0 <= k < |defs[x]| ==> Plain(defs[x][k])
  }

  /** A copy of a replacement list, every token at the place of the macro's name. */
  function Copy(rep: seq<Tok>, loc: Loc): (r: seq<Node>)
    ensures |r| == |rep| && forall k :: 0 <= k < |r| ==> r[k] == Node(rep[k], loc, false)
  {
    seq(|rep|, k requires 0 <= k < |rep| => Node(rep[k], loc, false))
  }

  /** What becomes of a token that is no enabled macro name. */
  function Passed(n: Node): Node {
    if n.tok == Id("__FILE__") then n.(tok := StrLit("\"" + n.loc.file + "\""))
    else if n.tok == Id("__LINE__") then n.(tok := Number(n.loc.line))
    else n
  }

  predicate Expandable(defs: Defs, t: Tok, hidden: set<string>) {
    t.Id? && t.name != "__FILE__" && t.name != "__LINE__" && t.name in defs && t.name !in hidden
  }

  // ------------------------------------------------------------------
  // The meaning of macro replacement
  // ------------------------------------------------------------------

  /**
   * Rescanning as recursion: a name is replaced by the expansion of its replacement list, in which the name itself
   * is hidden (section 6.10.3.4 of ISO/IEC 9899:1999).
   */
  function Expand(defs: Defs, ts: seq<Node>, hidden: set<string>): seq<Node>
    decreases defs.Keys - hidden, |ts|
  {
    if ts == [] then []
    else if Expandable(defs, ts[0].tok, hidden) then
      var x := ts[0].tok.name;
      assert x in defs.Keys - hidden && x !in defs.Keys - (hidden + {x});
      Expand(defs, Copy(defs[x], ts[0].loc), hidden + {x}) + Expand(defs, ts[1..], hidden)
    else [Passed(ts[0])] + Expand(defs, ts[1..], hidden)
  }

  /** How many tokens the expansion goes through, counting one marker for each expansion. */
  function Work(defs: Defs, ts: seq<Node>, hidden: set<string>): nat
    decreases defs.Keys - hidden, |ts|
  {
    if ts == [] then 0
    else if Expandable(defs, ts[0].tok, hidden) then
      var x := ts[0].tok.name;
      assert x in defs.Keys - hidden && x !in defs.Keys - (hidden + {x});
      2 + Work(defs, Copy(defs[x], ts[0].loc), hidden + {x}) + Work(defs, ts[1..], hidden)
    else 1 + Work(defs, ts[1..], hidden)
  }

  /** The same for a list with markers in it: behind a marker its name is visible again. */
  function ExpandMarked(defs: Defs, ts: seq<Node>, hidden: set<string>): seq<Node>
    decreases |ts|
  {
    if ts == [] then []
    else if ts[0].tok.Reenabler? then ExpandMarked(defs, ts[1..], hidden - {ts[0].tok.macro})
    else if Expandable(defs, ts[0].tok, hidden) then
      Expand(defs, Copy(defs[ts[0].tok.name], ts[0].loc), hidden + {ts[0].tok.name})
          + ExpandMarked(defs, ts[1..], hidden)
    else [Passed(ts[0])] + ExpandMarked(defs, ts[1..], hidden)
  }

  function WorkMarked(defs: Defs, ts: seq<Node>, hidden: set<string>): nat
    decreases |ts|
  {
    if ts == [] then 0
    else if ts[0].tok.Reenabler? then 1 + WorkMarked(defs, ts[1..], hidden - {ts[0].tok.macro})
    else if Expandable(defs, ts[0].tok, hidden) then
      2 + Work(defs, Copy(defs[ts[0].tok.name], ts[0].loc), hidden + {ts[0].tok.name})
          + WorkMarked(defs, ts[1..], hidden)
    else 1 + WorkMarked(defs, ts[1..], hidden)
  }

  /** The built-in names stand for the place where they are used, also when they come out of a replacement list: then it
      is the place of the macro's name. */
  lemma PlaceOfUse(defs: Defs, x: string, loc: Loc, deleted: bool, hidden: set<string>)
    ensures Expand(defs, [Node(Id("__LINE__"), loc, deleted)], hidden) == [Node(Number(loc.line), loc, deleted)]
    ensures Expand(defs, [Node(Id("__FILE__"), loc, deleted)], hidden) ==
            [Node(StrLit("\"" + loc.file + "\""), loc, deleted)]
    ensures Expandable(defs, Id(x), hidden) && defs[x] == [Id("__FILE__"), Id("__LINE__")] ==>
              Expand(defs, [Node(Id(x), loc, deleted)], hidden) ==
              [Node(StrLit("\"" + loc.file + "\""), loc, false), Node(Number(loc.line), loc, false)]
  {
    assert [Node(Id("__LINE__"), loc, deleted)][1..] == [];
    if Expandable(defs, Id(x), hidden) && defs[x] == [Id("__FILE__"), Id("__LINE__")] {
      var copy := Copy(defs[x], loc);
      assert copy == [Node(Id("__FILE__"), loc, false), Node(Id("__LINE__"), loc, false)];
      assert copy[1..] == [Node(Id("__LINE__"), loc, false)] && copy[1..][1..] == [];
      assert Expand(defs, copy[1..], hidden + {x}) == [Node(Number(loc.line), loc, false)];
      assert Expand(defs, copy, hidden + {x}) == [Passed(copy[0])] + Expand(defs, copy[1..], hidden + {x});
      assert [Node(Id(x), loc, deleted)][1..] == [];
    }
  }

  /** Nothing of them is left, and every other token of the result is one of the line or of a replacement list. */
  lemma {:induction false} NoBuiltinLeft(defs: Defs, ts: seq<Node>, hidden: set<string>, k: nat)
    requires k < |Expand(defs, ts, hidden)|
    ensures var n := Expand(defs, ts, hidden)[k];
            && n.tok != Id("__LINE__") && n.tok != Id("__FILE__")
            && (exists i :: 0 <= i < |ts| && ts[i].loc == n.loc)
            && (n.tok == Number(n.loc.line) || n.tok == StrLit("\"" + n.loc.file + "\"") || Comes(defs, ts, n.tok))
    decreases defs.Keys - hidden, |ts|
  {
    if Expandable(defs, ts[0].tok, hidden) {
      var x := ts[0].tok.name;
      assert x in defs.Keys - hidden && x !in defs.Keys - (hidden + {x});
      var copy := Copy(defs[x], ts[0].loc);
      var first := Expand(defs, copy, hidden + {x});
      if k < |first| {
        NoBuiltinLeft(defs, copy, hidden + {x}, k);
      } else {
        NoBuiltinLeft(defs, ts[1..], hidden, k - |first|);
      }
    } else if k > 0 {
      NoBuiltinLeft(defs, ts[1..], hidden, k - 1);
    }
  }

  ghost predicate Comes(defs: Defs, ts: seq<Node>, t: Tok) {
    (exists i :: 0 <= i < |ts| && ts[i].tok == t) || (exists x :: x in defs && t in defs[x])
  }

  /** Before the first marker the two notions agree; the marker takes its name out of the hidden set. */
  lemma {:induction false} MarkerEnds(defs: Defs, ts: seq<Node>, marker: Node, rest: seq<Node>, hidden: set<string>)
    requires AllPlain(ts) && marker.tok.Reenabler? && marker.tok.macro in hidden
    ensures var left := hidden - {marker.tok.macro};
      && ExpandMarked(defs, ts + [marker] + rest, hidden) == Expand(defs, ts, hidden) + ExpandMarked(defs, rest, left)
      && WorkMarked(defs, ts + [marker] + rest, hidden) == Work(defs, ts, hidden) + 1 + WorkMarked(defs, rest, left)
    decreases |ts|
  {
    var all := ts + [marker] + rest;
    if ts == [] {
      assert all[1..] == rest && all[0] == marker;
    } else {
      assert all[0] == ts[0] && all[1..] == ts[1..] + [marker] + rest;
      MarkerEnds(defs, ts[1..], marker, rest, hidden);
    }
  }

  /** A line without markers. */
  lemma {:induction false} NoMarkers(defs: Defs, ts: seq<Node>, hidden: set<string>)
    requires AllPlain(ts)
    ensures ExpandMarked(defs, ts, hidden) == Expand(defs, ts, hidden)
    decreases |ts|
  {
    if ts != [] {
      NoMarkers(defs, ts[1..], hidden);
    }
  }

  /** Replacing a name in the marked list leaves its meaning alone and takes work off it. */
  lemma ReplaceKeepsMeaning(defs: Defs, head: Node, rest: seq<Node>, hidden: set<string>)
    requires PlainDefs(defs) && Expandable(defs, head.tok, hidden)
    ensures var x := head.tok.name;
      var spliced := Copy(defs[x], head.loc) + [Node(Reenabler(x), head.loc, false)] + rest;
      && ExpandMarked(defs, spliced, hidden + {x}) == ExpandMarked(defs, [head] + rest, hidden)
      && WorkMarked(defs, spliced, hidden + {x}) < WorkMarked(defs, [head] + rest, hidden)
  {
    var x := head.tok.name;
    MarkerEnds(defs, Copy(defs[x], head.loc), Node(Reenabler(x), head.loc, false), rest, hidden + {x});
    assert hidden + {x} - {x} == hidden;
    assert ([head] + rest)[1..] == rest;
  }

  /** The names the markers of a list make visible again. */
  function Markers(ts: seq<Node>): set<string> {
    set k | 0 <= k < |ts| && ts[k].tok.Reenabler? :: ts[k].tok.macro
  }

  // ------------------------------------------------------------------
  // Properties of the meaning
  // ------------------------------------------------------------------

  /** Macros that are not defined change nothing. */
  lemma {:induction false} NothingDefined(ts: seq<Node>, hidden: set<string>)
    ensures |Expand(map[], ts, hidden)| == |ts|
    ensures forall k :: 0 <= k < |ts| ==> Expand(map[], ts, hidden)[k] == Passed(ts[k])
    decreases |ts|
  {
    if ts != [] {
      NothingDefined(ts[1..], hidden);
    }
  }

  lemma {:induction false} ExpandConcat(defs: Defs, a: seq<Node>, b: seq<Node>, hidden: set<string>)
    ensures Expand(defs, a + b, hidden) == Expand(defs, a, hidden) + Expand(defs, b, hidden)
    decreases |a|
  {
    if a == [] {
      assert a + b == b;
    } else {
      assert (a + b)[1..] == a[1..] + b;
      ExpandConcat(defs, a[1..], b, hidden);
    }
  }

  // ------------------------------------------------------------------
  // The preprocessor
  // ------------------------------------------------------------------

  datatype Macro = Macro(rep: seq<Tok>, enabled: bool)

  type Table = map<string, Macro>

  function DefsOf(macros: Table): Defs { map x | x in macros :: macros[x].rep }

  function DisabledOf(macros: Table): set<string> { set x | x in macros && !macros[x].enabled }

  /** The tokens that are left when the deleted ones are dropped. */
  function Kept(ts: seq<Node>): seq<Node> {
    if ts == [] then []
    else Kept(ts[..|ts| - 1]) + (if ts[|ts| - 1].deleted then [] else [ts[|ts| - 1]])
  }

  /** The part of a line still to be processed: plain tokens and markers, one for each disabled macro. */
  predicate Pending(ts: seq<Node>, macros: Table) {
    && (forall k :: 0 <= k < |ts| ==> !ts[k].tok.NewLine? && !ts[k].deleted)
    && DisabledOf(macros) <= Markers(ts)
  }

  /** One token was processed: it became `head` and the rest of the line became `after`. */
  predicate Advances(before: seq<Node>, macros: Table, head: Node, after: seq<Node>, macros': Table) {
    && DefsOf(macros') == DefsOf(macros)
    && Kept([head]) + ExpandMarked(DefsOf(macros), after, DisabledOf(macros'))
       == ExpandMarked(DefsOf(macros), before, DisabledOf(macros))
    && WorkMarked(DefsOf(macros), after, DisabledOf(macros')) < WorkMarked(DefsOf(macros), before, DisabledOf(macros))
    && Pending(after, macros')
  }

  lemma MarkersTail(ts: seq<Node>)
    requires ts != []
    ensures Markers(ts) == (if ts[0].tok.Reenabler? then {ts[0].tok.macro} else {}) + Markers(ts[1..])
  {
    forall x | x in Markers(ts) ensures x in (if ts[0].tok.Reenabler? then {ts[0].tok.macro} else {})
        + Markers(ts[1..]) {
      var k :| 0 <= k < |ts| && ts[k].tok.Reenabler? && ts[k].tok.macro == x;
      assert k > 0 ==> ts[1..][k - 1] == ts[k];
    }
    forall x | x in Markers(ts[1..]) ensures x in Markers(ts) {
      var k :| 0 <= k < |ts[1..]| && ts[1..][k].tok.Reenabler? && ts[1..][k].tok.macro == x;
      assert ts[k + 1] == ts[1..][k];
    }
  }

  lemma OneKept(n: Node)
    ensures Kept([n]) == if n.deleted then [] else [n]
  {
    assert [n][..0] == [];
  }

  /** A token that is no enabled macro name, and no marker. */
  lemma AdvancePlain(ts: seq<Node>, macros: Table)
    requires Pending(ts, macros) && ts != [] && !ts[0].tok.Reenabler?
    requires !Expandable(DefsOf(macros), ts[0].tok, DisabledOf(macros))
    ensures Advances(ts, macros, Passed(ts[0]), ts[1..], macros)
  {
    MarkersTail(ts);
    OneKept(Passed(ts[0]));
  }

  /** A marker. */
  lemma AdvanceMarker(ts: seq<Node>, macros: Table, macros': Table)
    requires Pending(ts, macros) && ts != [] && ts[0].tok.Reenabler?
    requires macros' == Enable(macros, ts[0].tok.macro)
    ensures Advances(ts, macros, ts[0].(deleted := true), ts[1..], macros')
  {
    MarkersTail(ts);
    OneKept(ts[0].(deleted := true));
    EnableSets(macros, ts[0].tok.macro, true);
  }

  function Enable(macros: Table, x: string): Table { Switch(macros, x, true) }

  function Switch(macros: Table, x: string, on: bool): Table {
    if x in macros then macros[x := macros[x].(enabled := on)] else macros
  }

  lemma EnableSets(macros: Table, x: string, on: bool)
    ensures DefsOf(Switch(macros, x, on)) == DefsOf(macros)
    ensures on ==> DisabledOf(Switch(macros, x, on)) == DisabledOf(macros) - {x}
    ensures !on && x in macros ==> DisabledOf(Switch(macros, x, on)) == DisabledOf(macros) + {x}
  {
  }

  /** A macro with an empty replacement list. */
  lemma AdvanceEmpty(ts: seq<Node>, macros: Table)
    requires Pending(ts, macros) && ts != [] && Expandable(DefsOf(macros), ts[0].tok, DisabledOf(macros))
    requires macros[ts[0].tok.name].rep == []
    ensures Advances(ts, macros, ts[0].(deleted := true), ts[1..], macros)
  {
    MarkersTail(ts);
    OneKept(ts[0].(deleted := true));
    var x := ts[0].tok.name;
    assert Copy(DefsOf(macros)[x], ts[0].loc) == [];
    assert Expand(DefsOf(macros), [], DisabledOf(macros) + {x}) == [];
  }

  /** A macro whose replacement list is spliced in, with the marker behind it. */
  lemma AdvanceMacro(ts: seq<Node>, macros: Table, after: seq<Node>)
    requires Pending(ts, macros) && ts != [] && Expandable(DefsOf(macros), ts[0].tok, DisabledOf(macros))
             && PlainDefs(DefsOf(macros))
    requires var x := ts[0].tok.name;
      after == Copy(macros[x].rep, ts[0].loc) + [Node(Reenabler(x), ts[0].loc, false)] + ts[1..]
    ensures Advances(ts, macros, ts[0].(deleted := true), after, Switch(macros, ts[0].tok.name, false))
  {
    var x := ts[0].tok.name;
    var macros' := Switch(macros, x, false);
    OneKept(ts[0].(deleted := true));
    EnableSets(macros, x, false);
    ReplaceKeepsMeaning(DefsOf(macros), ts[0], ts[1..], DisabledOf(macros));
    assert [ts[0]] + ts[1..] == ts;
    MarkersSpliced(Copy(macros[x].rep, ts[0].loc), Node(Reenabler(x), ts[0].loc, false), ts[1..]);
    MarkersTail(ts);
  }

  lemma MarkersSpliced(copy: seq<Node>, marker: Node, rest: seq<Node>)
    requires marker.tok.Reenabler?
    ensures Markers(rest) + {marker.tok.macro} <= Markers(copy + [marker] + rest)
  {
    var after, n := copy + [marker] + rest, |copy|;
    assert after[n] == marker;
    forall y | y in Markers(rest) ensures y in Markers(after) {
      var k :| 0 <= k < |rest| && rest[k].tok.Reenabler? && rest[k].tok.macro == y;
      assert after[n + 1 + k] == rest[k];
    }
  }

  lemma KeptConcat(a: seq<Node>, n: Node)
    ensures Kept(a + [n]) == Kept(a) + Kept([n])
  {
    OneKept(n);
    assert (a + [n])[..|a|] == a;
  }

  class Preprocessor {
    var toks: seq<Node>
    var pos: nat
    var macros: Table

    constructor (input: seq<Node>, table: Table)
      ensures toks == input && pos == 0 && macros == table
    {
      toks, pos, macros := input, 0, table;
    }

    /** The token at hand becomes `n`, and the next one is at hand. */
    method Match(n: Node)
      requires pos < |toks|
      modifies this`toks, this`pos
      ensures pos == old(pos) + 1 <= |toks|
      ensures toks[..pos] == old(toks)[..old(pos)] + [n] && toks[pos..] == old(toks)[pos..]
    {
      toks := toks[pos := n];
      pos := pos + 1;
    }

    method ReenableMacro(name: string)
      modifies this`macros
      ensures macros == Enable(old(macros), name)
    {
      if name in macros {
        macros := macros[name := macros[name].(enabled := true)];
      }
    }

    /** The copy of the replacement list goes between the name and the next token, with a marker behind it. */
    method ExpandSimpleMacro(name: string)
      requires pos < |toks| && name in macros
      modifies this
      ensures pos == old(pos) + 1 <= |toks|
      ensures macros == if old(macros)[name].rep == [] then old(macros) else Switch(old(macros), name, false)
      ensures toks[..pos] == old(toks)[..old(pos)] + [old(toks)[old(pos)].(deleted := true)]
      ensures var loc, rep := old(toks)[old(pos)].loc, old(macros)[name].rep;
        toks[pos..] == (if rep == [] then [] else Copy(rep, loc) + [Node(Reenabler(name), loc, false)])
            + old(toks)[old(pos) + 1..]
    {
      var r := Copy(macros[name].rep, toks[pos].loc);
      if r != [] {
        r := r + [Node(Reenabler(name), toks[pos].loc, false)];
        toks := toks[..pos + 1] + r + toks[pos + 1..];
        macros := macros[name := macros[name].(enabled := false)];
      }
      Match(toks[pos].(deleted := true));
    }

    /** `preprocessing_token`, for the rest of a line and what follows the line. */
    method PreprocessingToken(skip: bool, ghost line: seq<Node>, ghost tail: seq<Node>)
      returns (ghost head: Node, ghost line': seq<Node>)
      requires pos < |toks| && toks[pos..] == line + tail && line != []
      requires Pending(line, macros) && PlainDefs(DefsOf(macros))
      modifies this
      ensures pos == old(pos) + 1 <= |toks| && toks[..pos] == old(toks)[..old(pos)] + [head]
              && toks[pos..] == line' + tail
      ensures !skip ==> Advances(line, old(macros), head, line', macros)
      ensures skip ==> head == line[0].(deleted := true) && line' == line[1..] && macros == old(macros)
    {
      hide Advances, Pending, PlainDefs, DefsOf, DisabledOf, Expandable;
      head, line' := line[0], line[1..];
      var n := toks[pos];
      assert n == line[0] && toks[pos + 1..] == line[1..] + tail;
      if skip {
        head := n.(deleted := true);
        Match(n.(deleted := true));
      } else if n.tok.Id? && n.tok.name == "__FILE__" {
        SpecialName(macros, n.tok);
        AdvancePlain(line, macros);
        head := Passed(n);
        Match(n.(tok := StrLit("\"" + n.loc.file + "\"")));
      } else if n.tok.Id? && n.tok.name == "__LINE__" {
        SpecialName(macros, n.tok);
        AdvancePlain(line, macros);
        head := Passed(n);
        Match(n.(tok := Number(n.loc.line)));
      } else if n.tok.Id? && n.tok.name in macros && macros[n.tok.name].enabled {
        LookupSpec(macros, n.tok);
        head := n.(deleted := true);
        line' := ExpandedLine(line, macros);
        AdvanceExpanded(line, macros);
        ExpandSimpleMacro(n.tok.name);
      } else if n.tok.Reenabler? {
        AdvanceMarker(line, macros, Enable(macros, n.tok.macro));
        head := n.(deleted := true);
        ReenableMacro(n.tok.macro);
        Match(n.(deleted := true));
      } else {
        LookupSpec(macros, n.tok);
        AdvancePlain(line, macros);
        Match(n);
      }
    }

    /** `pp_tokens`: the tokens of a line, up to the new-line token. */
    method PpTokens(skip: bool, ghost line: seq<Node>, ghost tail: seq<Node>) returns (ghost done: seq<Node>)
      requires pos < |toks| && toks[pos..] == line + tail && line != [] && AllPlain(line) && tail != []
               && tail[0].tok.NewLine?
      requires DisabledOf(macros) == {} && PlainDefs(DefsOf(macros))
      modifies this
      ensures pos == old(pos) + |done| < |toks| && toks == old(toks)[..old(pos)] + done + tail && toks[pos].tok.NewLine?
      ensures DisabledOf(macros) == {} && DefsOf(macros) == DefsOf(old(macros))
      ensures Kept(done) == if skip then [] else Expand(DefsOf(macros), line, {})
    {
      hide Advances, Pending, DefsOf, DisabledOf, ExpandMarked, Expand, WorkMarked, AllPlain;
      ghost var rest := line;
      done := [];
      ghost var defs := DefsOf(macros);
      StartPending(line, macros);
      var more := true;
      while more
        invariant pos == old(pos) + |done| <= |toks| && toks[..pos] == old(toks)[..old(pos)] + done
                  && toks[pos..] == rest + tail
        invariant Pending(rest, macros) && DefsOf(macros) == defs
        invariant !skip ==> Kept(done) + ExpandMarked(defs, rest, DisabledOf(macros)) == Expand(defs, line, {})
        invariant skip ==> Kept(done) == [] && DisabledOf(macros) == {}
        invariant more <==> rest != []
        decreases if skip then |rest| else WorkMarked(defs, rest, DisabledOf(macros))
      {
        ghost var before, was := rest, macros;
        ghost var h;
        h, rest := PreprocessingToken(skip, rest, tail);
        if skip {
          DropFirst(before, macros);
          KeptConcat(done, h);
          OneKept(h);
        } else {
          UseAdvance(before, was, h, rest, macros, done);
        }
        done := done + [h];
        more := !toks[pos].tok.NewLine?;
        AtLineEnd(rest, tail, macros);
      }
      EndOfLine(defs, macros);
    }
  }

  /** The line after the expansion of its first token. */
  function ExpandedLine(line: seq<Node>, macros: Table): seq<Node>
    requires line != [] && line[0].tok.Id? && line[0].tok.name in macros
  {
    var x := line[0].tok.name;
    (if macros[x].rep == [] then [] else Copy(macros[x].rep, line[0].loc) + [Node(Reenabler(x), line[0].loc, false)])
        + line[1..]
  }

  lemma AdvanceExpanded(line: seq<Node>, macros: Table)
    requires Pending(line, macros) && line != [] && Expandable(DefsOf(macros), line[0].tok, DisabledOf(macros))
             && PlainDefs(DefsOf(macros))
    ensures line[0].tok.name in macros
    ensures Advances(line, macros, line[0].(deleted := true), ExpandedLine(line, macros),
                     if macros[line[0].tok.name].rep == [] then macros else Switch(macros, line[0].tok.name, false))
  {
    hide Advances, Pending;
    if macros[line[0].tok.name].rep == [] {
      assert ExpandedLine(line, macros) == line[1..];
      AdvanceEmpty(line, macros);
    } else {
      AdvanceMacro(line, macros, ExpandedLine(line, macros));
    }
  }

  lemma StartPending(line: seq<Node>, macros: Table)
    requires AllPlain(line) && DisabledOf(macros) == {}
    ensures Pending(line, macros) && Kept([]) == [] && ExpandMarked(DefsOf(macros), line, {})
            == Expand(DefsOf(macros), line, {})
  {
    NoMarkers(DefsOf(macros), line, {});
  }

  /** On a skipped line a token is dropped. */
  lemma DropFirst(line: seq<Node>, macros: Table)
    requires Pending(line, macros) && line != [] && DisabledOf(macros) == {}
    ensures Pending(line[1..], macros)
  {
  }

  lemma UseAdvance(before: seq<Node>, was: Table, head: Node, after: seq<Node>, now: Table, done: seq<Node>)
    requires Advances(before, was, head, after, now)
    ensures DefsOf(now) == DefsOf(was) && Pending(after, now)
    ensures Kept(done + [head]) + ExpandMarked(DefsOf(was), after, DisabledOf(now)) == Kept(done)
            + ExpandMarked(DefsOf(was), before, DisabledOf(was))
    ensures WorkMarked(DefsOf(was), after, DisabledOf(now)) < WorkMarked(DefsOf(was), before, DisabledOf(was))
  {
    hide ExpandMarked, WorkMarked, DefsOf, DisabledOf, Kept, Pending;
    KeptConcat(done, head);
    Regroup(Kept(done), Kept([head]), ExpandMarked(DefsOf(was), after, DisabledOf(now)));
  }

  lemma Regroup(a: seq<Node>, b: seq<Node>, c: seq<Node>)
    ensures a + b + c == a + (b + c)
  {
  }

  /** A new-line token is seen exactly when the line is used up. */
  lemma AtLineEnd(rest: seq<Node>, tail: seq<Node>, macros: Table)
    requires Pending(rest, macros) && tail != [] && tail[0].tok.NewLine?
    ensures (rest + tail)[0].tok.NewLine? <==> rest == []
  {
  }

  /** At the end of the line every marker has been passed, so every macro is enabled. */
  lemma EndOfLine(defs: Defs, macros: Table)
    requires Pending([], macros)
    ensures DisabledOf(macros) == {} && ExpandMarked(defs, [], {}) == []
  {
  }

  lemma SpecialName(macros: Table, t: Tok)
    requires t == Id("__FILE__") || t == Id("__LINE__")
    ensures !Expandable(DefsOf(macros), t, DisabledOf(macros))
  {
  }

  /** The table finds exactly the names that may be expanded. */
  lemma LookupSpec(macros: Table, t: Tok)
    requires t != Id("__FILE__") && t != Id("__LINE__")
    ensures t.Id? && t.name in macros && macros[t.name].enabled <==> Expandable(DefsOf(macros), t, DisabledOf(macros))
  {
  }
}
