/** The dispatch code of a switch statement: a range-checked jump table or a linear search. */
module JumpTable {

  const JMP_TAB_MIN_SIZ := 3
  const JMP_TAB_MAX_HOLES := 10
  const TWO32 := 0x1_0000_0000
  const INT_MAX := 0x7fff_ffff

  datatype Option<+T> = None | Some(value: T)

  /** A case value, which is a long long, and its label. */
  datatype Case = Case(val: int, target: nat)

  predicate IsInt(x: int) { -INT_MAX - 1 <= x <= INT_MAX }

  /** Conversion to a 32-bit int. */
  function ToInt(x: int): (r: int)
    ensures IsInt(r) && (IsInt(x) ==> r == x)
  {
    var w := x % TWO32;
    if w <= INT_MAX then w else w - TWO32
  }

  // ------------------------------------------------------------------
  // The instructions used
  // ------------------------------------------------------------------

  datatype Instr = Cmp(v: int) | Bgt(l: nat) | Blt(l: nat) | Beq(l: nat) | B(l: nat) | Sub(v: int) | Table(ls: seq<nat>)

  /**
   * Where control goes with r in the scrutinee's register and c the last value compared with. Behind the table, or past
   * the end of the code, it goes nowhere known.
   */
  function Run(code: seq<Instr>, r: int, c: int): Option<nat>
    decreases |code|
  {
    if code == [] then None
    else
      match code[0]
      case Cmp(v) => Run(code[1..], r, ToInt(v))
      case Bgt(l) => if r > c then Some(l) else Run(code[1..], r, c)
      case Blt(l) => if r < c then Some(l) else Run(code[1..], r, c)
      case Beq(l) => if r == c then Some(l) else Run(code[1..], r, c)
      case B(l) => Some(l)
      case Sub(v) => Run(code[1..], ToInt(r - v), c)
      case Table(ls) => var k := r % TWO32; if k < |ls| then Some(ls[k]) else None
  }

  // ------------------------------------------------------------------
  // The meaning of switch
  // ------------------------------------------------------------------

  predicate Distinct(cases: seq<Case>) {
    forall i, j :: 0 <= i < j < |cases| ==> cases[i].val != cases[j].val
  }

  predicate AllInt(cases: seq<Case>) { forall i :: 0 <= i < |cases| ==> IsInt(cases[i].val) }

  /** The label of the matching case, or the default. */
  function Search(cases: seq<Case>, def: nat, x: int): nat {
    if cases == [] then def
    else if cases[0].val == x then cases[0].target
    else Search(cases[1..], def, x)
  }

  lemma {:induction false} SearchFinds(cases: seq<Case>, def: nat, x: int, i: nat)
    requires Distinct(cases) && i < |cases| && cases[i].val == x
    ensures Search(cases, def, x) == cases[i].target
    decreases i
  {
    if i > 0 {
      assert cases[0].val != cases[i].val;
      assert forall a, b :: 0 <= a < b < |cases[1..]| ==>
        cases[1..][a] == cases[a + 1] && cases[1..][b] == cases[b + 1];
      SearchFinds(cases[1..], def, x, i - 1);
    }
  }

  lemma {:induction false} SearchMisses(cases: seq<Case>, def: nat, x: int)
    requires forall i :: 0 <= i < |cases| ==> cases[i].val != x
    ensures Search(cases, def, x) == def
  {
    if cases != [] {
      assert forall i :: 0 <= i < |cases[1..]| ==> cases[1..][i] == cases[i + 1];
      SearchMisses(cases[1..], def, x);
    }
  }

  // ------------------------------------------------------------------
  // Linear search
  // ------------------------------------------------------------------

  function Linear(cases: seq<Case>, def: nat): seq<Instr> {
    if cases == [] then [B(def)] else [Cmp(cases[0].val), Beq(cases[0].target)] + Linear(cases[1..], def)
  }

  lemma {:induction false} LinearSearches(cases: seq<Case>, def: nat, x: int, c: int)
    requires AllInt(cases)
    ensures Run(Linear(cases, def), x, c) == Some(Search(cases, def, x))
  {
    if cases != [] {
      var code := Linear(cases, def);
      var rest := Linear(cases[1..], def);
      assert code[1..] == [Beq(cases[0].target)] + rest && code[1..][1..] == rest;
      LinearSearches(cases[1..], def, x, cases[0].val);
    }
  }

  method EmitLinear(cases: seq<Case>, def: nat) returns (code: seq<Instr>)
    ensures code == Linear(cases, def)
  {
    code := [];
    var i := 0;
    assert cases[0..] == cases;
    while i < |cases|
      invariant 0 <= i <= |cases| && code + Linear(cases[i..], def) == Linear(cases, def)
    {
      assert cases[i..][1..] == cases[i + 1..];
      code := code + [Cmp(cases[i].val), Beq(cases[i].target)];
      i := i + 1;
    }
    code := code + [B(def)];
  }

  // ------------------------------------------------------------------
  // The jump table
  // ------------------------------------------------------------------

  ghost predicate Bounds(cases: seq<Case>, min: int, max: int) {
    && (forall i :: 0 <= i < |cases| ==> min <= cases[i].val <= max)
    && (exists i :: 0 <= i < |cases| && cases[i].val == min)
    && (exists i :: 0 <= i < |cases| && cases[i].val == max)
  }

  /** The scan for the smallest and largest value. The variables are ints. */
  method FindBounds(cases: seq<Case>) returns (min: int, max: int)
    requires |cases| > 0 && AllInt(cases)
    ensures Bounds(cases, min, max)
  {
    min, max := ToInt(cases[0].val), ToInt(cases[0].val);
    var i := 1;
    while i < |cases|
      invariant 1 <= i <= |cases|
      invariant forall k :: 0 <= k < i ==> min <= cases[k].val <= max
      invariant (exists k :: 0 <= k < i && cases[k].val == min) && (exists k :: 0 <= k < i && cases[k].val == max)
    {
      if cases[i].val < min {
        min := ToInt(cases[i].val);
      } else if cases[i].val > max {
        max := ToInt(cases[i].val);
      }
      i := i + 1;
    }
  }

  function Empties(t: seq<Option<nat>>): nat {
    if t == [] then 0 else (if t[0].None? then 1 else 0) + Empties(t[1..])
  }

  lemma {:induction false} EmptiesUpdate(t: seq<Option<nat>>, k: nat, l: nat)
    requires k < |t| && t[k].None?
    ensures Empties(t[k := Some(l)]) == Empties(t) - 1
  {
    if k == 0 {
      assert t[0 := Some(l)][1..] == t[1..];
    } else {
      assert t[k := Some(l)][1..] == t[1..][k - 1 := Some(l)];
      EmptiesUpdate(t[1..], k - 1, l);
    }
  }

  lemma {:induction false} EmptiesAll(t: seq<Option<nat>>)
    requires forall k :: 0 <= k < |t| ==> t[k].None?
    ensures Empties(t) == |t|
  {
    if t != [] {
      EmptiesAll(t[1..]);
    }
  }

  lemma {:induction false} NoEmpties(t: seq<Option<nat>>)
    requires Empties(t) == 0
    ensures forall k :: 0 <= k < |t| ==> t[k].Some?
  {
    if t != [] {
      NoEmpties(t[1..]);
      forall k | 0 <= k < |t| ensures t[k].Some? {
        assert k > 0 ==> t[k] == t[1..][k - 1];
      }
    }
  }

  predicate Fills(c: Case, min: int, t: seq<Option<nat>>) {
    0 <= c.val - min < |t| && t[c.val - min] == Some(c.target)
  }

  predicate AtSlot(c: Case, min: int, k: int) { c.val == min + k }

  /** The slots of the cases seen so far are filled, the others are empty. */
  ghost predicate Placed(cases: seq<Case>, n: nat, min: int, t: seq<Option<nat>>) {
    && n <= |cases|
    && (forall i {:trigger Fills(cases[i], min, t)} :: 0 <= i < n ==> Fills(cases[i], min, t))
    && (forall k :: 0 <= k < |t| && t[k].Some? ==> Owned(cases, n, min, k))
  }

  /** Slot k belongs to one of the first n cases. */
  ghost predicate Owned(cases: seq<Case>, n: nat, min: int, k: int)
    requires n <= |cases|
  {
    exists i :: 0 <= i < n && AtSlot(cases[i], min, k)
  }

  lemma PlaceOne(cases: seq<Case>, n: nat, min: int, t: seq<Option<nat>>)
    requires Placed(cases, n, min, t) && n < |cases| && Distinct(cases) && 0 <= cases[n].val - min < |t|
    ensures t[cases[n].val - min].None?
    ensures Placed(cases, n + 1, min, t[cases[n].val - min := Some(cases[n].target)])
  {
    var k := cases[n].val - min;
    var t' := t[k := Some(cases[n].target)];
    forall i | 0 <= i < n ensures !AtSlot(cases[i], min, k) {
      assert cases[i].val != cases[n].val;
    }
    assert !Owned(cases, n, min, k);
    hide Distinct;
    forall i | 0 <= i < n + 1 ensures Fills(cases[i], min, t') {
      if i < n {
        assert Fills(cases[i], min, t) && !AtSlot(cases[i], min, k);
      }
    }
    assert AtSlot(cases[n], min, k);
    forall j | 0 <= j < |t'| && t'[j].Some? ensures Owned(cases, n + 1, min, j) {
      if j != k {
        assert t'[j] == t[j];
        OwnedGrows(cases, n, min, j);
      }
    }
  }

  lemma OwnedGrows(cases: seq<Case>, n: nat, min: int, k: int)
    requires n < |cases| && Owned(cases, n, min, k)
    ensures Owned(cases, n + 1, min, k)
  {
  }

  /** The labels of the cases in their slots, the default's in all others. */
  ghost predicate Complete(cases: seq<Case>, def: nat, min: int, ls: seq<nat>) {
    forall k :: 0 <= k < |ls| ==> ls[k] == Search(cases, def, min + k)
  }

  method BuildTable(cases: seq<Case>, def: nat, min: int, max: int, interval: nat, holes0: int) returns (ls: seq<nat>)
    requires Distinct(cases) && Bounds(cases, min, max) && interval == max - min + 1 && holes0 == interval - |cases|
    ensures |ls| == interval && Complete(cases, def, min, ls)
  {
    var tab := new Option<nat>[interval](_ => None);
    EmptiesAll(tab[..]);
    PlaceCases(cases, min, max, tab);
    FillHoles(cases, def, min, tab, holes0);
    ls := EmitTable(cases, def, min, tab);
  }

  method EmitTable(ghost cases: seq<Case>, ghost def: nat, ghost min: int, tab: array<Option<nat>>)
    returns (ls: seq<nat>)
    requires forall k :: 0 <= k < tab.Length ==> tab[k] == Some(Search(cases, def, min + k))
    ensures |ls| == tab.Length && Complete(cases, def, min, ls)
  {
    hide Search;
    ls := [];
    var i := 0;
    while i < tab.Length
      invariant 0 <= i <= tab.Length && |ls| == i && Complete(cases, def, min, ls)
    {
      ls := ls + [tab[i].value];
      i := i + 1;
    }
  }

  method PlaceCases(cases: seq<Case>, min: int, max: int, tab: array<Option<nat>>)
    requires Distinct(cases) && Bounds(cases, min, max) && tab.Length == max - min + 1
    requires Empties(tab[..]) == tab.Length && forall k :: 0 <= k < tab.Length ==> tab[k].None?
    modifies tab
    ensures Placed(cases, |cases|, min, tab[..]) && Empties(tab[..]) == tab.Length - |cases|
  {
    var i := 0;
    while i < |cases|
      invariant 0 <= i <= |cases| && Placed(cases, i, min, tab[..]) && Empties(tab[..]) == tab.Length - i
    {
      ghost var t := tab[..];
      PlaceOne(cases, i, min, t);
      EmptiesUpdate(t, cases[i].val - min, cases[i].target);
      tab[cases[i].val - min] := Some(cases[i].target);
      assert tab[..] == t[cases[i].val - min := Some(cases[i].target)];
      i := i + 1;
    }
  }

  lemma EmptiesNext(t: seq<Option<nat>>)
    requires Empties(t) != 0
    ensures t != [] && Empties(t[1..]) == Empties(t) - if t[0].None? then 1 else 0
  {
  }

  /** The loop has no bound but the number of holes. */
  method FillHoles(cases: seq<Case>, def: nat, min: int, tab: array<Option<nat>>, holes0: int)
    requires Distinct(cases) && Placed(cases, |cases|, min, tab[..]) && holes0 == Empties(tab[..])
    modifies tab
    ensures forall k :: 0 <= k < tab.Length ==> tab[k] == Some(Search(cases, def, min + k))
  {
    hide Search, Distinct, Placed, Empties;
    ghost var t0 := tab[..];
    var holes, i := holes0, 0;
    while holes != 0
      invariant 0 <= i <= tab.Length && holes == Empties(tab[i..])
      invariant forall k :: 0 <= k < i ==> tab[k] == Some(if t0[k].Some? then t0[k].value else def)
      invariant forall k :: i <= k < tab.Length ==> tab[k] == t0[k]
      decreases tab.Length - i
    {
      EmptiesNext(tab[i..]);
      assert tab[i..][1..] == tab[i + 1..];
      ghost var rest := tab[i + 1..];
      if tab[i].None? {
        tab[i] := Some(def);
        holes := holes - 1;
      }
      assert tab[i + 1..] == rest;
      i := i + 1;
    }
    NoEmpties(tab[i..]);
    forall k | 0 <= k < tab.Length ensures tab[k] == Some(Search(cases, def, min + k)) {
      SlotIsSearch(cases, def, min, t0, k);
      assert k >= i ==> tab[k] == t0[k] && tab[i..][k - i] == tab[k];
    }
  }

  lemma SlotIsSearch(cases: seq<Case>, def: nat, min: int, t: seq<Option<nat>>, k: nat)
    requires Distinct(cases) && Placed(cases, |cases|, min, t) && k < |t|
    ensures Search(cases, def, min + k) == if t[k].Some? then t[k].value else def
  {
    if t[k].Some? {
      var i :| 0 <= i < |cases| && AtSlot(cases[i], min, k);
      assert Fills(cases[i], min, t);
      SearchFinds(cases, def, min + k, i);
    } else {
      forall i | 0 <= i < |cases| ensures cases[i].val != min + k {
        assert Fills(cases[i], min, t);
      }
      SearchMisses(cases, def, min + k);
    }
  }

  // ------------------------------------------------------------------
  // The choice
  // ------------------------------------------------------------------

  function TableCode(def: nat, min: int, max: int, ls: seq<nat>): seq<Instr> {
    [Cmp(max), Bgt(def), Cmp(min), Blt(def)] + (if min != 0 then [Sub(min)] else []) + [Table(ls)]
  }

  /** Range check and table lead where the search would, for every value of the scrutinee. */
  lemma TableSearches(cases: seq<Case>, def: nat, min: int, max: int, ls: seq<nat>, x: int, c: int)
    requires AllInt(cases) && Bounds(cases, min, max) && |ls| == max - min + 1 && Complete(cases, def, min, ls)
             && IsInt(x)
    ensures Run(TableCode(def, min, max, ls), x, c) == Some(Search(cases, def, x))
  {
    RunTable(def, min, max, ls, x, c);
    if x < min || x > max {
      SearchMisses(cases, def, x);
    } else {
      assert ls[x - min] == Search(cases, def, min + (x - min));
    }
  }

  lemma RunTable(def: nat, min: int, max: int, ls: seq<nat>, x: int, c: int)
    requires IsInt(min) && IsInt(max) && IsInt(x) && |ls| == max - min + 1
    ensures Run(TableCode(def, min, max, ls), x, c) == Some(if x < min || x > max then def else ls[x - min])
  {
    var tail := (if min != 0 then [Sub(min)] else []) + [Table(ls)];
    assert TableCode(def, min, max, ls) == [Cmp(max)] + ([Bgt(def)] + ([Cmp(min)] + ([Blt(def)] + tail)));
    RunFirst(Cmp(max), [Bgt(def)] + ([Cmp(min)] + ([Blt(def)] + tail)), x, c);
    RunFirst(Bgt(def), [Cmp(min)] + ([Blt(def)] + tail), x, max);
    RunFirst(Cmp(min), [Blt(def)] + tail, x, max);
    RunFirst(Blt(def), tail, x, min);
    hide Run;
    if min <= x <= max {
      RunTail(min, ls, x, min);
    }
  }

  lemma RunFirst(i: Instr, rest: seq<Instr>, x: int, c: int)
    ensures Run([i] + rest, x, c) ==
      match i
      case Cmp(v) => Run(rest, x, ToInt(v))
      case Bgt(l) => if x > c then Some(l) else Run(rest, x, c)
      case Blt(l) => if x < c then Some(l) else Run(rest, x, c)
      case Beq(l) => if x == c then Some(l) else Run(rest, x, c)
      case B(l) => Some(l)
      case Sub(v) => Run(rest, ToInt(x - v), c)
      case Table(ls) => var k := x % TWO32; if k < |ls| then Some(ls[k]) else None
  {
    assert ([i] + rest)[1..] == rest;
  }

  lemma RunTail(min: int, ls: seq<nat>, x: int, c: int)
    requires IsInt(min) && IsInt(x) && min <= x < min + |ls| <= min + TWO32
    ensures Run((if min != 0 then [Sub(min)] else []) + [Table(ls)], x, c) == Some(ls[x - min])
  {
    var table := [Table(ls)];
    if min == 0 {
      assert [] + table == table;
      assert x % TWO32 == x;
      assert Run(table, x, c) == Some(ls[x]);
    } else {
      assert ([Sub(min)] + table)[1..] == table;
      var r := ToInt(x - min);
      assert r % TWO32 == x - min;
      assert Run(table, r, c) == Some(ls[x - min]);
    }
  }

  /** The smallest and largest case value. */
  function Min(cases: seq<Case>): int
    requires cases != []
  {
    if |cases| == 1 then cases[0].val
    else
      var m := Min(cases[1..]);
      if cases[0].val < m then cases[0].val else m
  }

  function Max(cases: seq<Case>): int
    requires cases != []
  {
    if |cases| == 1 then cases[0].val
    else
      var m := Max(cases[1..]);
      if cases[0].val > m then cases[0].val else m
  }

  lemma {:induction false} BoundsAreMinMax(cases: seq<Case>, min: int, max: int)
    requires cases != [] && Bounds(cases, min, max)
    ensures min == Min(cases) && max == Max(cases)
  {
    MinMaxAreBounds(cases);
    var i :| 0 <= i < |cases| && cases[i].val == min;
    var j :| 0 <= j < |cases| && cases[j].val == max;
    var k :| 0 <= k < |cases| && cases[k].val == Min(cases);
    var l :| 0 <= l < |cases| && cases[l].val == Max(cases);
  }

  lemma {:induction false} MinMaxAreBounds(cases: seq<Case>)
    requires cases != []
    ensures Bounds(cases, Min(cases), Max(cases))
  {
    if |cases| == 1 {
      assert cases[0].val == Min(cases) == Max(cases);
    } else {
      var rest := cases[1..];
      MinMaxAreBounds(rest);
      var k :| 0 <= k < |rest| && rest[k].val == Min(rest);
      var l :| 0 <= l < |rest| && rest[l].val == Max(rest);
      assert cases[k + 1].val == Min(rest) && cases[l + 1].val == Max(rest);
      assert cases[0].val == Min(cases) || cases[k + 1].val == Min(cases);
      assert cases[0].val == Max(cases) || cases[l + 1].val == Max(cases);
      forall i | 0 <= i < |cases| ensures Min(cases) <= cases[i].val <= Max(cases) {
        assert i > 0 ==> cases[i] == rest[i - 1];
      }
    }
  }

  /** The size of the interval and the holes in it, as ints. */
  function Interval(cases: seq<Case>): int
    requires cases != []
  {
    ToInt(Max(cases) - Min(cases) + 1)
  }

  /** A table is chosen. */
  predicate Dense(cases: seq<Case>) {
    |cases| >= JMP_TAB_MIN_SIZ && ToInt(Interval(cases) - |cases|) <= JMP_TAB_MAX_HOLES
  }

  /** The interval is too wide for an int, and still the table is chosen: it would have a negative size. */
  predicate Overflows(cases: seq<Case>) { Dense(cases) && Max(cases) - Min(cases) >= INT_MAX }

  /** It happens: the values INT_MIN, 0 and INT_MAX, rising or falling. */
  lemma ThreeValuesOverflow(a: nat, b: nat, c: nat)
    ensures var cases := [Case(-INT_MAX - 1, a), Case(0, b), Case(INT_MAX, c)];
            Distinct(cases) && AllInt(cases) && Overflows(cases)
    ensures var cases := [Case(INT_MAX, a), Case(0, b), Case(-INT_MAX - 1, c)]; Overflows(cases)
  {
    var cases := [Case(-INT_MAX - 1, a), Case(0, b), Case(INT_MAX, c)];
    var back := [Case(INT_MAX, a), Case(0, b), Case(-INT_MAX - 1, c)];
    MinMaxAreBounds(cases);
    MinMaxAreBounds(back);
    assert cases[0].val == back[2].val == -INT_MAX - 1 && cases[2].val == back[0].val == INT_MAX;
    hide Min, Max;
  }

  /**
   * `arm_switch` for a 32-bit scrutinee. The code goes where the search would, for every value; it cannot be made
   * exactly if the width of the interval overflows.
   */
  method Switch(cases: seq<Case>, def: nat) returns (code: Option<seq<Instr>>)
    requires Distinct(cases) && AllInt(cases) && |cases| <= INT_MAX
    ensures code.None? <==> Overflows(cases)
    ensures code.Some? ==> forall x, c :: IsInt(x) ==> Run(code.value, x, c) == Some(Search(cases, def, x))
    ensures code.Some? && Dense(cases) ==>
              exists ls :: |ls| == Max(cases) - Min(cases) + 1
                           && code.value == TableCode(def, Min(cases), Max(cases), ls)
    ensures code.Some? && !Dense(cases) ==> code.value == Linear(cases, def)
  {
    if |cases| >= JMP_TAB_MIN_SIZ {
      var min, max := FindBounds(cases);
      BoundsAreMinMax(cases, min, max);
      var interval := ToInt(max - min + 1);
      var holes := ToInt(interval - |cases|);
      if holes <= JMP_TAB_MAX_HOLES {
        if interval <= 0 {
          return None;
        }
        SpanFits(cases, min, max);
        var ls := BuildTable(cases, def, min, max, interval, holes);
        forall x, c | IsInt(x) ensures Run(TableCode(def, min, max, ls), x, c) == Some(Search(cases, def, x)) {
          TableSearches(cases, def, min, max, ls, x, c);
        }
        var emitted := [Cmp(max), Bgt(def), Cmp(min), Blt(def)] + (if min != 0 then [Sub(min)] else []) + [Table(ls)];
        assert emitted == TableCode(def, min, max, ls);
        return Some(emitted);
      }
    }
    var linear := EmitLinear(cases, def);
    forall x, c ensures Run(linear, x, c) == Some(Search(cases, def, x)) {
      LinearSearches(cases, def, x, c);
    }
    return Some(linear);
  }

  /** Distinct values fill no more slots than the interval has; and a positive width did not wrap around. */
  lemma SpanFits(cases: seq<Case>, min: int, max: int)
    requires cases != [] && AllInt(cases) && Bounds(cases, min, max) && Distinct(cases) && |cases| <= INT_MAX
    ensures ToInt(max - min + 1) > 0 <==> max - min < INT_MAX
    ensures max - min < INT_MAX ==>
              ToInt(max - min + 1) == max - min + 1 && ToInt(max - min + 1 - |cases|) == max - min + 1 - |cases|
  {
    assert exists i :: 0 <= i < |cases| && cases[i].val == min;
    assert IsInt(min) && IsInt(max) && min <= max;
  }
}
