/** Literal pools: the assembler's `ldr Rd,=x` and `.ltorg`, and the rule by which the code generator places them. */
module LitPool {

  const TWO32 := 0x1_0000_0000
  const UP := 0x80_0000

  type Word = w: int | 0 <= w < TWO32

  datatype Option<+T> = None | Some(value: T)

  /** A load to be patched: the byte offsets of its literal in the pool and of the instruction, and a label if any. */
  datatype Load = Load(lit: nat, ldr: nat, lab: Option<string>)

  /** The word at offs gets the value of a label added later on. */
  datatype Fixup = Fixup(lab: string, offs: nat)

  /** What a load in the source asks for. */
  datatype Wanted = Wanted(ldr: nat, value: Word, lab: Option<string>)

  // ------------------------------------------------------------------
  // The load instruction
  // ------------------------------------------------------------------

  /** Offset and direction bits still clear. */
  predicate Unpatched(w: Word) { w % 4096 == 0 && w / UP % 2 == 0 }

  predicate InReach(offs: int) { -4096 < offs < 4096 }

  /** *ip |= OFFS(offs)|U or *ip |= OFFS(-offs); the bits are clear, so that adding them sets them. */
  function Patch(w: Word, offs: int): (r: Word)
    requires Unpatched(w) && InReach(offs)
  {
    PatchFits(w, offs);
    if offs > 0 then w + offs + UP else w - offs
  }

  /** An unpatched word, its direction bit and its offset bits taken apart. */
  lemma UnpatchedParts(w: Word) returns (hi: nat, mid: nat)
    requires Unpatched(w)
    ensures w == hi * UP + mid * 4096 && hi < 512 && mid < 2048 && hi % 2 == 0
  {
    hi, mid := w / UP, w % UP / 4096;
  }

  lemma PatchAhead(w: Word, offs: int)
    requires Unpatched(w) && 0 < offs < 4096
    ensures var r := w + offs + UP; r < TWO32 && r % 4096 == offs && r / UP % 2 == 1
  {
    var hi, mid := UnpatchedParts(w);
    assert w + offs + UP == (hi + 1) * UP + (mid * 4096 + offs);
  }

  lemma PatchBehind(w: Word, offs: int)
    requires Unpatched(w) && -4096 < offs <= 0
    ensures var r := w - offs; r < TWO32 && r % 4096 == -offs && r / UP % 2 == 0
  {
    var hi, mid := UnpatchedParts(w);
    assert w - offs == hi * UP + (mid * 4096 - offs);
  }

  lemma PatchFits(w: Word, offs: int)
    requires Unpatched(w) && InReach(offs)
    ensures offs > 0 ==> w + offs + UP < TWO32 && (w + offs + UP) % 4096 == offs && (w + offs + UP) / UP % 2 == 1
    ensures offs <= 0 ==> w - offs < TWO32 && (w - offs) % 4096 == -offs && (w - offs) / UP % 2 == 0
  {
    hide Unpatched;
    if offs > 0 {
      PatchAhead(w, offs);
    } else {
      PatchBehind(w, offs);
    }
  }

  /** The address a pc-relative load at ldr reads from. */
  function Reads(w: Word, ldr: nat): int {
    if w / UP % 2 == 1 then ldr + 8 + w % 4096 else ldr + 8 - w % 4096
  }

  lemma PatchReads(w: Word, ldr: nat, addr: nat)
    requires Unpatched(w) && InReach(addr - (ldr + 8))
    ensures Reads(Patch(w, addr - (ldr + 8)), ldr) == addr
  {
    PatchFits(w, addr - (ldr + 8));
  }

  /** The load reads a word of the code that holds its own literal, below word n. */
  predicate Served(buf: seq<Word>, fixups: seq<Fixup>, d: Wanted, n: nat) {
    && d.ldr % 4 == 0 && d.ldr / 4 < n <= |buf|
    && var a := Reads(buf[d.ldr / 4], d.ldr);
    && a % 4 == 0 && 0 <= a / 4 < n && buf[a / 4] == d.value
    && (d.lab.Some? ==> Fixup(d.lab.value, a) in fixups)
  }

  // ------------------------------------------------------------------
  // The assembler's state
  // ------------------------------------------------------------------

  /** The pending loads stand behind word `base`, each with the next word of the pool. */
  ghost predicate Pending(buf: seq<Word>, pool: seq<Word>, loads: seq<Load>, base: nat) {
    && |loads| == |pool| && base <= |buf|
    && (forall i :: 0 <= i < |loads| ==> Waits(buf, loads[i], i, base))
    && (forall i, j :: 0 <= i < j < |loads| ==> loads[i].ldr < loads[j].ldr)
  }

  predicate Waits(buf: seq<Word>, l: Load, i: nat, base: nat) {
    l.lit == 4 * i && l.ldr % 4 == 0 && base <= l.ldr / 4 < |buf| && Unpatched(buf[l.ldr / 4])
  }

  ghost predicate AllServed(buf: seq<Word>, fixups: seq<Fixup>, done: seq<Wanted>, base: nat) {
    forall k :: 0 <= k < |done| ==> Served(buf, fixups, done[k], base)
  }

  /** What the pending loads want. */
  function Wants(loads: seq<Load>, pool: seq<Word>): (r: seq<Wanted>)
    requires |loads| == |pool|
    ensures |r| == |loads| && forall i :: 0 <= i < |r| ==> r[i] == Wanted(loads[i].ldr, pool[i], loads[i].lab)
  {
    seq(|loads|, i requires 0 <= i < |loads| => Wanted(loads[i].ldr, pool[i], loads[i].lab))
  }

  /** The distance from a load to its literal, for a pool that begins at word start. */
  function Distance(l: Load, start: nat): int { 4 * start + l.lit - (l.ldr + 8) }

  lemma ServedStays(buf: seq<Word>, buf': seq<Word>, fixups: seq<Fixup>, fixups': seq<Fixup>, done: seq<Wanted>,
      base: nat)
    requires AllServed(buf, fixups, done, base) && base <= |buf| && base <= |buf'|
    requires (forall k :: 0 <= k < base ==> buf'[k] == buf[k]) && (forall f :: f in fixups ==> f in fixups')
    ensures AllServed(buf', fixups', done, base)
  {
    forall k | 0 <= k < |done| ensures Served(buf', fixups', done[k], base) {
      assert Served(buf, fixups, done[k], base);
    }
  }

  /** The pool is being written: i loads are patched and i words written from word start on. */
  ghost predicate Dumping(buf: seq<Word>, fixups: seq<Fixup>, pool: seq<Word>, loads: seq<Load>, base: nat,
      start: nat, i: nat) {
    && i <= |loads| == |pool| && |buf| == start + i && base <= start
    && (forall k :: 0 <= k < i ==> buf[start + k] == pool[k])
    && (forall k :: 0 <= k < i ==>
          Served(buf, fixups, Wanted(loads[k].ldr, pool[k], loads[k].lab), |buf|) && loads[k].ldr / 4 < start)
    && (forall k :: i <= k < |loads| ==> Waits(buf, loads[k], k, base) && loads[k].ldr / 4 < start)
    && (forall k, m :: 0 <= k < m < |loads| ==> loads[k].ldr < loads[m].ldr)
    && (forall k :: 0 <= k < i ==> Reads(buf[loads[k].ldr / 4], loads[k].ldr) == 4 * (start + k))
  }

  /** Of the words before the pool only the first i loads have changed, each by its own patch. */
  ghost predicate OnlyPatched(was: seq<Word>, now: seq<Word>, loads: seq<Load>, start: nat, i: nat) {
    && |was| == start <= |now| && i <= |loads|
    && (forall k :: 0 <= k < start && !Loads(loads, i, k) ==> now[k] == was[k])
    && (forall j :: 0 <= j < i ==> IsPatched(was, now, loads[j], start))
  }

  /** One of the first i loads stands at word k. */
  ghost predicate Loads(loads: seq<Load>, i: nat, k: nat)
    requires i <= |loads|
  {
    exists j :: 0 <= j < i && loads[j].ldr / 4 == k
  }

  predicate IsPatched(was: seq<Word>, now: seq<Word>, l: Load, start: nat) {
    && l.ldr / 4 < |was| <= |now| && Unpatched(was[l.ldr / 4]) && InReach(Distance(l, start))
    && now[l.ldr / 4] == Patch(was[l.ldr / 4], Distance(l, start))
  }

  lemma PatchOne(was: seq<Word>, buf: seq<Word>, loads: seq<Load>, base: nat, start: nat, i: nat, w: Word)
    requires OnlyPatched(was, buf, loads, start, i) && i < |loads| && Waits(buf, loads[i], i, base)
             && loads[i].ldr / 4 < start
    requires InReach(Distance(loads[i], start)) && !Loads(loads, i, loads[i].ldr / 4)
    ensures var p := loads[i].ldr / 4;
      OnlyPatched(was, buf[p := Patch(buf[p], Distance(loads[i], start))] + [w], loads, start, i + 1)
  {
    var p := loads[i].ldr / 4;
    var now := buf[p := Patch(buf[p], Distance(loads[i], start))] + [w];
    assert buf[p] == was[p];
    hide Patch, Unpatched;
    forall j | 0 <= j < i + 1 ensures IsPatched(was, now, loads[j], start) {
      if j < i {
        assert IsPatched(was, buf, loads[j], start) && loads[j].ldr / 4 != p;
      }
    }
    forall k | 0 <= k < start && !Loads(loads, i + 1, k) ensures now[k] == was[k] {
      assert k != p && !Loads(loads, i, k);
    }
  }

  /** No two pending loads share a word. */
  lemma LoadsDiffer(buf: seq<Word>, fixups: seq<Fixup>, pool: seq<Word>, loads: seq<Load>, base: nat, start: nat,
      i: nat)
    requires Dumping(buf, fixups, pool, loads, base, start, i) && i < |loads|
    ensures Waits(buf, loads[i], i, base) && loads[i].ldr / 4 < start && !Loads(loads, i, loads[i].ldr / 4)
  {
    OtherLoads(buf, fixups, pool, loads, base, start, i);
    assert Waits(buf, loads[i], i, base);
  }

  /** One turn of the loop in lit_pool_dump. */
  lemma DumpStep(buf: seq<Word>, fixups: seq<Fixup>, pool: seq<Word>, loads: seq<Load>, base: nat, start: nat, i: nat)
    requires Dumping(buf, fixups, pool, loads, base, start, i) && i < |loads| && InReach(Distance(loads[i], start))
    ensures Waits(buf, loads[i], i, base)
    ensures var l := loads[i];
      var buf' := buf[l.ldr / 4 := Patch(buf[l.ldr / 4], Distance(l, start))] + [pool[i]];
      var fixups' := if l.lab.Some? then fixups + [Fixup(l.lab.value, 4 * |buf|)] else fixups;
      Dumping(buf', fixups', pool, loads, base, start, i + 1)
  {
    var l := loads[i];
    assert Waits(buf, l, i, base);
    var p := l.ldr / 4;
    var w := Patch(buf[p], Distance(l, start));
    var buf' := buf[p := w] + [pool[i]];
    var fixups' := if l.lab.Some? then fixups + [Fixup(l.lab.value, 4 * |buf|)] else fixups;
    NewServed(buf, fixups, pool[i], l, start + i);
    OtherLoads(buf, fixups, pool, loads, base, start, i);
    hide Patch, Unpatched, Served, Reads, Distance, InReach, Waits;
    assert forall k :: 0 <= k < i ==> buf'[start + k] == pool[k];
    forall k | 0 <= k < i
      ensures Served(buf', fixups', Wanted(loads[k].ldr, pool[k], loads[k].lab), |buf'|)
              && Reads(buf'[loads[k].ldr / 4], loads[k].ldr) == 4 * (start + k)
    {
      OldServed(buf, buf', fixups, fixups', Wanted(loads[k].ldr, pool[k], loads[k].lab), start + k);
    }
    forall k | i + 1 <= k < |loads| ensures Waits(buf', loads[k], k, base) {
      assert Waits(buf, loads[k], k, base) && buf'[loads[k].ldr / 4] == buf[loads[k].ldr / 4];
    }
  }

  /** The load just patched reads the literal just written. */
  lemma NewServed(buf: seq<Word>, fixups: seq<Fixup>, literal: Word, l: Load, a: nat)
    requires |buf| == a && l.ldr % 4 == 0 && l.ldr / 4 < a && Unpatched(buf[l.ldr / 4]) && InReach(4 * a - (l.ldr + 8))
    ensures var buf' := buf[l.ldr / 4 := Patch(buf[l.ldr / 4], 4 * a - (l.ldr + 8))] + [literal];
      var fixups' := if l.lab.Some? then fixups + [Fixup(l.lab.value, 4 * a)] else fixups;
      Served(buf', fixups', Wanted(l.ldr, literal, l.lab), |buf'|) && Reads(buf'[l.ldr / 4], l.ldr) == 4 * a
  {
    PatchReads(buf[l.ldr / 4], l.ldr, 4 * a);
    hide Patch, Unpatched, Reads;
  }

  /** A load whose own word and literal are unchanged is served as before. */
  lemma OldServed(buf: seq<Word>, buf': seq<Word>, fixups: seq<Fixup>, fixups': seq<Fixup>, d: Wanted, a: nat)
    requires Served(buf, fixups, d, |buf|) && Reads(buf[d.ldr / 4], d.ldr) == 4 * a && a < |buf| <= |buf'|
    requires buf'[d.ldr / 4] == buf[d.ldr / 4] && buf'[a] == d.value && forall f :: f in fixups ==> f in fixups'
    ensures Served(buf', fixups', d, |buf'|) && Reads(buf'[d.ldr / 4], d.ldr) == 4 * a
  {
    hide Reads;
  }

  /** The other loads stand at other words. */
  lemma OtherLoads(buf: seq<Word>, fixups: seq<Fixup>, pool: seq<Word>, loads: seq<Load>, base: nat, start: nat, i: nat)
    requires Dumping(buf, fixups, pool, loads, base, start, i) && i < |loads|
    ensures forall k :: 0 <= k < |loads| && k != i ==> loads[k].ldr / 4 != loads[i].ldr / 4
  {
    hide Unpatched, Reads;
    assert Waits(buf, loads[i], i, base);
    forall k | 0 <= k < |loads| && k != i ensures loads[k].ldr / 4 != loads[i].ldr / 4 {
      if k < i {
        assert loads[k].ldr < loads[i].ldr && Served(buf, fixups, Wanted(loads[k].ldr, pool[k], loads[k].lab), |buf|);
      } else {
        assert loads[i].ldr < loads[k].ldr && Waits(buf, loads[k], k, base);
      }
    }
  }

  /** A load behind word base finds room for i earlier ones there. */
  lemma {:induction false} LoadsApart(buf: seq<Word>, pool: seq<Word>, loads: seq<Load>, base: nat, i: nat)
    requires Pending(buf, pool, loads, base) && i < |loads|
    ensures loads[i].ldr / 4 >= base + i && loads[i].ldr % 4 == 0 && loads[i].lit == 4 * i && loads[i].ldr / 4 < |buf|
  {
    assert Waits(buf, loads[i], i, base);
    if i > 0 {
      LoadsApart(buf, pool, loads, base, i - 1);
      assert loads[i - 1].ldr < loads[i].ldr;
    }
  }

  /** With n words since the last pool every literal is at most 4n - 8 bytes ahead, and at most 4 behind. */
  lemma DistanceBound(buf: seq<Word>, pool: seq<Word>, loads: seq<Load>, base: nat, i: nat)
    requires Pending(buf, pool, loads, base) && i < |loads|
    ensures -4 <= Distance(loads[i], |buf|) <= 4 * (|buf| - base) - 8
  {
    LoadsApart(buf, pool, loads, base, i);
  }

  lemma PendingPush(buf: seq<Word>, pool: seq<Word>, loads: seq<Load>, base: nat, w: Word, more: Option<(Word,
      Option<string>)>)
    requires Pending(buf, pool, loads, base) && (more.Some? ==> Unpatched(w))
    ensures more.None? ==> Pending(buf + [w], pool, loads, base)
    ensures more.Some? ==> Pending(buf + [w], pool + [more.value.0],
            loads + [Load(4 * |pool|, 4 * |buf|, more.value.1)], base)
  {
    forall i | 0 <= i < |loads| ensures Waits(buf + [w], loads[i], i, base) && loads[i].ldr < 4 * |buf| {
      assert Waits(buf, loads[i], i, base);
    }
  }

  class Assembler {
    var buf: seq<Word>
    var pool: seq<Word>
    var loads: seq<Load>
    var fixups: seq<Fixup>
    /** The loads whose literals have been placed, and where the last pool ends. */
    ghost var done: seq<Wanted>
    ghost var base: nat

    ghost predicate Valid()
      reads this
    {
      Pending(buf, pool, loads, base) && AllServed(buf, fixups, done, base)
    }

    constructor ()
      ensures Valid() && buf == [] && pool == [] && loads == [] && done == [] && base == 0
    {
      buf, pool, loads, fixups, done, base := [], [], [], [], [], 0;
    }

    method WriteDword(w: Word)
      requires Valid()
      modifies this`buf
      ensures Valid() && buf == old(buf) + [w]
    {
      PendingPush(buf, pool, loads, base, w, None);
      ServedStays(buf, buf + [w], fixups, fixups, done, base);
      buf := buf + [w];
    }

    /** `ldr Rd,=value` or `ldr Rd,=lab`: the pool gets a word and the instruction waits for its address. */
    method LdrLiteral(w: Word, value: Word, lab: Option<string>)
      requires Valid() && Unpatched(w)
      modifies this`buf, this`pool, this`loads
      ensures Valid() && buf == old(buf) + [w] && pool == old(pool) + [value]
      ensures loads == old(loads) + [Load(4 * |old(pool)|, 4 * |old(buf)|, lab)]
    {
      PendingPush(buf, pool, loads, base, w, Some((value, lab)));
      ServedStays(buf, buf + [w], fixups, fixups, done, base);
      loads := loads + [Load(4 * |pool|, 4 * |buf|, lab)];
      pool := pool + [value];
      buf := buf + [w];
    }

    /** `lit_pool_dump`: fails exactly if some literal ends up out of reach; else every pending load is served, and
        the pool is empty. */
    method Dump() returns (ok: bool)
      requires Valid()
      modifies this
      ensures ok <==> forall i :: 0 <= i < |old(loads)| ==> InReach(Distance(old(loads)[i], |old(buf)|))
      ensures ok ==> Valid() && pool == [] && loads == [] && |buf| == |old(buf)| + |old(pool)| == base
      ensures ok ==> |old(loads)| == |old(pool)| && done == old(done) + Wants(old(loads), old(pool))
      ensures ok ==> OnlyPatched(old(buf), buf, old(loads), |old(buf)|, |old(loads)|) && buf[|old(buf)|..] == old(pool)
    {
      hide Dumping, AllServed, Pending, OnlyPatched, Loads, IsPatched;
      ghost var was := buf;
      NothingPatched(buf, loads);
      ghost var start, wants := |buf|, pool;
      StartDump(buf, fixups, pool, loads, base);
      ghost var served := Wants(loads, pool);
      var lpStart, i := |buf|, 0;
      while i < |loads|
        invariant 0 <= i <= |loads| && pool == wants && loads == old(loads) && base == old(base) && done == old(done)
        invariant Dumping(buf, fixups, pool, loads, base, start, i) && AllServed(buf, fixups, done, base)
        invariant forall k :: 0 <= k < i ==> InReach(Distance(loads[k], start))
        invariant OnlyPatched(was, buf, loads, start, i)
      {
        var l := loads[i];
        var offs := 4 * lpStart + l.lit - (l.ldr + 8);
        if offs <= -4096 || offs >= 4096 {
          return false;
        }
        LoadsDiffer(buf, fixups, pool, loads, base, start, i);
        PatchOne(was, buf, loads, base, start, i, pool[i]);
        DumpStep(buf, fixups, pool, loads, base, start, i);
        DumpLeaves(buf, fixups, pool, loads, base, start, i, done);
        fixups := if l.lab.Some? then fixups + [Fixup(l.lab.value, 4 * |buf|)] else fixups;
        buf := buf[l.ldr / 4 := Patch(buf[l.ldr / 4], offs)];
        buf := buf + [pool[i]];
        i := i + 1;
      }
      EndDump(buf, fixups, pool, loads, base, start, done);
      done := done + served;
      base := |buf|;
      loads, pool := [], [];
      return true;
    }
  }

  lemma NothingPatched(buf: seq<Word>, loads: seq<Load>)
    ensures OnlyPatched(buf, buf, loads, |buf|, 0)
  {
  }

  lemma StartDump(buf: seq<Word>, fixups: seq<Fixup>, pool: seq<Word>, loads: seq<Load>, base: nat)
    requires Pending(buf, pool, loads, base)
    ensures Dumping(buf, fixups, pool, loads, base, |buf|, 0)
  {
  }

  /** What was served before stays so. */
  lemma DumpLeaves(buf: seq<Word>, fixups: seq<Fixup>, pool: seq<Word>, loads: seq<Load>, base: nat, start: nat,
      i: nat, done: seq<Wanted>)
    requires Dumping(buf, fixups, pool, loads, base, start, i) && i < |loads| && AllServed(buf, fixups, done, base)
    requires InReach(Distance(loads[i], start))
    ensures Waits(buf, loads[i], i, base)
    ensures var l := loads[i];
      AllServed(buf[l.ldr / 4 := Patch(buf[l.ldr / 4], Distance(l, start))] + [pool[i]],
                if l.lab.Some? then fixups + [Fixup(l.lab.value, 4 * |buf|)] else fixups, done, base)
  {
    var l := loads[i];
    assert Waits(buf, l, i, base);
    var buf' := buf[l.ldr / 4 := Patch(buf[l.ldr / 4], Distance(l, start))] + [pool[i]];
    ServedStays(buf, buf', fixups, if l.lab.Some? then fixups + [Fixup(l.lab.value, 4 * |buf|)] else fixups, done,
        base);
  }

  lemma EndDump(buf: seq<Word>, fixups: seq<Fixup>, pool: seq<Word>, loads: seq<Load>, base: nat, start: nat,
      done: seq<Wanted>)
    requires Dumping(buf, fixups, pool, loads, base, start, |loads|) && AllServed(buf, fixups, done, base)
    ensures |loads| == |pool| && AllServed(buf, fixups, done + Wants(loads, pool), |buf|) && |buf| == start + |pool|
    ensures buf[start..] == pool
    ensures Pending(buf, [], [], |buf|)
  {
    var all := done + Wants(loads, pool);
    forall k | 0 <= k < |all| ensures Served(buf, fixups, all[k], |buf|) {
      if k < |done| {
        assert Served(buf, fixups, done[k], base) && all[k] == done[k];
      } else {
        assert all[k] == Wanted(loads[k - |done|].ldr, pool[k - |done|], loads[k - |done|].lab);
      }
    }
  }

  // ------------------------------------------------------------------
  // The generator's rule
  // ------------------------------------------------------------------

  /** What a line of the generator's output assembles to: nothing (labels, comments, data), an instruction, a load
      of a literal, or a pool where none is expected to be executed. */
  datatype What = NoCode | Code(w: Word) | LoadLit(w: Word, value: Word, lab: Option<string>) | Pool

  /** Lines of the prologue and the epilogue are not counted. */
  datatype Line = Line(counted: bool, what: What)
  {
    predicate HasWord() { what.Code? || what.LoadLit? }
  }

  const MAX_OFFS_TO_LT := 2048

  /** So many uncounted lines leave every literal in reach. */
  const SLACK := 500

  function Uncounted(lines: seq<Line>): nat {
    if lines == [] then 0
    else Uncounted(lines[..|lines| - 1]) + if lines[|lines| - 1].counted then 0 else 1
  }

  /** The literals the lines ask for, in order. */
  function Asked(lines: seq<Line>): seq<(Word, Option<string>)> {
    if lines == [] then []
    else Asked(lines[..|lines| - 1]) + AskedBy(lines[|lines| - 1])
  }

  function AskedBy(l: Line): seq<(Word, Option<string>)> {
    if l.what.LoadLit? then [(l.what.value, l.what.lab)] else []
  }

  /** How many loads come before line i. */
  function LoadNo(lines: seq<Line>, i: nat): nat
    requires i <= |lines|
  {
    |Asked(lines[..i])|
  }

  /** Where a word of the function's code comes from. */
  datatype Origin = FromLine(i: nat) | Branch(over: nat) | Literal(j: nat)

  const BRANCH := 0xEA00_0000
  const TWO24 := 0x100_0000

  /** The word of a branch from word k to word `to`: the displacement is counted in words from two words ahead. */
  function BranchWord(k: nat, to: nat): Word { BRANCH + (to - (k + 2)) % TWO24 }

  /** Where such a word leads. */
  function BranchTarget(k: nat, w: Word): int {
    var d := w % TWO24; k + 2 + if d < TWO24 / 2 then d else d - TWO24
  }

  lemma BranchLeads(k: nat, to: nat)
    requires k < to <= k + TWO24 / 2
    ensures BranchWord(k, to) / TWO24 == 0xEA && BranchTarget(k, BranchWord(k, to)) == to
  {
    if to == k + 1 {
      assert (to - (k + 2)) % TWO24 == TWO24 - 1;
    }
  }

  /** The offset in a load's word. */
  function Offset(w: Word): int { if w / UP % 2 == 1 then w % 4096 else -(w % 4096) }

  /** The word of a line: its instruction, with an offset if it is a load. */
  predicate WordOf(l: Line, w: Word) {
    && (l.what.Code? ==> w == l.what.w)
    && (l.what.LoadLit? ==> Unpatched(l.what.w) && w == Patch(l.what.w, Offset(w)))
  }

  /** The load on line i reads the word that was placed for it, which holds its literal. */
  ghost predicate ReadsOwn(lines: seq<Line>, at: seq<nat>, org: seq<Origin>, buf: seq<Word>, fixups: seq<Fixup>, i: nat)
    requires i < |lines| == |at| && at[i] < |buf| == |org| && lines[i].what.LoadLit?
  {
    && Served(buf, fixups, Wanted(4 * at[i], lines[i].what.value, lines[i].what.lab), |buf|)
    && org[Reads(buf[at[i]], 4 * at[i]) / 4] == Literal(LoadNo(lines, i))
  }

  /** A function's code: the words of its lines in order, line i's at at[i], and between them branches and literals;
      every load reads its own literal. */
  ghost predicate Assembled(lines: seq<Line>, at: seq<nat>, org: seq<Origin>, buf: seq<Word>, fixups: seq<Fixup>) {
    && |at| == |lines| && |org| == |buf|
    && (forall i :: 0 <= i < |lines| && lines[i].HasWord() ==>
          at[i] < |buf| && org[at[i]] == FromLine(i) && WordOf(lines[i], buf[at[i]]))
    && (forall i, k :: 0 <= i < k < |lines| && lines[i].HasWord() && lines[k].HasWord() ==> at[i] < at[k])
    && (forall k :: 0 <= k < |buf| && org[k].FromLine? ==>
          org[k].i < |lines| && lines[org[k].i].HasWord() && at[org[k].i] == k)
    && (forall k :: 0 <= k < |buf| && org[k].Branch? ==> buf[k] == BranchWord(k, k + 1 + org[k].over))
    && (forall k :: 0 <= k < |buf| && org[k].Literal? ==>
          org[k].j < |Asked(lines)| && buf[k] == Asked(lines)[org[k].j].0)
    && (forall i :: 0 <= i < |lines| && lines[i].what.LoadLit? ==> ReadsOwn(lines, at, org, buf, fixups, i))
  }

  // ------------------------------------------------------------------
  // Where branches and pools stand, and where control goes
  // ------------------------------------------------------------------

  /** The code so far, the loads whose literals are waiting, those placed, and the generator's count of bytes. */
  datatype Plan = Plan(org: seq<Origin>, waiting: nat, placed: nat, offs: nat)
  {
    function Pool(): Plan { Plan(org + Literals(placed, waiting), 0, placed + waiting, offs) }

    function Around(): Plan { this.(org := org + [Branch(waiting)]).Pool() }
  }

  /** Line i itself, with the pool it asks for. */
  function WithLine(p: Plan, l: Line, i: nat): Plan {
    if l.what.Pool? then p.Pool()
    else if l.HasWord() then
      p.(org := p.org + [FromLine(i)], waiting := p.waiting + if l.what.LoadLit? then 1 else 0)
    else p
  }

  /** The counter after a counted line; when it is full there is a branch around a pool, and it restarts. */
  function Counted(p: Plan, l: Line): Plan {
    var p1 :=
      if !l.counted then p
      else if p.offs + 4 >= MAX_OFFS_TO_LT then p.Around().(offs := 0)
      else p.(offs := p.offs + 4);
    if l.what.Pool? then p1.(offs := 0) else p1
  }

  function Planned(lines: seq<Line>, n: nat): Plan
    requires n <= |lines|
  {
    if n == 0 then Plan([], 0, 0, 0)
    else Counted(WithLine(Planned(lines, n - 1), lines[n - 1], n - 1), lines[n - 1])
  }

  /** Where control that reaches word k gets to an instruction of a line, or behind the code; None if it would execute a
      literal. */
  function Flow(org: seq<Origin>, k: nat): Option<nat>
    decreases |org| - k
  {
    if k >= |org| then (if k == |org| then Some(k) else None)
    else if org[k].FromLine? then Some(k)
    else if org[k].Branch? then Flow(org, k + 1 + org[k].over)
    else None
  }

  /** Code that does not begin with a literal is reached from everything that led behind the code before it. */
  lemma {:induction false} FlowOn(org: seq<Origin>, more: seq<Origin>, k: nat)
    requires Flow(org, k).Some?
    ensures Flow(org + more, k) == if Flow(org, k).value < |org| then Flow(org, k) else Flow(org + more, |org|)
    decreases |org| - k
  {
    if k < |org| && org[k].Branch? {
      FlowOn(org, more, k + 1 + org[k].over);
    }
  }

  lemma AroundPool(p: Plan)
    ensures Flow(p.Around().org, |p.org|) == Some(|p.Around().org|)
    ensures p.org <= p.Around().org
  {
    var org := p.Around().org;
    assert org[|p.org|] == Branch(p.waiting);
  }

  /** No line from i to n (without it) has a word or places a pool. */
  predicate Quiet(lines: seq<Line>, i: nat, n: nat)
    requires n <= |lines|
  {
    forall k :: i <= k < n ==> !lines[k].what.Pool? && !lines[k].HasWord()
  }

  /** Words that lead behind the code lead behind it after a line without a word as well, over the pool if there is
      one. */
  lemma QuietStep(lines: seq<Line>, n: nat, k: nat)
    requires n < |lines| && !lines[n].what.Pool? && !lines[n].HasWord()
    requires var org := Planned(lines, n).org; Flow(org, k) == Some(|org|)
    ensures var org := Planned(lines, n + 1).org; Flow(org, k) == Some(|org|)
  {
    CountedStep(Planned(lines, n), lines[n], k);
  }

  lemma CountedStep(p: Plan, l: Line, k: nat)
    requires !l.what.Pool? && Flow(p.org, k) == Some(|p.org|)
    ensures var org := Counted(p, l).org; Flow(org, k) == Some(|org|)
  {
    if l.counted && p.offs + 4 >= MAX_OFFS_TO_LT {
      AroundPool(p);
      var more := p.Around().org[|p.org|..];
      assert p.org + more == p.Around().org;
      FlowOn(p.org, more, k);
    }
  }

  /** The word behind line i's leads behind the code, as long as no further line has a word. */
  lemma {:induction false} FallsOut(lines: seq<Line>, i: nat, n: nat)
    requires i < n <= |lines| && lines[i].HasWord() && Quiet(lines, i + 1, n)
    ensures var org := Planned(lines, n).org; Flow(org, |Planned(lines, i).org| + 1) == Some(|org|)
    decreases n
  {
    if n == i + 1 {
      CountedStep(WithLine(Planned(lines, i), lines[i], i), lines[i], |Planned(lines, i).org| + 1);
    } else {
      FallsOut(lines, i, n - 1);
      QuietStep(lines, n - 1, |Planned(lines, i).org| + 1);
    }
  }

  lemma {:induction false} PlannedGrows(lines: seq<Line>, n: nat, m: nat)
    requires n <= m <= |lines|
    ensures Planned(lines, n).org <= Planned(lines, m).org
    decreases m
  {
    if n < m {
      PlannedGrows(lines, n, m - 1);
      PlanGrows(Planned(lines, m - 1), lines[m - 1], m - 1);
      hide WithLine, Counted;
    }
  }

  lemma PlanGrows(p: Plan, l: Line, i: nat)
    ensures p.org <= WithLine(p, l, i).org <= Counted(WithLine(p, l, i), l).org
  {
  }

  /** Line i's word stands where the plan had got to. */
  lemma PlannedAt(lines: seq<Line>, i: nat)
    requires i < |lines| && lines[i].HasWord()
    ensures var k := |Planned(lines, i).org|;
            k < |Planned(lines, |lines|).org| && Planned(lines, |lines|).org[k] == FromLine(i)
  {
    PlannedGrows(lines, i + 1, |lines|);
    var p := WithLine(Planned(lines, i), lines[i], i);
    assert p.org <= Planned(lines, i + 1).org && p.org[|Planned(lines, i).org|] == FromLine(i);
  }

  /** The whole function: behind the last line there is a pool. */
  function Layout(lines: seq<Line>): seq<Origin> { Planned(lines, |lines|).Pool().org }

  /** Control that falls through line i gets to the next line with a word, around all pools between them. */
  lemma FallsThrough(lines: seq<Line>, i: nat, n: nat)
    requires i < n < |lines| && lines[i].HasWord() && lines[n].HasWord() && Quiet(lines, i + 1, n)
    ensures Flow(Layout(lines), |Planned(lines, i).org| + 1) == Some(|Planned(lines, n).org|)
  {
    FallsOut(lines, i, n);
    ReachedIn(lines, n, |Planned(lines, i).org| + 1);
  }

  /** What leads behind the first n lines leads to line n. */
  lemma ReachedIn(lines: seq<Line>, n: nat, k: nat)
    requires n < |lines| && lines[n].HasWord()
    requires var org := Planned(lines, n).org; Flow(org, k) == Some(|org|)
    ensures Flow(Layout(lines), k) == Some(|Planned(lines, n).org|)
  {
    var org := Planned(lines, n).org;
    PlannedAt(lines, n);
    PlannedGrows(lines, n, |lines|);
    var more := Layout(lines)[|org|..];
    assert org + more == Layout(lines);
    FlowOn(org, more, k);
  }

  /** Control that enters the function gets to its first line with a word. */
  lemma {:induction false} EntersFirst(lines: seq<Line>, n: nat)
    requires n < |lines| && lines[n].HasWord() && Quiet(lines, 0, n)
    ensures Flow(Layout(lines), 0) == Some(|Planned(lines, n).org|)
  {
    for k := 0 to n
      invariant var org := Planned(lines, k).org; Flow(org, 0) == Some(|org|)
    {
      QuietStep(lines, k, 0);
    }
    ReachedIn(lines, n, 0);
  }

  /** Without a pool the words of two lines that follow each other are neighbours. */
  lemma Neighbours(lines: seq<Line>, i: nat)
    requires i + 1 < |lines| && lines[i].HasWord()
    requires lines[i].counted ==> Planned(lines, i).offs + 4 < MAX_OFFS_TO_LT
    ensures |Planned(lines, i + 1).org| == |Planned(lines, i).org| + 1
  {
  }

  /** No two loads share a literal. */
  lemma LiteralsNotShared(lines: seq<Line>, at: seq<nat>, org: seq<Origin>, buf: seq<Word>, fixups: seq<Fixup>,
      i: nat, k: nat)
    requires Assembled(lines, at, org, buf, fixups)
    requires i < k < |lines| && lines[i].what.LoadLit? && lines[k].what.LoadLit?
    ensures Reads(buf[at[i]], 4 * at[i]) != Reads(buf[at[k]], 4 * at[k])
  {
    hide Reads, Served, WordOf;
    assert ReadsOwn(lines, at, org, buf, fixups, i) && ReadsOwn(lines, at, org, buf, fixups, k);
    AskedNext(lines, i);
    LoadNoGrows(lines, i + 1, k);
  }

  lemma {:induction false} LoadNoGrows(lines: seq<Line>, i: nat, k: nat)
    requires i <= k <= |lines|
    ensures LoadNo(lines, i) <= LoadNo(lines, k) && (k == |lines| ==> LoadNo(lines, k) == |Asked(lines)|)
    decreases k - i
  {
    assert lines[..|lines|] == lines;
    if i < k {
      AskedNext(lines, k - 1);
      LoadNoGrows(lines, i, k - 1);
    }
  }

  // ------------------------------------------------------------------
  // Assembling
  // ------------------------------------------------------------------

  /** The loads so far, served or waiting, are those asked for. */
  ghost predicate Accounts(done: seq<Wanted>, loads: seq<Load>, pool: seq<Word>, asked: seq<(Word, Option<string>)>) {
    && |loads| == |pool| && |asked| == |done| + |pool|
    && (forall k :: 0 <= k < |done| ==> asked[k] == (done[k].value, done[k].lab))
    && (forall k :: 0 <= k < |pool| ==> asked[|done| + k] == (pool[k], loads[k].lab))
  }

  /** The origin of word k fits what stands there. */
  ghost predicate Explained(lines: seq<Line>, at: seq<nat>, org: Origin, k: nat, w: Word, done: seq<Wanted>) {
    if org.FromLine? then
      org.i < |at| <= |lines| && lines[org.i].HasWord() && at[org.i] == k && WordOf(lines[org.i], w)
    else if org.Branch? then w == BranchWord(k, k + 1 + org.over)
    else org.j < |done| && w == done[org.j].value
  }

  /** The load on line i is the one it is taken for, and if its literal is placed it reads that. */
  ghost predicate Tied(lines: seq<Line>, at: seq<nat>, org: seq<Origin>, buf: seq<Word>, done: seq<Wanted>,
                       loads: seq<Load>, i: nat)
    requires i < |at| <= |lines| && at[i] < |buf| == |org| && lines[i].what.LoadLit?
  {
    var j := LoadNo(lines, i);
    if j < |done| then
      && done[j].ldr == 4 * at[i]
      && var a := Reads(buf[at[i]], 4 * at[i]); a % 4 == 0 && 0 <= a / 4 < |org| && org[a / 4] == Literal(j)
    else
      j - |done| < |loads| && loads[j - |done|].ldr == 4 * at[i] && buf[at[i]] == lines[i].what.w
  }

  /** The code of the first |at| lines. */
  ghost predicate Described(lines: seq<Line>, at: seq<nat>, org: seq<Origin>, buf: seq<Word>, done: seq<Wanted>,
                            loads: seq<Load>) {
    && |at| <= |lines| && |org| == |buf|
    && (forall i :: 0 <= i < |at| && lines[i].HasWord() ==> at[i] < |buf| && org[at[i]] == FromLine(i))
    && (forall i, k :: 0 <= i < k < |at| && lines[i].HasWord() && lines[k].HasWord() ==> at[i] < at[k])
    && (forall k :: 0 <= k < |buf| ==> Explained(lines, at, org[k], k, buf[k], done))
    && (forall i :: 0 <= i < |at| && lines[i].what.LoadLit? ==> Tied(lines, at, org, buf, done, loads, i))
  }

  lemma NothingDescribed(lines: seq<Line>)
    ensures Described(lines, [], [], [], [], []) && Asked([]) == [] && Accounts([], [], [], [])
    ensures Uncounted([]) == 0
  {
  }

  /** A line without a word. */
  lemma DescribedSkip(lines: seq<Line>, at: seq<nat>, org: seq<Origin>, buf: seq<Word>, done: seq<Wanted>,
      loads: seq<Load>)
    requires Described(lines, at, org, buf, done, loads) && |at| < |lines| && !lines[|at|].HasWord()
    ensures Described(lines, at + [0], org, buf, done, loads)
  {
    hide WordOf, LoadNo, Reads;
    var at' := at + [0];
    forall k | 0 <= k < |buf| ensures Explained(lines, at', org[k], k, buf[k], done) {
      assert Explained(lines, at, org[k], k, buf[k], done);
    }
    forall i | 0 <= i < |at'| && lines[i].what.LoadLit? ensures Tied(lines, at', org, buf, done, loads, i) {
      assert Tied(lines, at, org, buf, done, loads, i);
    }
  }

  /** A word at the end leaves the rest as it was. */
  lemma DescribedBranch(lines: seq<Line>, at: seq<nat>, org: seq<Origin>, buf: seq<Word>, done: seq<Wanted>,
      loads: seq<Load>, n: nat)
    requires Described(lines, at, org, buf, done, loads)
    ensures Described(lines, at, org + [Branch(n)], buf + [BranchWord(|buf|, |buf| + 1 + n)], done, loads)
  {
    hide WordOf, LoadNo, Reads;
    var org', buf' := org + [Branch(n)], buf + [BranchWord(|buf|, |buf| + 1 + n)];
    forall k | 0 <= k < |buf'| ensures Explained(lines, at, org'[k], k, buf'[k], done) {
      if k < |buf| {
        assert Explained(lines, at, org[k], k, buf[k], done);
      }
    }
    forall i | 0 <= i < |at| && lines[i].what.LoadLit? ensures Tied(lines, at, org', buf', done, loads, i) {
      assert Tied(lines, at, org, buf, done, loads, i);
    }
  }

  /** The word of the next line. */
  lemma DescribedWord(lines: seq<Line>, at: seq<nat>, org: seq<Origin>, buf: seq<Word>, done: seq<Wanted>,
      loads: seq<Load>, more: seq<Load>)
    requires Described(lines, at, org, buf, done, loads) && |at| < |lines| && lines[|at|].HasWord()
    requires lines[|at|].what.LoadLit? ==> LoadNo(lines, |at|) == |done| + |loads|
    requires lines[|at|].what.LoadLit? ==> Unpatched(lines[|at|].what.w) && |more| == 1 && more[0].ldr == 4 * |buf|
    ensures Described(lines, at + [|buf|], org + [FromLine(|at|)], buf + [lines[|at|].what.w], done, loads + more)
  {
    var l := lines[|at|];
    if l.what.LoadLit? {
      UnpatchedWord(l.what.w);
    }
    assert WordOf(l, l.what.w);
    hide WordOf, LoadNo, Reads, Patch, Unpatched;
    var at', org', buf' := at + [|buf|], org + [FromLine(|at|)], buf + [l.what.w];
    forall k | 0 <= k < |buf'| ensures Explained(lines, at', org'[k], k, buf'[k], done) {
      if k < |buf| {
        assert Explained(lines, at, org[k], k, buf[k], done);
      }
    }
    forall i | 0 <= i < |at'| && lines[i].what.LoadLit? ensures Tied(lines, at', org', buf', done, loads + more, i) {
      if i < |at| {
        assert Tied(lines, at, org, buf, done, loads, i);
      }
    }
  }

  lemma UnpatchedWord(w: Word)
    requires Unpatched(w)
    ensures w == Patch(w, 0) && Offset(w) == 0
  {
  }

  /** What a patch adds can be read off the word. */
  lemma PatchOffset(w: Word, offs: int)
    requires Unpatched(w) && InReach(offs)
    ensures Offset(Patch(w, offs)) == offs
  {
    PatchFits(w, offs);
  }

  function Literals(first: nat, n: nat): (r: seq<Origin>)
    ensures |r| == n && forall k :: 0 <= k < n ==> r[k] == Literal(first + k)
  {
    seq(n, k requires 0 <= k < n => Literal(first + k))
  }

  /** Line i asks for the j-th literal. */
  lemma {:induction false} AskingLine(lines: seq<Line>, n: nat, j: nat) returns (i: nat)
    requires n <= |lines| && j < LoadNo(lines, n)
    ensures i < n && lines[i].what.LoadLit? && LoadNo(lines, i) == j
  {
    if n == 0 {
      assert false;
    } else {
      AskedNext(lines, n - 1);
      i := n - 1;
      if j < LoadNo(lines, n - 1) {
        i := AskingLine(lines, n - 1, j);
      }
    }
  }

  /** The line of the m-th waiting load. */
  lemma WaitingLine(lines: seq<Line>, at: seq<nat>, org: seq<Origin>, buf: seq<Word>, done: seq<Wanted>,
      loads: seq<Load>, m: nat) returns (i: nat)
    requires Described(lines, at, org, buf, done, loads) && LoadNo(lines, |at|) == |done| + |loads|
             && m < |loads|
    ensures i < |at| && lines[i].what.LoadLit? && LoadNo(lines, i) == |done| + m
    ensures at[i] < |buf| && org[at[i]] == FromLine(i) && loads[m].ldr == 4 * at[i] && buf[at[i]] == lines[i].what.w
  {
    hide LoadNo, Explained, Reads;
    i := AskingLine(lines, |at|, |done| + m);
    assert Tied(lines, at, org, buf, done, loads, i);
  }

  /** A word that is no waiting load's stays as it was. */
  lemma NotWaiting(lines: seq<Line>, at: seq<nat>, org: seq<Origin>, was: seq<Word>, now: seq<Word>,
      done: seq<Wanted>, loads: seq<Load>, k: nat)
    requires Described(lines, at, org, was, done, loads) && LoadNo(lines, |at|) == |done| + |loads|
    requires OnlyPatched(was, now, loads, |was|, |loads|) && k < |was|
    requires org[k].FromLine? && org[k].i < |at| <= |lines| ==>
               !lines[org[k].i].what.LoadLit? || LoadNo(lines, org[k].i) < |done|
    ensures now[k] == was[k]
  {
    hide LoadNo, Explained, Tied, IsPatched;
    if Loads(loads, |loads|, k) {
      var m :| 0 <= m < |loads| && loads[m].ldr / 4 == k;
      var i := WaitingLine(lines, at, org, was, done, loads, m);
      assert false;
    }
  }

  /** A waiting load once its pool is placed. */
  lemma NowPatched(was: seq<Word>, now: seq<Word>, pool: seq<Word>, loads: seq<Load>, base: nat, m: nat, l: Line)
    requires Pending(was, pool, loads, base) && m < |loads| && OnlyPatched(was, now, loads, |was|, |loads|)
    requires l.what.LoadLit? && was[loads[m].ldr / 4] == l.what.w
    ensures var p := loads[m].ldr / 4; WordOf(l, now[p]) && Reads(now[p], 4 * p) == 4 * (|was| + m)
  {
    assert Waits(was, loads[m], m, base) && IsPatched(was, now, loads[m], |was|);
    hide Patch, Unpatched, Reads, Offset, InReach;
    var p := loads[m].ldr / 4;
    PatchOffset(was[p], Distance(loads[m], |was|));
    PatchReads(was[p], 4 * p, 4 * (|was| + m));
  }

  /** A dump patches the waiting loads and appends their literals: the words ... */
  lemma DumpExplained(lines: seq<Line>, at: seq<nat>, org: seq<Origin>, was: seq<Word>, now: seq<Word>,
      done: seq<Wanted>, loads: seq<Load>, pool: seq<Word>, base: nat, k: nat)
    requires Described(lines, at, org, was, done, loads) && Pending(was, pool, loads, base)
    requires OnlyPatched(was, now, loads, |was|, |loads|) && now[|was|..] == pool
    requires LoadNo(lines, |at|) == |done| + |loads| && k < |now|
    ensures |now| == |was| + |pool| && |loads| == |pool|
    ensures Explained(lines, at, (org + Literals(|done|, |pool|))[k], k, now[k], done + Wants(loads, pool))
  {
    hide LoadNo, WordOf, Waits, IsPatched, Loads, Tied;
    if k < |was| {
      assert Explained(lines, at, org[k], k, was[k], done);
      if org[k].FromLine? && lines[org[k].i].what.LoadLit? && LoadNo(lines, org[k].i) >= |done| {
        var i := org[k].i;
        assert Tied(lines, at, org, was, done, loads, i);
        TiedWaits(lines, at, org, was, done, loads, i);
        NowPatched(was, now, pool, loads, base, LoadNo(lines, i) - |done|, lines[i]);
      } else {
        NotWaiting(lines, at, org, was, now, done, loads, k);
      }
    } else {
      assert now[k] == now[|was|..][k - |was|];
    }
  }

  lemma TiedWaits(lines: seq<Line>, at: seq<nat>, org: seq<Origin>, buf: seq<Word>, done: seq<Wanted>,
      loads: seq<Load>, i: nat)
    requires i < |at| <= |lines| && at[i] < |buf| == |org| && lines[i].what.LoadLit?
    requires Tied(lines, at, org, buf, done, loads, i)
    requires LoadNo(lines, i) >= |done|
    ensures var m := LoadNo(lines, i) - |done|;
            m < |loads| && loads[m].ldr == 4 * at[i] && buf[at[i]] == lines[i].what.w
  {
  }

  /** ... and the loads. */
  lemma DumpTied(lines: seq<Line>, at: seq<nat>, org: seq<Origin>, was: seq<Word>, now: seq<Word>,
      done: seq<Wanted>, loads: seq<Load>, pool: seq<Word>, base: nat, i: nat)
    requires Described(lines, at, org, was, done, loads) && Pending(was, pool, loads, base)
    requires OnlyPatched(was, now, loads, |was|, |loads|) && now[|was|..] == pool
    requires LoadNo(lines, |at|) == |done| + |loads| && i < |at| && lines[i].what.LoadLit?
    ensures |now| == |was| + |pool| && |loads| == |pool| && at[i] < |now|
    ensures Tied(lines, at, org + Literals(|done|, |pool|), now, done + Wants(loads, pool), [], i)
  {
    hide LoadNo, WordOf, Waits, IsPatched, Loads, Explained;
    assert Tied(lines, at, org, was, done, loads, i);
    var j := LoadNo(lines, i);
    if j < |done| {
      NotWaiting(lines, at, org, was, now, done, loads, at[i]);
    } else {
      NowPatched(was, now, pool, loads, base, j - |done|, lines[i]);
      assert (done + Wants(loads, pool))[j].ldr == loads[j - |done|].ldr;
    }
  }

  lemma DescribedDump(lines: seq<Line>, at: seq<nat>, org: seq<Origin>, was: seq<Word>, now: seq<Word>,
      done: seq<Wanted>, loads: seq<Load>, pool: seq<Word>, base: nat)
    requires Described(lines, at, org, was, done, loads) && Pending(was, pool, loads, base)
    requires OnlyPatched(was, now, loads, |was|, |loads|) && now[|was|..] == pool
    requires LoadNo(lines, |at|) == |done| + |loads|
    ensures |loads| == |pool|
    ensures Described(lines, at, org + Literals(|done|, |pool|), now, done + Wants(loads, pool), [])
  {
    hide LoadNo, WordOf, Waits, IsPatched, Loads, Explained, Tied;
    var org', done' := org + Literals(|done|, |pool|), done + Wants(loads, pool);
    forall k | 0 <= k < |now| ensures Explained(lines, at, org'[k], k, now[k], done') {
      DumpExplained(lines, at, org, was, now, done, loads, pool, base, k);
    }
    forall i | 0 <= i < |at| && lines[i].what.LoadLit? ensures Tied(lines, at, org', now, done', [], i) {
      DumpTied(lines, at, org, was, now, done, loads, pool, base, i);
    }
  }

  /** With nothing waiting, the lines are assembled. */
  lemma DescribedAll(lines: seq<Line>, at: seq<nat>, org: seq<Origin>, buf: seq<Word>, fixups: seq<Fixup>,
      done: seq<Wanted>)
    requires Described(lines, at, org, buf, done, []) && |at| == |lines|
    requires AllServed(buf, fixups, done, |buf|) && Accounts(done, [], [], Asked(lines))
    ensures Assembled(lines, at, org, buf, fixups)
  {
    hide WordOf, Reads, Served, ReadsOwn, Asked, LoadNo, Tied, AllServed;
    forall k | 0 <= k < |buf| ensures Explained(lines, at, org[k], k, buf[k], done) {
    }
    forall i | 0 <= i < |lines| && lines[i].what.LoadLit? ensures ReadsOwn(lines, at, org, buf, fixups, i) {
      TiedReadsOwn(lines, at, org, buf, fixups, done, i);
    }
    forall i | 0 <= i < |lines| && lines[i].HasWord()
      ensures at[i] < |buf| && org[at[i]] == FromLine(i) && WordOf(lines[i], buf[at[i]])
    {
      assert Explained(lines, at, org[at[i]], at[i], buf[at[i]], done);
    }
  }

  lemma TiedReadsOwn(lines: seq<Line>, at: seq<nat>, org: seq<Origin>, buf: seq<Word>, fixups: seq<Fixup>,
      done: seq<Wanted>, i: nat)
    requires i < |lines| == |at| && lines[i].what.LoadLit? && at[i] < |buf| == |org|
    requires Tied(lines, at, org, buf, done, [], i)
    requires AllServed(buf, fixups, done, |buf|) && Accounts(done, [], [], Asked(lines))
    ensures ReadsOwn(lines, at, org, buf, fixups, i)
  {
    hide WordOf, Reads, Served;
    AskedAt(lines, i);
    assert Served(buf, fixups, done[LoadNo(lines, i)], |buf|);
  }

  /** The load on line i asks for the literal of its own number. */
  lemma AskedAt(lines: seq<Line>, i: nat)
    requires i < |lines| && lines[i].what.LoadLit?
    ensures LoadNo(lines, i) < |Asked(lines)|
    ensures Asked(lines)[LoadNo(lines, i)] == (lines[i].what.value, lines[i].what.lab)
  {
    AskedNext(lines, i);
    AskedPrefix(lines, i + 1);
  }

  lemma {:induction false} AskedPrefix(lines: seq<Line>, n: nat)
    requires n <= |lines|
    ensures Asked(lines[..n]) <= Asked(lines)
    decreases |lines| - n
  {
    assert lines[..|lines|] == lines;
    if n < |lines| {
      AskedNext(lines, n);
      AskedPrefix(lines, n + 1);
    }
  }

  lemma AskedNext(lines: seq<Line>, i: nat)
    requires i < |lines|
    ensures Asked(lines[..i + 1]) == Asked(lines[..i]) + AskedBy(lines[i])
    ensures Uncounted(lines[..i + 1]) == Uncounted(lines[..i]) + if lines[i].counted then 0 else 1
  {
    assert lines[..i + 1][..i] == lines[..i];
  }

  lemma {:induction false} UncountedBound(lines: seq<Line>, i: nat)
    requires i <= |lines|
    ensures Uncounted(lines[..i]) <= Uncounted(lines)
    decreases |lines| - i
  {
    assert lines[..|lines|] == lines;
    if i < |lines| {
      AskedNext(lines, i);
      UncountedBound(lines, i + 1);
    }
  }

  /** What was waiting is served by the dump. */
  lemma AccountsDumped(done: seq<Wanted>, loads: seq<Load>, pool: seq<Word>, asked: seq<(Word, Option<string>)>)
    requires Accounts(done, loads, pool, asked)
    ensures |loads| == |pool| && Accounts(done + Wants(loads, pool), [], [], asked)
  {
    var all := done + Wants(loads, pool);
    forall k | 0 <= k < |all| ensures asked[k] == (all[k].value, all[k].lab) {
      assert k >= |done| ==> asked[|done| + (k - |done|)] == (pool[k - |done|], loads[k - |done|].lab);
    }
  }

  lemma AllInReach(buf: seq<Word>, pool: seq<Word>, loads: seq<Load>, base: nat)
    requires Pending(buf, pool, loads, base) && 4 * (|buf| - base) <= MAX_OFFS_TO_LT + 4 + 4 * SLACK
    ensures forall i :: 0 <= i < |loads| ==> InReach(Distance(loads[i], |buf|))
  {
    forall i | 0 <= i < |loads| ensures InReach(Distance(loads[i], |buf|)) {
      DistanceBound(buf, pool, loads, base, i);
    }
  }

  /** The assembler's state after the first |at| lines. */
  ghost predicate Accurate(a: Assembler, lines: seq<Line>, at: seq<nat>, org: seq<Origin>)
    reads a
  {
    && a.Valid() && Described(lines, at, org, a.buf, a.done, a.loads)
    && Accounts(a.done, a.loads, a.pool, Asked(lines[..|at|]))
  }

  /** The account after a line that asks for nothing, and after a load. */
  lemma AccountsNext(a: Assembler, lines: seq<Line>, n: nat, ldr: nat)
    requires n < |lines| && Accounts(a.done, a.loads, a.pool, Asked(lines[..n]))
    ensures LoadNo(lines, n) == |a.done| + |a.loads|
    ensures !lines[n].what.LoadLit? ==> Accounts(a.done, a.loads, a.pool, Asked(lines[..n + 1]))
    ensures lines[n].what.LoadLit? ==>
              Accounts(a.done, a.loads + [Load(4 * |a.pool|, ldr, lines[n].what.lab)],
                       a.pool + [lines[n].what.value], Asked(lines[..n + 1]))
  {
    AskedNext(lines, n);
    assert Asked(lines[..n]) + [] == Asked(lines[..n]);
  }

  method PlaceLine(a: Assembler, l: Line, ghost lines: seq<Line>, ghost at: seq<nat>,
      ghost org: seq<Origin>) returns (ghost at': seq<nat>, ghost org': seq<Origin>)
    requires Accurate(a, lines, at, org) && |at| < |lines| && lines[|at|] == l && !l.what.Pool?
    requires l.what.LoadLit? ==> Unpatched(l.what.w)
    modifies a
    ensures Accurate(a, lines, at', org') && |at'| == |at| + 1
    ensures a.base == old(a.base) && |a.buf| <= |old(a.buf)| + 1
    ensures org' == org + (if l.HasWord() then [FromLine(|at|)] else []) && a.done == old(a.done)
    ensures |a.loads| == |old(a.loads)| + if l.what.LoadLit? then 1 else 0
  {
    hide Pending, AllServed, Described, Unpatched, Accounts, Asked, LoadNo;
    AccountsNext(a, lines, |at|, 4 * |a.buf|);
    at', org' := at + [|a.buf|], org + [FromLine(|at|)];
    if l.what.NoCode? {
      DescribedSkip(lines, at, org, a.buf, a.done, a.loads);
      at', org' := at + [0], org;
    } else if l.what.Code? {
      DescribedWord(lines, at, org, a.buf, a.done, a.loads, []);
      assert a.loads + [] == a.loads;
      a.WriteDword(l.what.w);
    } else {
      ghost var more := [Load(4 * |a.pool|, 4 * |a.buf|, l.what.lab)];
      DescribedWord(lines, at, org, a.buf, a.done, a.loads, more);
      a.LdrLiteral(l.what.w, l.what.value, l.what.lab);
    }
  }

  /** A pool, with no literal out of reach. */
  method PlacePool(a: Assembler, ghost lines: seq<Line>, ghost at: seq<nat>,
      ghost org: seq<Origin>) returns (ok: bool, ghost org': seq<Origin>)
    requires Accurate(a, lines, at, org)
    requires |at| <= |lines| && 4 * (|a.buf| - a.base) <= MAX_OFFS_TO_LT + 4 + 4 * SLACK
    modifies a
    ensures ok && Accurate(a, lines, at, org') && a.base == |a.buf| && a.loads == [] && a.pool == []
    ensures org' == org + Literals(|old(a.done)|, |old(a.loads)|) && |a.done| == |old(a.done)| + |old(a.loads)|
  {
    hide Pending, AllServed, Described, Unpatched, InReach, Distance, OnlyPatched;
    AllInReach(a.buf, a.pool, a.loads, a.base);
    AccountsDumped(a.done, a.loads, a.pool, Asked(lines[..|at|]));
    ghost var was, done, loads, pool, base := a.buf, a.done, a.loads, a.pool, a.base;
    ok := a.Dump();
    DescribedDump(lines, at, org, was, a.buf, done, loads, pool, base);
    org' := org + Literals(|done|, |pool|);
  }

  /** The branch around the pool that follows. */
  method WriteBranch(a: Assembler, ghost lines: seq<Line>, ghost at: seq<nat>, ghost org: seq<Origin>)
    requires Accurate(a, lines, at, org)
    modifies a`buf
    ensures Accurate(a, lines, at, org + [Branch(|a.loads|)]) && |a.buf| == |old(a.buf)| + 1
  {
    assert |a.loads| == |a.pool|;
    hide Pending, AllServed, Described, Accounts, BranchWord, Asked;
    DescribedBranch(lines, at, org, a.buf, a.done, a.loads, |a.pool|);
    a.WriteDword(BranchWord(|a.buf|, |a.buf| + 1 + |a.pool|));
  }

  method PlaceBranch(a: Assembler, ghost lines: seq<Line>, ghost at: seq<nat>, ghost org: seq<Origin>)
    returns (ok: bool, ghost org': seq<Origin>)
    requires Accurate(a, lines, at, org)
    requires |at| <= |lines| && 4 * (|a.buf| - a.base) <= MAX_OFFS_TO_LT + 4 * SLACK
    modifies a
    ensures ok && Accurate(a, lines, at, org') && a.base == |a.buf| && a.loads == []
    ensures org' == org + [Branch(|old(a.loads)|)] + Literals(|old(a.done)|, |old(a.loads)|)
    ensures |a.done| == |old(a.done)| + |old(a.loads)|
  {
    hide Accurate;
    WriteBranch(a, lines, at, org);
    ok, org' := PlacePool(a, lines, at, org + [Branch(|a.loads|)]);
  }

  /** One line, and the pool it may ask for itself. */
  method PlaceAny(a: Assembler, l: Line, ghost lines: seq<Line>, ghost at: seq<nat>,
      ghost org: seq<Origin>) returns (ok: bool, ghost at': seq<nat>, ghost org': seq<Origin>)
    requires Accurate(a, lines, at, org) && |at| < |lines| && lines[|at|] == l
    requires l.what.LoadLit? ==> Unpatched(l.what.w)
    requires 4 * (|a.buf| - a.base) <= MAX_OFFS_TO_LT + 4 * SLACK
    modifies a
    ensures ok && Accurate(a, lines, at', org') && |at'| == |at| + 1
    ensures if l.what.Pool? then a.base == |a.buf| else a.base == old(a.base) && |a.buf| <= |old(a.buf)| + 1
    ensures forall offs :: Plan(org', |a.loads|, |a.done|, offs) ==
                           WithLine(Plan(org, |old(a.loads)|, |old(a.done)|, offs), l, |at|)
  {
    hide Pending, AllServed, Accounts, Unpatched;
    if l.what.Pool? {
      DescribedSkip(lines, at, org, a.buf, a.done, a.loads);
      AccountsNext(a, lines, |at|, 0);
      at' := at + [0];
      hide Described;
      ok, org' := PlacePool(a, lines, at', org);
    } else {
      hide Described;
      at', org' := PlaceLine(a, l, lines, at, org);
      ok := true;
    }
  }

  /**
   * The generator counts four bytes for each line, and at 2048 emits a branch around a pool; a line may also place a
   * pool itself. With up to 500 further lines that are not counted the assembler never finds a literal out of reach.
   * The code holds the lines' words in order and every load reads the literal placed for it; branches and literals
   * stand between the lines as Layout says, so that control never runs into a literal (FallsThrough).
   */
  method AssembleFunction(lines: seq<Line>)
    returns (a: Assembler, ok: bool, ghost at: seq<nat>, ghost org: seq<Origin>)
    requires forall k :: 0 <= k < |lines| && lines[k].what.LoadLit? ==> Unpatched(lines[k].what.w)
    requires Uncounted(lines) <= SLACK
    ensures ok && a.loads == [] && a.pool == []
    ensures Assembled(lines, at, org, a.buf, a.fixups) && org == Layout(lines)
  {
    hide Pending, AllServed, Accounts, Described, Unpatched, Assembled, Asked, WithLine, AskedBy;
    a := new Assembler();
    NothingDescribed(lines);
    ok, at, org := true, [], [];
    var offs := 0;
    for i := 0 to |lines|
      invariant ok && fresh(a) && |at| == i && Accurate(a, lines, at, org) && 0 <= offs < MAX_OFFS_TO_LT
      invariant 4 * (|a.buf| - a.base) <= offs + 4 * Uncounted(lines[..i])
      invariant Plan(org, |a.loads|, |a.done|, offs) == Planned(lines, i)
    {
      AskedNext(lines, i);
      UncountedBound(lines, i + 1);
      ok, at, org := PlaceAny(a, lines[i], lines, at, org);
      if lines[i].counted {
        offs := offs + 4;
        if offs >= MAX_OFFS_TO_LT {
          ok, org := PlaceBranch(a, lines, at, org);
          offs := 0;
        }
      }
      if lines[i].what.Pool? {
        offs := 0;
      }
    }
    assert lines[..|lines|] == lines;
    ok, org := PlacePool(a, lines, at, org);
    DescribedAll(lines, at, org, a.buf, a.fixups, a.done);
  }

  /** In the assembled code control falls from line i to the next line with a word, and every branch leads behind the
      pool that follows it. */
  lemma ControlFlows(lines: seq<Line>, at: seq<nat>, buf: seq<Word>, fixups: seq<Fixup>, i: nat, n: nat)
    requires Assembled(lines, at, Layout(lines), buf, fixups)
    requires i < n < |lines| && lines[i].HasWord() && lines[n].HasWord() && Quiet(lines, i + 1, n)
    ensures Flow(Layout(lines), at[i] + 1) == Some(at[n])
  {
    hide ReadsOwn, WordOf, Flow;
    StandsAt(lines, at, buf, fixups, i);
    StandsAt(lines, at, buf, fixups, n);
    FallsThrough(lines, i, n);
  }

  lemma StandsAt(lines: seq<Line>, at: seq<nat>, buf: seq<Word>, fixups: seq<Fixup>, i: nat)
    requires Assembled(lines, at, Layout(lines), buf, fixups) && i < |lines| && lines[i].HasWord()
    ensures at[i] == |Planned(lines, i).org|
  {
    hide ReadsOwn, WordOf, Planned;
    PlannedAt(lines, i);
    var k := |Planned(lines, i).org|;
    assert Layout(lines)[k] == FromLine(i);
  }

  /** So few literals wait at any time that every branch reaches behind its pool. */
  lemma {:induction false} FewWaiting(lines: seq<Line>, n: nat)
    requires n <= |lines|
    ensures var p := Planned(lines, n); 4 * p.waiting <= p.offs + 4 * Uncounted(lines[..n]) && p.offs < MAX_OFFS_TO_LT
  {
    if n > 0 {
      FewWaiting(lines, n - 1);
      AskedNext(lines, n - 1);
    }
  }

  lemma {:induction false} BranchesShort(lines: seq<Line>, n: nat)
    requires n <= |lines| && Uncounted(lines) <= SLACK
    ensures var org := Planned(lines, n).org;
            forall k :: 0 <= k < |org| && org[k].Branch? ==> org[k].over <= MAX_OFFS_TO_LT / 4 + SLACK
  {
    if n > 0 {
      BranchesShort(lines, n - 1);
      FewWaiting(lines, n - 1);
      UncountedBound(lines, n - 1);
      hide Uncounted, WithLine, Counted;
      ShortStep(Planned(lines, n - 1), lines[n - 1], n - 1, MAX_OFFS_TO_LT / 4 + SLACK);
    }
  }

  lemma ShortStep(p: Plan, l: Line, i: nat, most: nat)
    requires p.waiting + 1 <= most && forall k :: 0 <= k < |p.org| && p.org[k].Branch? ==> p.org[k].over <= most
    ensures var org := Counted(WithLine(p, l, i), l).org;
            forall k :: 0 <= k < |org| && org[k].Branch? ==> org[k].over <= most
  {
  }

  /** Every branch of the code, read as the processor does, leads where Flow goes on. */
  lemma BranchesLead(lines: seq<Line>, at: seq<nat>, buf: seq<Word>, fixups: seq<Fixup>, k: nat)
    requires Assembled(lines, at, Layout(lines), buf, fixups) && Uncounted(lines) <= SLACK
    requires k < |buf| && Layout(lines)[k].Branch?
    ensures buf[k] / TWO24 == 0xEA
    ensures BranchTarget(k, buf[k]) >= 0 && Flow(Layout(lines), k) == Flow(Layout(lines), BranchTarget(k, buf[k]))
  {
    hide ReadsOwn, WordOf, Planned, BranchWord, BranchTarget;
    BranchesShort(lines, |lines|);
    assert Layout(lines)[k] == Planned(lines, |lines|).org[k];
    BranchLeads(k, k + 1 + Layout(lines)[k].over);
  }
}
