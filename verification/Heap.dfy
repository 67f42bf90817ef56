/** The heap of the C library: a circular list of headers that tiles the memory obtained from sbrk. */
module Heap {

  /** Memory is counted in heap units of twelve bytes. A unit holds a header or twelve bytes of payload. */
  datatype Unit = Unit(next: nat, used: nat, free: nat)

  const UNIT := 12
  const IHEAP := 8192
  const NALLOC := 4096
  const SIZE_T := 0x1_0000_0000

  // ------------------------------------------------------------------
  // Tiling
  // ------------------------------------------------------------------

  function Next(k: nat, n: nat): nat { if k + 1 == n then 0 else k + 1 }

  /** Where block k's used and free units end. */
  function End(mem: seq<Unit>, b: nat): nat { b + Used(mem, b) + Free(mem, b) }

  function Used(mem: seq<Unit>, b: nat): nat { if b < |mem| then mem[b].used else 0 }

  function Free(mem: seq<Unit>, b: nat): nat { if b < |mem| then mem[b].free else 0 }

  /**
   * The headers, in address order. Each block ends where the next one begins, the last one at the end of
   * the heap; `next` closes the circle. The first block is the permanent header at the start of the heap.
   */
  ghost predicate Tiled(mem: seq<Unit>, blocks: seq<nat>) {
    && |blocks| > 0 && blocks[0] == 0 && |mem| > 0 && mem[0].used == 1
    && forall k :: 0 <= k < |blocks| ==> Linked(mem, blocks, k)
  }

  ghost predicate Linked(mem: seq<Unit>, blocks: seq<nat>, k: nat)
    requires k < |blocks|
  {
    && blocks[k] < |mem| && Used(mem, blocks[k]) >= 1
    && End(mem, blocks[k]) == Limit(mem, blocks, k)
    && mem[blocks[k]].next == blocks[Next(k, |blocks|)]
  }

  /** Where the block after block k begins. */
  function Limit(mem: seq<Unit>, blocks: seq<nat>, k: nat): nat
    requires k < |blocks|
  {
    if k + 1 < |blocks| then blocks[k + 1] else |mem|
  }

  lemma {:induction false} Increasing(mem: seq<Unit>, blocks: seq<nat>, i: nat, j: nat)
    requires Tiled(mem, blocks) && i < j < |blocks|
    ensures blocks[i] < |mem| && blocks[i] < End(mem, blocks[i]) <= blocks[j] < |mem|
    decreases j - i
  {
    assert Linked(mem, blocks, i) && Linked(mem, blocks, j);
    if i + 1 < j {
      Increasing(mem, blocks, i, j - 1);
      assert Linked(mem, blocks, j - 1);
    }
  }

  lemma {:induction false} BelowEnd(mem: seq<Unit>, blocks: seq<nat>, k: nat)
    requires Tiled(mem, blocks) && k < |blocks|
    ensures blocks[k] < |mem| && blocks[k] < End(mem, blocks[k]) <= |mem| && Used(mem, blocks[k]) >= 1
  {
    assert Linked(mem, blocks, k);
    if k + 1 < |blocks| {
      assert Linked(mem, blocks, k + 1);
    }
  }

  // ------------------------------------------------------------------
  // Live blocks
  // ------------------------------------------------------------------

  /** The pointers handed out and not yet freed: one unit past each header but the first. */
  ghost function Pointers(blocks: seq<nat>): set<nat> {
    set k | 1 <= k < |blocks| :: blocks[k] + 1
  }

  /** The contents of the block behind a pointer. */
  function Payload(mem: seq<Unit>, ptr: nat): seq<Unit> {
    if 0 < ptr <= |mem| && ptr <= ptr - 1 + mem[ptr - 1].used <= |mem|
    then mem[ptr..ptr - 1 + mem[ptr - 1].used] else []
  }

  /** What the client sees: its pointers and what they hold. */
  ghost function Live(mem: seq<Unit>, blocks: seq<nat>): map<nat, seq<Unit>> {
    map p | p in Pointers(blocks) :: Payload(mem, p)
  }

  /** The block of a pointer, as an index. */
  lemma IndexOf(blocks: seq<nat>, ptr: nat) returns (k: nat)
    requires ptr in Pointers(blocks)
    ensures 1 <= k < |blocks| && blocks[k] + 1 == ptr
  {
    k :| 1 <= k < |blocks| && blocks[k] + 1 == ptr;
  }

  lemma HasPointer(blocks: seq<nat>, k: nat)
    requires 1 <= k < |blocks|
    ensures blocks[k] + 1 in Pointers(blocks)
  {
  }

  /** Live blocks and their headers do not overlap, and stay inside the heap. */
  lemma LiveDisjoint(mem: seq<Unit>, blocks: seq<nat>, p: nat, q: nat)
    requires Tiled(mem, blocks) && p in Pointers(blocks) && q in Pointers(blocks) && p < q
    ensures 0 < p && |Payload(mem, p)| == Used(mem, p - 1) - 1 && p + |Payload(mem, p)| <= q - 1
    ensures q + |Payload(mem, q)| <= |mem|
  {
    var i := IndexOf(blocks, p);
    var j := IndexOf(blocks, q);
    if j < i {
      Increasing(mem, blocks, j, i);
    }
    Increasing(mem, blocks, i, j);
    BelowEnd(mem, blocks, i);
    BelowEnd(mem, blocks, j);
  }

  /** Header and payload of block i stay clear of the free units of block k. */
  lemma FreeUnitsUnused(mem: seq<Unit>, blocks: seq<nat>, i: nat, k: nat, u: nat)
    requires Tiled(mem, blocks) && i < |blocks| && k < |blocks|
    requires blocks[k] + Used(mem, blocks[k]) <= u < End(mem, blocks[k])
    ensures u < blocks[i] || blocks[i] + Used(mem, blocks[i]) <= u
    ensures u < |mem| && blocks[k] < u
  {
    BelowEnd(mem, blocks, k);
    if i < k {
      Increasing(mem, blocks, i, k);
    } else if k < i {
      Increasing(mem, blocks, k, i);
    }
  }

  /** Used and free units of all blocks. */
  function Sum(mem: seq<Unit>, blocks: seq<nat>): nat {
    if blocks == [] then 0 else Used(mem, blocks[0]) + Free(mem, blocks[0]) + Sum(mem, blocks[1..])
  }

  /** No unit is lost: used and free units make up the heap. */
  lemma {:induction false} SumFrom(mem: seq<Unit>, blocks: seq<nat>, k: nat)
    requires Tiled(mem, blocks) && k <= |blocks|
    ensures Sum(mem, blocks[k..]) == if k < |blocks| then |mem| - blocks[k] else 0
    decreases |blocks| - k
  {
    if k < |blocks| {
      SumFrom(mem, blocks, k + 1);
      assert blocks[k..][1..] == blocks[k + 1..];
      assert Linked(mem, blocks, k);
    }
  }

  lemma UnitsConserved(mem: seq<Unit>, blocks: seq<nat>)
    requires Tiled(mem, blocks)
    ensures Sum(mem, blocks) == |mem|
  {
    SumFrom(mem, blocks, 0);
    assert blocks[0..] == blocks;
  }

  /** With everything freed the heap is one free block again. */
  lemma NothingLiveNothingLost(mem: seq<Unit>, blocks: seq<nat>)
    requires Tiled(mem, blocks) && Pointers(blocks) == {}
    ensures blocks == [0] && mem[0].free == |mem| - 1
  {
    assert Linked(mem, blocks, 0);
    if |blocks| > 1 {
      HasPointer(blocks, 1);
    }
  }

  // ------------------------------------------------------------------
  // What the operations do to the tiling
  // ------------------------------------------------------------------

  /** Nothing changes in block b that its client could see. */
  ghost predicate Untouched(mem: seq<Unit>, mem': seq<Unit>, b: nat) {
    && b < |mem| && b < |mem'| && mem'[b].used == mem[b].used
    && b + mem[b].used <= |mem| && b + mem[b].used <= |mem'|
    && forall u :: b < u < b + mem[b].used ==> mem'[u] == mem[u]
  }

  lemma SamePayload(mem: seq<Unit>, mem': seq<Unit>, ptr: nat)
    requires ptr > 0 && Untouched(mem, mem', ptr - 1) && mem[ptr - 1].used >= 1
    ensures Payload(mem', ptr) == Payload(mem, ptr)
  {
  }

  /** A header for n units goes at the start of block k's free units. */
  function Carved(mem: seq<Unit>, p: nat, n: nat): seq<Unit>
    requires p < |mem| && p + mem[p].used < |mem| && mem[p].free >= n
  {
    mem[p + mem[p].used := Unit(mem[p].next, n, mem[p].free - n)][p := Unit(p + mem[p].used, mem[p].used, 0)]
  }

  lemma CarveLeaves(mem: seq<Unit>, blocks: seq<nat>, k: nat, n: nat, i: nat)
    requires Tiled(mem, blocks) && k < |blocks| && blocks[k] < |mem| && n >= 1 && mem[blocks[k]].free >= n
             && i < |blocks|
    ensures var p := blocks[k]; var q := p + mem[p].used;
      && q < |mem| && var mem' := Carved(mem, p, n);
      && Untouched(mem, mem', blocks[i]) && q != blocks[i]
      && (i != k ==> mem'[blocks[i]] == mem[blocks[i]])
  {
    FreeUnitsUnused(mem, blocks, i, k, blocks[k] + mem[blocks[k]].used);
    HeadersApart(mem, blocks, i, k);
  }

  lemma CarveTiles(mem: seq<Unit>, blocks: seq<nat>, k: nat, n: nat)
    requires Tiled(mem, blocks) && k < |blocks| && blocks[k] < |mem| && n >= 1 && mem[blocks[k]].free >= n
    ensures var p := blocks[k]; var q := p + mem[p].used;
      && q < |mem| && var mem' := Carved(mem, p, n);
      && Tiled(mem', blocks[..k + 1] + [q] + blocks[k + 1..])
  {
    CarveLeaves(mem, blocks, k, n, 0);
    var q := blocks[k] + mem[blocks[k]].used;
    var mem' := Carved(mem, blocks[k], n);
    var blocks' := blocks[..k + 1] + [q] + blocks[k + 1..];
    assert Linked(mem, blocks, k);
    forall j | 0 <= j < |blocks'| ensures Linked(mem', blocks', j) {
      if j != k + 1 {
        var i := if j <= k then j else j - 1;
        assert Linked(mem, blocks, i) && blocks'[j] == blocks[i];
        CarveLeaves(mem, blocks, k, n, i);
      }
    }
  }

  /** The header of one block is no unit of another's. */
  lemma HeadersApart(mem: seq<Unit>, blocks: seq<nat>, i: nat, k: nat)
    requires Tiled(mem, blocks) && i < |blocks| && k < |blocks|
    ensures i != k ==> blocks[k] < blocks[i] || blocks[k] >= End(mem, blocks[i])
    ensures blocks[i] < |mem| && End(mem, blocks[i]) <= |mem| && Used(mem, blocks[i]) >= 1
  {
    BelowEnd(mem, blocks, i);
    if i < k {
      Increasing(mem, blocks, i, k);
    } else if k < i {
      Increasing(mem, blocks, k, i);
    }
  }

  /** Block k's units go to the block before it. */
  function Merged(mem: seq<Unit>, p: nat, b: nat): seq<Unit>
    requires p < |mem| && b < |mem|
  {
    mem[p := Unit(mem[b].next, mem[p].used, mem[p].free + (mem[b].used + mem[b].free))]
  }

  lemma MergeLeaves(mem: seq<Unit>, blocks: seq<nat>, k: nat, i: nat)
    requires Tiled(mem, blocks) && 1 <= k < |blocks| && i < |blocks|
    ensures var p, b := blocks[k - 1], blocks[k];
      && p < |mem| && b < |mem| && var mem' := Merged(mem, p, b);
      && Untouched(mem, mem', blocks[i])
      && (i != k - 1 ==> mem'[blocks[i]] == mem[blocks[i]])
  {
    HeadersApart(mem, blocks, k, k - 1);
    HeadersApart(mem, blocks, k - 1, k);
    HeadersApart(mem, blocks, i, k - 1);
  }

  lemma MergeTiles(mem: seq<Unit>, blocks: seq<nat>, k: nat)
    requires Tiled(mem, blocks) && 1 <= k < |blocks|
    ensures var p, b := blocks[k - 1], blocks[k];
      && p < |mem| && b < |mem| && Tiled(Merged(mem, p, b), blocks[..k] + blocks[k + 1..])
  {
    MergeLeaves(mem, blocks, k, 0);
    var mem' := Merged(mem, blocks[k - 1], blocks[k]);
    var blocks' := blocks[..k] + blocks[k + 1..];
    assert Linked(mem, blocks, k) && Linked(mem, blocks, k - 1);
    forall j | 0 <= j < |blocks'| ensures Linked(mem', blocks', j) {
      var i := if j < k then j else j + 1;
      assert Linked(mem, blocks, i) && blocks'[j] == blocks[i];
      MergeLeaves(mem, blocks, k, i);
    }
  }

  /** More memory joins the last block's free units. */
  function Extended(mem: seq<Unit>, p: nat, extra: seq<Unit>): seq<Unit>
    requires p < |mem|
  {
    (mem + extra)[p := Unit(mem[p].next, mem[p].used, mem[p].free + |extra|)]
  }

  lemma ExtendTiles(mem: seq<Unit>, blocks: seq<nat>, extra: seq<Unit>)
    requires Tiled(mem, blocks)
    ensures var p := blocks[|blocks| - 1];
      && p < |mem| && var mem' := Extended(mem, p, extra);
      && Tiled(mem', blocks)
      && forall i :: 0 <= i < |blocks| ==> Untouched(mem, mem', blocks[i])
  {
    var m := |blocks| - 1;
    HeadersApart(mem, blocks, m, m);
    var mem' := Extended(mem, blocks[m], extra);
    forall i | 0 <= i < |blocks| ensures Untouched(mem, mem', blocks[i]) && Linked(mem', blocks, i) {
      HeadersApart(mem, blocks, i, m);
      assert Linked(mem, blocks, i);
    }
  }

  /** Block b keeps n units and leaves the rest free. */
  function Refit(mem: seq<Unit>, b: nat, n: nat): seq<Unit>
    requires b < |mem| && n <= mem[b].used + mem[b].free
  {
    mem[b := Unit(mem[b].next, n, mem[b].used + mem[b].free - n)]
  }

  lemma RefitTiles(mem: seq<Unit>, blocks: seq<nat>, k: nat, n: nat)
    requires Tiled(mem, blocks) && 1 <= k < |blocks| && blocks[k] < |mem|
    requires 1 <= n <= mem[blocks[k]].used + mem[blocks[k]].free
    ensures var mem' := Refit(mem, blocks[k], n);
      && Tiled(mem', blocks)
      && forall i :: 0 <= i < |blocks| && i != k ==> Untouched(mem, mem', blocks[i])
  {
    var mem' := Refit(mem, blocks[k], n);
    HeadersApart(mem, blocks, 0, k);
    forall i | 0 <= i < |blocks| ensures (i != k ==> Untouched(mem, mem', blocks[i])) && Linked(mem', blocks, i) {
      HeadersApart(mem, blocks, i, k);
      assert Linked(mem, blocks, i);
    }
  }

  // ------------------------------------------------------------------
  // What the operations do to the client's blocks
  // ------------------------------------------------------------------

  lemma CarveLive(mem: seq<Unit>, blocks: seq<nat>, k: nat, n: nat)
    requires Tiled(mem, blocks) && k < |blocks| && blocks[k] < |mem| && n >= 1 && mem[blocks[k]].free >= n
    ensures var p := blocks[k]; var q := p + mem[p].used;
      && q < |mem| && var mem' := Carved(mem, p, n);
      && q + 1 !in Live(mem, blocks) && |Payload(mem', q + 1)| == n - 1
      && Live(mem', blocks[..k + 1] + [q] + blocks[k + 1..]) == Live(mem, blocks)[q + 1 := Payload(mem', q + 1)]
  {
    hide Payload;
    CarveLeaves(mem, blocks, k, n, k);
    CarveTiles(mem, blocks, k, n);
    var q := blocks[k] + mem[blocks[k]].used;
    var mem' := Carved(mem, blocks[k], n);
    var blocks' := blocks[..k + 1] + [q] + blocks[k + 1..];
    forall ptr ensures ptr in Pointers(blocks') <==> ptr in Pointers(blocks) || ptr == q + 1 {
      PointersInserted(blocks, k + 1, q, ptr);
    }
    forall ptr | ptr in Pointers(blocks) ensures ptr != q + 1 && Payload(mem', ptr) == Payload(mem, ptr) {
      var i := IndexOf(blocks, ptr);
      CarveLeaves(mem, blocks, k, n, i);
      HeadersApart(mem, blocks, i, k);
      SamePayload(mem, mem', ptr);
    }
    HeadersApart(mem', blocks', k + 1, k + 1);
    assert blocks'[k + 1] == q && mem'[q].used == n;
    PayloadLength(mem', q + 1);
  }

  lemma PayloadLength(mem: seq<Unit>, ptr: nat)
    requires 0 < ptr && End(mem, ptr - 1) <= |mem| && Used(mem, ptr - 1) >= 1
    ensures |Payload(mem, ptr)| == Used(mem, ptr - 1) - 1
  {
  }

  lemma PointersInserted(blocks: seq<nat>, k: nat, q: nat, ptr: nat)
    requires 1 <= k <= |blocks|
    ensures ptr in Pointers(blocks[..k] + [q] + blocks[k..]) <==> ptr in Pointers(blocks) || ptr == q + 1
  {
    var blocks' := blocks[..k] + [q] + blocks[k..];
    if ptr in Pointers(blocks) {
      var i := IndexOf(blocks, ptr);
      HasPointer(blocks', if i < k then i else i + 1);
    }
    HasPointer(blocks', k);
    if ptr in Pointers(blocks') && ptr != q + 1 {
      var j := IndexOf(blocks', ptr);
      HasPointer(blocks, if j < k then j else j - 1);
    }
  }

  lemma PointersRemoved(mem: seq<Unit>, blocks: seq<nat>, k: nat, ptr: nat)
    requires Tiled(mem, blocks) && 1 <= k < |blocks|
    ensures ptr in Pointers(blocks[..k] + blocks[k + 1..]) <==> ptr in Pointers(blocks) && ptr != blocks[k] + 1
  {
    var blocks' := blocks[..k] + blocks[k + 1..];
    PointersInserted(blocks', k, blocks[k], ptr);
    assert blocks'[..k] + [blocks[k]] + blocks'[k..] == blocks;
    if ptr in Pointers(blocks') {
      var j := IndexOf(blocks', ptr);
      HeadersApart(mem, blocks, if j < k then j else j + 1, k);
    }
  }

  lemma RemovedSet(mem: seq<Unit>, blocks: seq<nat>, k: nat)
    requires Tiled(mem, blocks) && 1 <= k < |blocks|
    ensures Pointers(blocks[..k] + blocks[k + 1..]) == Pointers(blocks) - {blocks[k] + 1}
  {
    var now, was := Pointers(blocks[..k] + blocks[k + 1..]), Pointers(blocks) - {blocks[k] + 1};
    forall ptr | ptr in now ensures ptr in was { PointersRemoved(mem, blocks, k, ptr); }
    forall ptr | ptr in was ensures ptr in now { PointersRemoved(mem, blocks, k, ptr); }
  }

  lemma MergeLive(mem: seq<Unit>, blocks: seq<nat>, k: nat)
    requires Tiled(mem, blocks) && 1 <= k < |blocks|
    ensures var p, b := blocks[k - 1], blocks[k];
      && p < |mem| && b < |mem|
      && Live(Merged(mem, p, b), blocks[..k] + blocks[k + 1..]) == Live(mem, blocks) - {b + 1}
  {
    hide Payload;
    MergeLeaves(mem, blocks, k, k);
    var mem' := Merged(mem, blocks[k - 1], blocks[k]);
    RemovedSet(mem, blocks, k);
    forall ptr | ptr in Pointers(blocks) ensures Payload(mem', ptr) == Payload(mem, ptr) {
      var i := IndexOf(blocks, ptr);
      MergeLeaves(mem, blocks, k, i);
      HeadersApart(mem, blocks, i, k);
      SamePayload(mem, mem', ptr);
    }
    var was, now := Live(mem, blocks) - {blocks[k] + 1}, Live(mem', blocks[..k] + blocks[k + 1..]);
    assert was.Keys == now.Keys;
    assert forall ptr :: ptr in now ==> now[ptr] == was[ptr];
  }

  lemma ExtendLive(mem: seq<Unit>, blocks: seq<nat>, extra: seq<Unit>)
    requires Tiled(mem, blocks)
    ensures var p := blocks[|blocks| - 1];
      p < |mem| && Live(Extended(mem, p, extra), blocks) == Live(mem, blocks)
  {
    hide Payload;
    ExtendTiles(mem, blocks, extra);
    var mem' := Extended(mem, blocks[|blocks| - 1], extra);
    forall ptr | ptr in Pointers(blocks) ensures Payload(mem', ptr) == Payload(mem, ptr) {
      var i := IndexOf(blocks, ptr);
      assert Untouched(mem, mem', blocks[i]);
      HeadersApart(mem, blocks, i, i);
      SamePayload(mem, mem', ptr);
    }
  }

  /** As much of the old payload as fits into the new one. */
  ghost predicate Kept(before: seq<Unit>, after: seq<Unit>) {
    forall i :: 0 <= i < |before| && i < |after| ==> after[i] == before[i]
  }

  lemma RefitPayload(mem: seq<Unit>, b: nat, n: nat)
    requires End(mem, b) <= |mem| && b < |mem| && mem[b].used >= 1 && 1 <= n <= mem[b].used + mem[b].free
    ensures var mem' := Refit(mem, b, n);
      |Payload(mem', b + 1)| == n - 1 && Kept(Payload(mem, b + 1), Payload(mem', b + 1))
  {
    var mem' := Refit(mem, b, n);
    assert Payload(mem', b + 1) == mem'[b + 1..b + n];
    assert Payload(mem, b + 1) == mem[b + 1..b + mem[b].used];
  }

  lemma RefitLive(mem: seq<Unit>, blocks: seq<nat>, k: nat, n: nat)
    requires Tiled(mem, blocks) && 1 <= k < |blocks| && blocks[k] < |mem|
    requires 1 <= n <= mem[blocks[k]].used + mem[blocks[k]].free
    ensures var mem', ptr := Refit(mem, blocks[k], n), blocks[k] + 1;
      && ptr in Live(mem, blocks) && Live(mem', blocks) == Live(mem, blocks)[ptr := Payload(mem', ptr)]
      && |Payload(mem', ptr)| == n - 1 && Kept(Payload(mem, ptr), Payload(mem', ptr))
  {
    hide Payload;
    RefitTiles(mem, blocks, k, n);
    var mem', b := Refit(mem, blocks[k], n), blocks[k];
    HasPointer(blocks, k);
    HeadersApart(mem, blocks, k, k);
    RefitPayload(mem, b, n);
    forall ptr | ptr in Pointers(blocks) && ptr != b + 1 ensures Payload(mem', ptr) == Payload(mem, ptr) {
      var i := IndexOf(blocks, ptr);
      assert Untouched(mem, mem', blocks[i]);
      HeadersApart(mem, blocks, i, i);
      SamePayload(mem, mem', ptr);
    }
  }

  lemma WriteTiles(mem: seq<Unit>, blocks: seq<nat>, k: nat, a: nat, u: Unit)
    requires Tiled(mem, blocks) && 1 <= k < |blocks| && blocks[k] < a < blocks[k] + Used(mem, blocks[k])
    ensures a < |mem| && var mem' := mem[a := u];
      Tiled(mem', blocks) && forall j :: 0 <= j < |blocks| && j != k ==> Untouched(mem, mem', blocks[j])
  {
    HeadersApart(mem, blocks, k, k);
    var mem' := mem[a := u];
    forall j | 0 <= j < |blocks| ensures Linked(mem', blocks, j) && (j != k ==> Untouched(mem, mem', blocks[j])) {
      assert Linked(mem, blocks, j);
      HeadersApart(mem, blocks, j, k);
      HeadersApart(mem, blocks, k, j);
    }
    HeadersApart(mem, blocks, k, 0);
  }

  /** A client's write into its own block changes nothing else. */
  lemma WriteLive(mem: seq<Unit>, blocks: seq<nat>, ptr: nat, i: nat, u: Unit)
    requires Tiled(mem, blocks) && ptr in Live(mem, blocks) && i < |Live(mem, blocks)[ptr]|
    ensures ptr + i < |mem| && var mem' := mem[ptr + i := u];
      Tiled(mem', blocks) && Live(mem', blocks) == Live(mem, blocks)[ptr := Live(mem, blocks)[ptr][i := u]]
  {
    var k := IndexOf(blocks, ptr);
    HeadersApart(mem, blocks, k, k);
    PayloadLength(mem, ptr);
    WriteTiles(mem, blocks, k, ptr + i, u);
    var mem' := mem[ptr + i := u];
    assert Payload(mem', ptr) == Payload(mem, ptr)[i := u];
    hide Payload;
    forall p | p in Pointers(blocks) && p != ptr ensures Payload(mem', p) == Payload(mem, p) {
      var j := IndexOf(blocks, p);
      assert Untouched(mem, mem', blocks[j]);
      HeadersApart(mem, blocks, j, j);
      SamePayload(mem, mem', p);
    }
  }

  // ------------------------------------------------------------------
  // The allocator
  // ------------------------------------------------------------------

  datatype Option<T> = None | Some(value: T)

  /** Header and payload units for a request; the addition is made on a 32-bit size_t. */
  function Units(size: nat): (n: nat)
    ensures n >= 1
  {
    (size + UNIT - 1) % SIZE_T / UNIT + 1
  }

  /** A block holds what was asked for, unless the addition wrapped around. */
  lemma UnitsSuffice(size: nat)
    requires 0 < size < SIZE_T
    ensures (Units(size) - 1) * UNIT >= size <==> size <= SIZE_T - UNIT
    ensures size > SIZE_T - UNIT ==> Units(size) == 1
  {
  }

  /** The largest number of units a request can come to; it is more than the address space holds. */
  const MAX_UNITS := 357913942

  lemma UnitsBound(size: nat)
    requires size < SIZE_T
    ensures Units(size) <= MAX_UNITS && (Units(size) == MAX_UNITS <==> SIZE_T - 15 <= size <= SIZE_T - 12)
  {
  }

  /** The change of the break for an increment of n units: the product is taken as a 32-bit intptr_t. */
  function Increment(n: nat): int {
    var w := n * UNIT % SIZE_T;
    if w < SIZE_T / 2 then w else w - SIZE_T
  }

  /** The heap counts no unit the system did not give, unless the product wrapped around: then the
      break moves backwards, or for the largest number of units forwards by 8 bytes. */
  lemma IncrementExact(n: nat)
    requires n <= MAX_UNITS
    ensures Increment(n) == n * UNIT <==> n * UNIT < SIZE_T / 2
    ensures n * UNIT >= SIZE_T / 2 ==> if n == MAX_UNITS then Increment(n) == 8 else Increment(n) < 0
  {
  }

  /** What the heap grows by for a request of n units. */
  function Growth(n: nat): nat { if n < NALLOC then NALLOC else n }

  ghost predicate NoneFits(mem: seq<Unit>, blocks: seq<nat>, n: nat) {
    forall i :: 0 <= i < |blocks| ==> Free(mem, blocks[i]) < n
  }

  /** Blocks passed by a walk around the circle from block h to block k. */
  predicate Passed(h: nat, k: nat, i: nat) {
    if h <= k then h <= i <= k else i >= h || i <= k
  }

  /** Block k is the first one from block h around the circle with n free units. */
  ghost predicate FirstFit(mem: seq<Unit>, blocks: seq<nat>, h: nat, k: nat, n: nat) {
    && k < |blocks| && Free(mem, blocks[k]) >= n
    && forall i :: 0 <= i < |blocks| && Passed(h, k, i) && i != k ==> Free(mem, blocks[i]) < n
  }

  /** A new block of n units stands behind block k: the first that fits, or the last one once the heap has grown. */
  ghost predicate Placed(mem: seq<Unit>, blocks: seq<nat>, h: nat, ptr: nat, n: nat) {
    exists k: nat :: k < |blocks| && ptr == blocks[k] + Used(mem, blocks[k]) + 1
      && if NoneFits(mem, blocks, n) then k == |blocks| - 1 else FirstFit(mem, blocks, h, k, n)
  }

  lemma PlacedBehind(mem: seq<Unit>, blocks: seq<nat>, h: nat, k: nat, n: nat, ptr: nat)
    requires k < |blocks| && ptr == blocks[k] + Used(mem, blocks[k]) + 1
    requires if NoneFits(mem, blocks, n) then k == |blocks| - 1 else FirstFit(mem, blocks, h, k, n)
    ensures Placed(mem, blocks, h, ptr, n)
  {
  }

  /** For a request of `size` bytes the heap and the break have grown if no block fits and the system agrees;
      whether the system still backs all units depends on the product. */
  ghost predicate Grown(mem: seq<Unit>, blocks: seq<nat>, brk: int, mem': seq<Unit>, brk': int, size: nat,
      grant: bool) {
    var g := if size > 0 && NoneFits(mem, blocks, Units(size)) && grant then Growth(Units(size)) else 0;
    && |mem'| == |mem| + g && brk' == brk + (if g > 0 then Increment(g) else 0)
    && (|mem| * UNIT == brk ==> (|mem'| * UNIT == brk' <==> g == 0 || Increment(g) == g * UNIT))
  }

  /** One more block of n units, with any contents; the others are as they were. */
  ghost predicate Allocated(was: map<nat, seq<Unit>>, now: map<nat, seq<Unit>>, ptr: nat, n: nat) {
    ptr !in was && ptr in now && |now[ptr]| == n && now == was[ptr := now[ptr]]
  }

  /** The block at ptr, if any, is now at q with n units, and keeps what it held. */
  ghost predicate Moved(was: map<nat, seq<Unit>>, now: map<nat, seq<Unit>>, ptr: Option<nat>, q: nat, n: nat) {
    if ptr.None? then Allocated(was, now, q, n)
    else
      && ptr.value in was && q in now && now == (was - {ptr.value})[q := now[q]]
      && (q != ptr.value ==> q !in was)
      && |now[q]| == n && Kept(was[ptr.value], now[q])
  }

  lemma StaysMoved(was: map<nat, seq<Unit>>, now: map<nat, seq<Unit>>, p: nat, n: nat)
    requires p in was && p in now && now == was[p := now[p]] && |now[p]| == n && Kept(was[p], now[p])
    ensures Moved(was, now, Some(p), p, n)
  {
    assert was[p := now[p]] == (was - {p})[p := now[p]];
  }

  lemma RefitMoves(mem: seq<Unit>, blocks: seq<nat>, p: nat, n: nat)
    requires Tiled(mem, blocks) && p + 1 in Live(mem, blocks) && p < |mem| && 1 <= n <= mem[p].used + mem[p].free
    ensures var mem' := Refit(mem, p, n);
      Tiled(mem', blocks) && Moved(Live(mem, blocks), Live(mem', blocks), Some(p + 1), p + 1, n - 1)
  {
    var k := IndexOf(blocks, p + 1);
    hide Tiled, Live, Payload, Kept, Moved;
    RefitTiles(mem, blocks, k, n);
    RefitLive(mem, blocks, k, n);
    StaysMoved(Live(mem, blocks), Live(Refit(mem, p, n), blocks), p + 1, n - 1);
  }

  /** What carving does to tiling and contents. */
  lemma CarveAllocates(mem: seq<Unit>, blocks: seq<nat>, k: nat, n: nat)
    requires Tiled(mem, blocks) && k < |blocks| && blocks[k] < |mem| && mem[blocks[k]].free >= n >= 1
    ensures var p := blocks[k]; var q := p + mem[p].used;
      && q < |mem| && q != p
      && var mem' := mem[q := Unit(mem[p].next, n, mem[p].free - n)][p := Unit(q, mem[p].used, 0)];
      && mem' == Carved(mem, p, n)
      && Tiled(mem', blocks[..k + 1] + [q] + blocks[k + 1..])
      && Allocated(Live(mem, blocks), Live(mem', blocks[..k + 1] + [q] + blocks[k + 1..]), q + 1, n - 1)
  {
    HeadersApart(mem, blocks, k, k);
    hide Tiled, Live, Payload;
    CarveTiles(mem, blocks, k, n);
    CarveLive(mem, blocks, k, n);
  }

  /** The units a block has, and could have where it is. */
  function Available(mem: seq<Unit>, ptr: nat): nat {
    if ptr > 0 then Used(mem, ptr - 1) + Free(mem, ptr - 1) else 0
  }

  lemma LiveHeader(mem: seq<Unit>, blocks: seq<nat>, ptr: nat)
    requires Tiled(mem, blocks) && ptr in Live(mem, blocks)
    ensures 0 < ptr <= |mem| && |Live(mem, blocks)[ptr]| == mem[ptr - 1].used - 1
  {
    var k := IndexOf(blocks, ptr);
    HeadersApart(mem, blocks, k, k);
    PayloadLength(mem, ptr);
  }

  lemma AllocatedMoved(was: map<nat, seq<Unit>>, now: map<nat, seq<Unit>>, q: nat, n: nat)
    requires Allocated(was, now, q, n)
    ensures Moved(was, now, None, q, n)
  {
  }

  lemma PayloadAt(mem: seq<Unit>, blocks: seq<nat>, p: nat, i: nat)
    requires Tiled(mem, blocks) && p in Live(mem, blocks)
    ensures i < |Live(mem, blocks)[p]| ==> p + i < |mem| && mem[p + i] == Live(mem, blocks)[p][i]
  {
  }

  lemma PointerNotBase(mem: seq<Unit>, blocks: seq<nat>, ptr: nat)
    requires Tiled(mem, blocks) && ptr in Live(mem, blocks)
    ensures ptr > 1
  {
    var k := IndexOf(blocks, ptr);
    HeadersApart(mem, blocks, k, 0);
  }

  class Allocator {
    var mem: seq<Unit>
    var hptr: nat
    /** Bytes obtained from the system. */
    var break_: int
    ghost var blocks: seq<nat>
    ghost var hindex: nat

    ghost predicate Valid()
      reads this
    {
      Tiled(mem, blocks) && hindex < |blocks| && hptr == blocks[hindex]
    }

    /** The units of the heap are those the system has given. */
    predicate Backed()
      reads this
    {
      |mem| * UNIT == break_
    }

    ghost function Contents(): map<nat, seq<Unit>>
      reads this
    {
      Live(mem, blocks)
    }

    /** `__set_up_heap`, on memory with any contents. */
    constructor (initial: seq<Unit>)
      requires |initial| == IHEAP
      ensures Valid() && Backed() && Contents() == map[] && |mem| == IHEAP
    {
      mem := initial[0 := Unit(0, 1, IHEAP - 1)];
      hptr := 0;
      break_ := IHEAP * UNIT;
      blocks := [0];
      hindex := 0;
      new;
      assert Linked(mem, blocks, 0);
    }

    /** The search of malloc: from hptr once around the circle. */
    method Find(n: nat) returns (p: nat, ghost k: nat)
      requires Valid()
      ensures k < |blocks| && p == blocks[k] && p < |mem|
      ensures mem[p].free < n <==> NoneFits(mem, blocks, n)
      ensures mem[p].free >= n ==> FirstFit(mem, blocks, hindex, k, n)
    {
      p := hptr;
      k := hindex;
      assert Linked(mem, blocks, k);
      while mem[p].next != hptr && mem[p].free < n
        invariant k < |blocks| && p == blocks[k] && p < |mem|
        invariant forall i :: 0 <= i < |blocks| && Passed(hindex, k, i) && i != k ==> Free(mem, blocks[i]) < n
        decreases if k >= hindex then |blocks| - k + hindex else hindex - k
      {
        StepAround(mem, blocks, hindex, k);
        p := mem[p].next;
        k := Next(k, |blocks|);
      }
      StepAround(mem, blocks, hindex, k);
    }

    /** The walk of _expand_heap to the last block. */
    method Last() returns (p: nat)
      requires Valid()
      ensures p == blocks[|blocks| - 1] && p < |mem|
    {
      p := 0;
      ghost var k := 0;
      assert Linked(mem, blocks, 0);
      while mem[p].next != 0
        invariant k < |blocks| && p == blocks[k] && p < |mem|
        decreases |blocks| - k
      {
        StepAround(mem, blocks, 0, k);
        p := mem[p].next;
        k := k + 1;
      }
      StepAround(mem, blocks, 0, k);
    }

    /** `_expand_heap`: the new units, with any contents, join the last block. */
    method Expand(n: nat, grant: bool, extra: seq<Unit>) returns (r: Option<nat>)
      requires Valid() && |extra| == Growth(n)
      modifies this
      ensures Valid() && Contents() == old(Contents())
      ensures hptr == old(hptr) && blocks == old(blocks)
      ensures grant ==> r == Some(blocks[|blocks| - 1]) && r.value < |mem| && mem[r.value].free >= n
      ensures grant ==> r.value < |old(mem)| && mem[r.value].used == old(mem)[r.value].used
      ensures |mem| == old(|mem|) + (if grant then Growth(n) else 0)
      ensures break_ == old(break_) + (if grant then Increment(Growth(n)) else 0)
      ensures !grant ==> r == None && mem == old(mem)
    {
      var p := Last();
      if !grant {
        return None;
      }
      ExtendTiles(mem, blocks, extra);
      ExtendLive(mem, blocks, extra);
      mem := Extended(mem, p, extra);
      break_ := break_ + Increment(|extra|);
      return Some(p);
    }

    /**
     * `malloc`. Whether the system grants more memory, and what that memory holds, is for the caller
     * of this model to say.
     */
    method Malloc(size: nat, grant: bool, extra: seq<Unit>) returns (r: Option<nat>)
      requires Valid() && size < SIZE_T && |extra| == Growth(Units(size))
      modifies this
      ensures Valid()
      ensures r.Some? ==> Allocated(old(Contents()), Contents(), r.value, Units(size) - 1)
      ensures r.Some? ==> hptr == r.value - 1
      ensures r.Some? ==> Placed(old(mem), old(blocks), old(hindex), r.value, Units(size))
      ensures r.None? ==> Contents() == old(Contents()) && mem == old(mem) && hptr == old(hptr)
      ensures r.None? <==> size == 0 || (NoneFits(old(mem), old(blocks), Units(size)) && !grant)
      ensures Grown(old(mem), old(blocks), old(break_), mem, break_, size, grant)
    {
      if size == 0 {
        return None;
      }
      var n := Units(size);
      ghost var k;
      var p;
      p, k := Find(n);
      if mem[p].free < n {
        var e := Expand(n, grant, extra);
        if e == None {
          return None;
        }
        p, k := e.value, |blocks| - 1;
      }
      r := Carve(p, k, n);
      PlacedBehind(old(mem), old(blocks), old(hindex), k, n, r.value);
    }

    /** The last part of malloc. */
    method Carve(p: nat, ghost k: nat, n: nat) returns (r: Option<nat>)
      requires Valid() && k < |blocks| && p == blocks[k] && p < |mem| && mem[p].free >= n >= 1
      modifies this
      ensures Valid() && |mem| == old(|mem|) && break_ == old(break_)
      ensures r.Some? && Allocated(old(Contents()), Contents(), r.value, n - 1)
      ensures r.value == p + old(mem)[p].used + 1 && hptr == r.value - 1
    {
      hide Tiled, Live, Payload, Carved, Allocated;
      CarveAllocates(mem, blocks, k, n);
      ghost var mem' := Carved(mem, p, n);
      var newp := p + mem[p].used;
      mem := mem[newp := Unit(mem[p].next, n, mem[p].free - n)];
      mem := mem[p := Unit(newp, mem[p].used, 0)];
      assert mem == mem';
      blocks := blocks[..k + 1] + [newp] + blocks[k + 1..];
      hptr, hindex := newp, k + 1;
      return Some(newp + 1);
    }

    /** The search of free, from the block after hptr once around the circle. */
    method Locate(bp: int) returns (prev: nat, p: nat, ghost k: nat)
      requires Valid() && bp != 0
      ensures p < |mem| && k < |blocks|
      ensures p == bp ==> 1 <= k && blocks[k] == p && prev == blocks[k - 1]
      ensures p != bp ==> forall i :: 0 <= i < |blocks| ==> blocks[i] != bp
    {
      ghost var j: nat := hindex;
      StepAround(mem, blocks, hindex, j);
      prev, p := hptr, mem[hptr].next;
      while p != bp && p != hptr
        invariant j < |blocks| && prev == blocks[j] && p == blocks[Next(j, |blocks|)] && p < |mem|
        invariant forall i :: 0 <= i < |blocks| && Passed(hindex, j, i) && i != hindex ==> blocks[i] != bp
        decreases if j >= hindex then |blocks| - j + hindex else hindex - j
      {
        j := Next(j, |blocks|);
        StepAround(mem, blocks, hindex, j);
        prev := p;
        p := mem[p].next;
      }
      k := Next(j, |blocks|);
      StepAround(mem, blocks, hindex, j);
    }

    /** `free`: a pointer that is not live leaves the heap alone. */
    method Release(ptr: Option<nat>)
      requires Valid() && ptr != Some(1)
      modifies this
      ensures Valid() && |mem| == old(|mem|) && break_ == old(break_)
      ensures ptr.Some? ==> Contents() == old(Contents()) - {ptr.value}
      ensures ptr.Some? && ptr.value in old(Contents()) ==>
        exists k :: 1 <= k < |old(blocks)| && old(blocks)[k] + 1 == ptr.value && hptr == old(blocks)[k - 1]
      ensures ptr.None? || ptr.value !in old(Contents()) ==>
        mem == old(mem) && hptr == old(hptr) && Contents() == old(Contents())
    {
      if ptr == None {
        return;
      }
      var bp := ptr.value - 1;
      ghost var k;
      var prev, p;
      prev, p, k := Locate(bp);
      if p != bp {
        assert ptr.value !in Pointers(blocks);
        return;
      }
      HasPointer(blocks, k);
      MergeTiles(mem, blocks, k);
      MergeLive(mem, blocks, k);
      ghost var mem' := Merged(mem, prev, p);
      mem := mem[prev := mem[prev].(free := mem[prev].free + (mem[p].used + mem[p].free))];
      mem := mem[prev := mem[prev].(next := mem[p].next)];
      assert mem == mem';
      blocks := blocks[..k] + blocks[k + 1..];
      hptr, hindex := prev, k - 1;
    }

    /** A client stores into one of its blocks. */
    method Write(ptr: nat, i: nat, u: Unit)
      requires Valid() && ptr in Contents() && i < |Contents()[ptr]|
      modifies this`mem
      ensures Valid() && |mem| == old(|mem|)
      ensures Contents() == old(Contents())[ptr := old(Contents())[ptr][i := u]]
    {
      WriteLive(mem, blocks, ptr, i, u);
      mem := mem[ptr + i := u];
    }

    /**
     * The memcpy of realloc. It copies `used` units where the old payload has one less: the last unit, of which
     * it may copy only a part, receives what lies behind the payload, here `tail`.
     */
    method CopyPayload(p: nat, q: nat, used: nat, tail: Unit)
      requires Valid() && p != q && p in Contents() && q in Contents()
      requires |Contents()[p]| == used - 1 < |Contents()[q]|
      modifies this`mem
      ensures Valid() && |mem| == old(|mem|)
      ensures q in Contents() && Contents() == old(Contents())[q := Contents()[q]]
      ensures |Contents()[q]| == |old(Contents())[q]| && Kept(old(Contents())[p], Contents()[q])
    {
      var i := 0;
      while i < used
        invariant i <= used && Valid() && |mem| == old(|mem|)
        invariant q in Contents() && Contents() == old(Contents())[q := Contents()[q]]
        invariant |Contents()[q]| == |old(Contents())[q]|
        invariant forall j :: 0 <= j < i && j < used - 1 ==> Contents()[q][j] == old(Contents())[p][j]
      {
        PayloadAt(mem, blocks, p, i);
        Write(q, i, if i < used - 1 then mem[p + i] else tail);
        i := i + 1;
      }
    }

    /** `realloc`: in place when the block and the free units behind it suffice, else in a new block. */
    method Realloc(ptr: Option<nat>, size: nat, grant: bool, extra: seq<Unit>, tail: Unit) returns (r: Option<nat>)
      requires Valid() && size < SIZE_T && |extra| == Growth(Units(size))
      requires ptr.Some? ==> ptr.value in Contents()
      modifies this
      ensures Valid()
      ensures r.Some? ==> size > 0 && Moved(old(Contents()), Contents(), ptr, r.value, Units(size) - 1)
      ensures r.None? && size > 0 ==> Contents() == old(Contents())
      ensures r.None? && size == 0 ==> Contents() == if ptr.Some? then old(Contents()) - {ptr.value}
              else old(Contents())
      ensures size > 0 && ptr.Some? && Units(size) <= Available(old(mem), ptr.value) ==> r == ptr
      // it fails only where a new block is needed and cannot be had
      ensures var needed := size > 0 && (ptr.None? || Units(size) > Available(old(mem), ptr.value));
        && (r.None? <==> size == 0 || (needed && NoneFits(old(mem), old(blocks), Units(size)) && !grant))
        && (r.Some? && needed ==> Placed(old(mem), old(blocks), old(hindex), r.value, Units(size)))
        && Grown(old(mem), old(blocks), old(break_), mem, break_, if needed then size else 0, grant)
      ensures r.None? && size > 0 ==> mem == old(mem) && hptr == old(hptr)
    {
      hide Moved, Allocated, Kept, Live, Tiled;
      if ptr == None {
        r := Malloc(size, grant, extra);
        if r.Some? {
          AllocatedMoved(old(Contents()), Contents(), r.value, Units(size) - 1);
        }
      } else if size == 0 {
        PointerNotBase(mem, blocks, ptr.value);
        Release(ptr);
        r := None;
      } else {
        var n := Units(size);
        LiveHeader(mem, blocks, ptr.value);
        var p := ptr.value - 1;
        if n <= mem[p].used + mem[p].free {
          RefitBlock(p, n);
          r := ptr;
        } else {
          r := MoveBlock(ptr.value, size, grant, extra, tail);
        }
      }
    }

    /** The block keeps its place. */
    method RefitBlock(p: nat, n: nat)
      requires Valid() && p + 1 in Contents() && p < |mem| && 1 <= n <= mem[p].used + mem[p].free
      modifies this`mem
      ensures Valid() && Moved(old(Contents()), Contents(), Some(p + 1), p + 1, n - 1) && |mem| == old(|mem|)
    {
      hide Tiled, Live, Moved;
      RefitMoves(mem, blocks, p, n);
      var avail := mem[p].used + mem[p].free;
      mem := mem[p := Unit(mem[p].next, n, avail - n)];
    }

    /** Allocate, copy, free. */
    method MoveBlock(ptr: nat, size: nat, grant: bool, extra: seq<Unit>, tail: Unit) returns (r: Option<nat>)
      requires Valid() && 0 < size < SIZE_T && |extra| == Growth(Units(size))
      requires ptr in Contents() && Units(size) > Available(mem, ptr)
      modifies this
      ensures Valid()
      ensures r.Some? ==> Moved(old(Contents()), Contents(), Some(ptr), r.value, Units(size) - 1)
      ensures r.None? ==> Contents() == old(Contents()) && mem == old(mem) && hptr == old(hptr)
      ensures r.None? <==> NoneFits(old(mem), old(blocks), Units(size)) && !grant
      ensures r.Some? ==> Placed(old(mem), old(blocks), old(hindex), r.value, Units(size))
      ensures Grown(old(mem), old(blocks), old(break_), mem, break_, size, grant)
    {
      hide Kept, Live, Tiled, NoneFits, Placed;
      LiveHeader(mem, blocks, ptr);
      var used := mem[ptr - 1].used;
      r := Malloc(size, grant, extra);
      if r.Some? {
        CopyPayload(ptr, r.value, used, tail);
        PointerNotBase(mem, blocks, ptr);
        Release(Some(ptr));
      }
    }
  }

  /** One step on from block k: either back at h with every block passed, or one more block passed. */
  lemma StepAround(mem: seq<Unit>, blocks: seq<nat>, h: nat, k: nat)
    requires Tiled(mem, blocks) && h < |blocks| && k < |blocks|
    ensures blocks[k] < |mem| && mem[blocks[k]].next == blocks[Next(k, |blocks|)] < |mem|
    ensures mem[blocks[k]].next == blocks[h] <==> Next(k, |blocks|) == h
    ensures Next(k, |blocks|) == h ==> forall i :: 0 <= i < |blocks| ==> Passed(h, k, i)
    ensures Next(k, |blocks|) != h ==> forall i :: 0 <= i < |blocks| ==>
      (Passed(h, Next(k, |blocks|), i) <==> Passed(h, k, i) || i == Next(k, |blocks|))
  {
    assert Linked(mem, blocks, k) && Linked(mem, blocks, Next(k, |blocks|));
    HeadersApart(mem, blocks, h, Next(k, |blocks|));
    HeadersApart(mem, blocks, Next(k, |blocks|), h);
  }
}
