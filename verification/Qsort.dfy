/** qsort: quicksort in place, with an explicit stack of 30 entries and a selection sort for short segments. */
module Qsort {

  // ------------------------------------------------------------------
  // The comparison function
  // ------------------------------------------------------------------

  /** The order a comparison function must define (section 7.20.5 of ISO/IEC 9899:1999). */
  ghost predicate TotalPreorder<T(!new)>(comp: (T, T) -> int) {
    && (forall x, y :: comp(x, y) > 0 <==> comp(y, x) < 0)
    && (forall x, y, z :: comp(x, y) <= 0 && comp(y, z) <= 0 ==> comp(x, z) <= 0)
  }

  predicate Le<T>(comp: (T, T) -> int, x: T, y: T) { comp(x, y) <= 0 }

  lemma Transitive<T(!new)>(comp: (T, T) -> int, x: T, y: T, z: T)
    requires TotalPreorder(comp) && Le(comp, x, y) && Le(comp, y, z)
    ensures Le(comp, x, z)
  {
  }

  lemma Flip<T(!new)>(comp: (T, T) -> int, x: T, y: T)
    requires TotalPreorder(comp)
    ensures comp(x, y) >= 0 <==> Le(comp, y, x)
    ensures !Le(comp, x, y) ==> Le(comp, y, x)
    ensures Le(comp, x, x)
  {
  }

  // ------------------------------------------------------------------
  // Rearranging a segment
  // ------------------------------------------------------------------

  /** t is s with the elements lo to hi put in some other order. */
  ghost predicate Rearranged<T>(s: seq<T>, t: seq<T>, lo: nat, hi: int) {
    && |s| == |t| && lo <= hi + 1 <= |s|
    && t[..lo] == s[..lo] && t[hi + 1..] == s[hi + 1..]
    && multiset(t[lo..hi + 1]) == multiset(s[lo..hi + 1])
  }

  function Swapped<T>(s: seq<T>, i: nat, j: nat): seq<T>
    requires i < |s| && j < |s|
  {
    s[i := s[j]][j := s[i]]
  }

  lemma SwapRearranges<T>(s: seq<T>, t: seq<T>, lo: nat, hi: nat, i: nat, j: nat)
    requires Rearranged(s, t, lo, hi) && lo <= i <= hi && lo <= j <= hi
    ensures Rearranged(s, Swapped(t, i, j), lo, hi)
  {
    var u := Swapped(t, i, j);
    assert u[..lo] == t[..lo] && u[hi + 1..] == t[hi + 1..];
    assert u[lo..hi + 1] == t[lo..hi + 1][i - lo := t[j]][j - lo := t[i]];
  }

  /** Every element of the rearranged segment was in the segment before. */
  lemma CameFrom<T>(s: seq<T>, t: seq<T>, lo: nat, hi: nat, k: nat) returns (k': nat)
    requires Rearranged(s, t, lo, hi) && lo <= k <= hi
    ensures lo <= k' <= hi && s[k'] == t[k]
  {
    assert t[k] == t[lo..hi + 1][k - lo];
    assert t[k] in multiset(t[lo..hi + 1]);
    var j :| 0 <= j < |s[lo..hi + 1]| && s[lo..hi + 1][j] == t[k];
    k' := lo + j;
  }

  lemma Outside<T>(s: seq<T>, t: seq<T>, lo: nat, hi: int, k: nat)
    requires Rearranged(s, t, lo, hi) && k < |s| && (k < lo || k > hi)
    ensures s[k] == t[k]
  {
    if k < lo {
      assert s[..lo][k] == t[..lo][k];
    } else {
      assert s[hi + 1..][k - hi - 1] == t[hi + 1..][k - hi - 1];
    }
  }

  lemma WholePermutation<T>(s: seq<T>, t: seq<T>, lo: nat, hi: int)
    requires Rearranged(s, t, lo, hi)
    ensures multiset(s) == multiset(t)
  {
    assert s == s[..lo] + s[lo..hi + 1] + s[hi + 1..];
    assert t == t[..lo] + t[lo..hi + 1] + t[hi + 1..];
  }

  // ------------------------------------------------------------------
  // Pending segments
  // ------------------------------------------------------------------

  /** A segment still to be sorted, both ends included. */
  datatype Segment = Segment(lo: nat, hi: nat) {
    predicate Has(k: int) { lo <= k <= hi }
    function Size(): int { hi - lo + 1 }
  }

  ghost predicate Together(pending: seq<Segment>, i: nat, j: nat) {
    exists k :: 0 <= k < |pending| && pending[k].Has(i) && pending[k].Has(j)
  }

  /** The segments lie inside the array and do not overlap. */
  ghost predicate Apart(pending: seq<Segment>, n: nat) {
    && (forall k :: 0 <= k < |pending| ==> pending[k].hi < n && pending[k].lo < pending[k].hi)
    && (forall k, m, i :: 0 <= k < m < |pending| ==> !(pending[k].Has(i) && pending[m].Has(i)))
  }

  /** Out of order are at most elements of one and the same pending segment. */
  ghost predicate Ordered<T>(comp: (T, T) -> int, s: seq<T>, pending: seq<Segment>) {
    forall i, j :: 0 <= i < j < |s| && !Together(pending, i, j) ==> Le(comp, s[i], s[j])
  }

  ghost predicate Sorted<T>(comp: (T, T) -> int, s: seq<T>) {
    forall i, j :: 0 <= i < j < |s| ==> Le(comp, s[i], s[j])
  }

  /** Work inside a pending segment g settles every pair that does not share one of the pieces it leaves. */
  lemma SegmentSettled<T(!new)>(comp: (T, T) -> int, s: seq<T>, t: seq<T>, P: seq<Segment>, g: Segment, Q: seq<Segment>)
    requires Apart(P + [g], |s|) && Ordered(comp, s, P + [g]) && Rearranged(s, t, g.lo, g.hi)
    requires forall i, j :: g.lo <= i < j <= g.hi && !Together(Q, i, j) ==> Le(comp, t[i], t[j])
    ensures Ordered(comp, t, P + Q)
  {
    forall i, j | 0 <= i < j < |t| && !Together(P + Q, i, j)
      ensures Le(comp, t[i], t[j])
    {
      TogetherInBoth(P, Q, i, j);
      if g.Has(i) && g.Has(j) {
        assert Le(comp, t[i], t[j]);
      } else {
        var i', j' := i, j;
        if g.Has(i) {
          i' := CameFrom(s, t, g.lo, g.hi, i);
        } else {
          Outside(s, t, g.lo, g.hi, i);
        }
        if g.Has(j) {
          j' := CameFrom(s, t, g.lo, g.hi, j);
        } else {
          Outside(s, t, g.lo, g.hi, j);
        }
        StillApart(P, g, |s|, i, j, i', j');
        assert Le(comp, s[i'], s[j']);
      }
    }
  }

  lemma TogetherInBoth(P: seq<Segment>, Q: seq<Segment>, i: nat, j: nat)
    ensures Together(P, i, j) || Together(Q, i, j) ==> Together(P + Q, i, j)
  {
    if Together(P, i, j) {
      var k :| 0 <= k < |P| && P[k].Has(i) && P[k].Has(j);
      assert (P + Q)[k] == P[k];
    }
    if Together(Q, i, j) {
      var k :| 0 <= k < |Q| && Q[k].Has(i) && Q[k].Has(j);
      assert (P + Q)[|P| + k] == Q[k];
    }
  }

  lemma StillApart(P: seq<Segment>, g: Segment, n: nat, i: nat, j: nat, i': nat, j': nat)
    requires Apart(P + [g], n)
    requires if g.Has(i) then g.Has(i') else i' == i
    requires if g.Has(j) then g.Has(j') else j' == j
    ensures Together(P + [g], i', j') ==> Together(P, i, j) || (g.Has(i) && g.Has(j))
  {
    if k :| 0 <= k < |P + [g]| && (P + [g])[k].Has(i') && (P + [g])[k].Has(j') {
      assert (P + [g])[|P|] == g;
      if k < |P| {
        assert (P + [g])[k] == P[k];
        assert P[k].Has(i) && P[k].Has(j);
      }
    }
  }

  // ------------------------------------------------------------------
  // Partitioning
  // ------------------------------------------------------------------

  /** Up to l everything is at most the element at h, from h on everything is at least that. */
  ghost predicate Partitioned<T>(comp: (T, T) -> int, t: seq<T>, lo: nat, hi: nat, l: nat, h: nat) {
    && lo <= h < l <= hi + 1 <= |t|
    && (forall i :: lo <= i < l ==> Le(comp, t[i], t[h]))
    && (forall j :: h <= j <= hi ==> Le(comp, t[h], t[j]))
  }

  function LeftPart(lo: nat, h: nat): (r: seq<Segment>)
    ensures |r| <= 1
  {
    if lo + 1 < h then [Segment(lo, h - 1)] else []
  }

  function RightPart(l: nat, hi: nat): (r: seq<Segment>)
    ensures |r| <= 1
  {
    if l < hi then [Segment(l, hi)] else []
  }

  lemma PartsSettle<T(!new)>(comp: (T, T) -> int, t: seq<T>, lo: nat, hi: nat, l: nat, h: nat, Q: seq<Segment>)
    requires TotalPreorder(comp) && Partitioned(comp, t, lo, hi, l, h)
    requires Q == LeftPart(lo, h) + RightPart(l, hi) || Q == RightPart(l, hi) + LeftPart(lo, h)
    ensures forall i, j :: lo <= i < j <= hi && !Together(Q, i, j) ==> Le(comp, t[i], t[j])
  {
    forall i, j | lo <= i < j <= hi && !Together(Q, i, j)
      ensures Le(comp, t[i], t[j])
    {
      if Q == LeftPart(lo, h) + RightPart(l, hi) {
        TogetherInBoth(LeftPart(lo, h), RightPart(l, hi), i, j);
      } else {
        TogetherInBoth(RightPart(l, hi), LeftPart(lo, h), i, j);
      }
      if j < h {
        assert LeftPart(lo, h)[0].Has(i);
        assert false;
      } else if i >= l {
        assert RightPart(l, hi)[0].Has(i);
        assert false;
      } else {
        Transitive(comp, t[i], t[h], t[j]);
      }
    }
  }

  /** The pieces that replace a segment keep apart from the others. */
  lemma PartsApart(P: seq<Segment>, g: Segment, n: nat, l: nat, h: nat, Q: seq<Segment>)
    requires Apart(P + [g], n) && g.lo <= h < l <= g.hi + 1
    requires Q == LeftPart(g.lo, h) + RightPart(l, g.hi) || Q == RightPart(l, g.hi) + LeftPart(g.lo, h)
    ensures Apart(P + Q, n)
  {
    var all, was := P + Q, P + [g];
    assert was[|P|] == g && forall k :: 0 <= k < |P| ==> was[k] == P[k] == all[k];
    forall k | 0 <= k < |all| ensures all[k].hi < n && all[k].lo < all[k].hi {
      if k < |P| { assert was[k] == all[k]; } else { assert all[k] == Q[k - |P|]; }
    }
    forall k, m, i | 0 <= k < m < |all| ensures !(all[k].Has(i) && all[m].Has(i)) {
      if m < |P| {
        assert !(was[k].Has(i) && was[m].Has(i));
      } else if k < |P| {
        assert !(was[k].Has(i) && was[|P|].Has(i));
        assert all[m] == Q[m - |P|];
      } else {
        assert all[m] == Q[m - |P|] && all[k] == Q[k - |P|];
      }
    }
  }

  method Swap<T>(a: array<T>, i: nat, j: nat)
    requires i < a.Length && j < a.Length
    modifies a
    ensures a[..] == Swapped(old(a[..]), i, j)
  {
    a[i], a[j] := a[j], a[i];
  }

  /** `_shortsort`: the largest of the remaining elements goes to the end. */
  method ShortSort<T(!new)>(a: array<T>, lo: nat, hi0: nat, comp: (T, T) -> int)
    requires lo <= hi0 < a.Length
    modifies a
    ensures Rearranged(old(a[..]), a[..], lo, hi0)
    ensures TotalPreorder(comp) ==> forall i, j :: lo <= i < j <= hi0 ==> Le(comp, a[i], a[j])
  {
    hide TotalPreorder, Le, Swapped, Rearranged;
    ghost var s := a[..];
    var hi := hi0;
    assert Rearranged(s, s, lo, hi0) by { Unmoved(s, lo, hi0); }
    while hi > lo
      invariant lo <= hi <= hi0
      invariant Rearranged(s, a[..], lo, hi0)
      invariant TotalPreorder(comp) ==> Tail(comp, a[..], lo, hi, hi0)
      decreases hi
    {
      var max := LargestIn(a, lo, hi, comp);
      ghost var t := a[..];
      Swap(a, max, hi);
      SwapRearranges(s, t, lo, hi0, max, hi);
      if TotalPreorder(comp) {
        TailGrows(comp, t, lo, hi, hi0, max);
      }
      hi := hi - 1;
    }
    if TotalPreorder(comp) {
      TailDone(comp, a[..], lo, hi0);
    }
  }

  lemma Unmoved<T>(s: seq<T>, lo: nat, hi: nat)
    requires lo <= hi < |s|
    ensures Rearranged(s, s, lo, hi)
  {
  }

  /** Everything from lo on is at most what lies behind hi, and that part is sorted. */
  ghost predicate Tail<T>(comp: (T, T) -> int, t: seq<T>, lo: nat, hi: nat, end: nat) {
    lo <= hi <= end < |t| && forall i, j :: lo <= i < j && hi < j <= end ==> Le(comp, t[i], t[j])
  }

  lemma TailGrows<T(!new)>(comp: (T, T) -> int, t: seq<T>, lo: nat, hi: nat, end: nat, max: nat)
    requires TotalPreorder(comp) && Tail(comp, t, lo, hi, end) && lo < hi && lo <= max <= hi
    requires forall i :: lo <= i <= hi ==> Le(comp, t[i], t[max])
    ensures Tail(comp, Swapped(t, max, hi), lo, hi - 1, end)
  {
  }

  lemma TailDone<T>(comp: (T, T) -> int, t: seq<T>, lo: nat, end: nat)
    requires Tail(comp, t, lo, lo, end)
    ensures forall i, j :: lo <= i < j <= end ==> Le(comp, t[i], t[j])
  {
  }

  method LargestIn<T(!new)>(a: array<T>, lo: nat, hi: nat, comp: (T, T) -> int) returns (max: nat)
    requires lo <= hi < a.Length
    ensures lo <= max <= hi
    ensures TotalPreorder(comp) ==> forall i :: lo <= i <= hi ==> Le(comp, a[i], a[max])
  {
    hide TotalPreorder;
    max := lo;
    if TotalPreorder(comp) {
      Flip(comp, a[lo], a[lo]);
    }
    var p := lo + 1;
    while p <= hi
      invariant lo <= max < p <= hi + 1
      invariant TotalPreorder(comp) ==> forall i :: lo <= i < p ==> Le(comp, a[i], a[max])
    {
      if comp(a[p], a[max]) > 0 {
        if TotalPreorder(comp) {
          Flip(comp, a[p], a[max]);
          Flip(comp, a[p], a[p]);
          forall i | lo <= i < p ensures Le(comp, a[i], a[p]) {
            Transitive(comp, a[i], a[max], a[p]);
          }
        }
        max := p;
      }
      p := p + 1;
    }
  }

  /** Between lo and l everything is at most the pivot at lo, and from h on at least that. */
  ghost predicate Split<T>(comp: (T, T) -> int, t: seq<T>, lo: nat, hi: nat, l: nat, h: nat) {
    && lo <= l && lo <= h && hi < |t| && l <= hi + 1
    && (forall i :: lo < i < l ==> Le(comp, t[i], t[lo]))
    && (forall j :: h < j <= hi ==> Le(comp, t[lo], t[j]))
  }

  lemma SplitSwap<T(!new)>(comp: (T, T) -> int, t: seq<T>, lo: nat, hi: nat, l: nat, h: nat)
    requires TotalPreorder(comp) && Split(comp, t, lo, hi, l, h) && lo < l <= h <= hi
    requires !Le(comp, t[l], t[lo]) && (h > lo ==> comp(t[h], t[lo]) < 0)
    ensures l < h && Split(comp, Swapped(t, l, h), lo, hi, l + 1, h - 1)
  {
    Flip(comp, t[l], t[lo]);
    Flip(comp, t[h], t[lo]);
    Flip(comp, t[lo], t[h]);
  }

  lemma SplitDone<T(!new)>(comp: (T, T) -> int, t: seq<T>, lo: nat, hi: nat, l: nat, h: nat)
    requires TotalPreorder(comp) && Split(comp, t, lo, hi, l, h) && lo <= h < l <= hi + 1
    requires h > lo ==> comp(t[h], t[lo]) < 0
    ensures Partitioned(comp, Swapped(t, lo, h), lo, hi, l, h)
  {
    Flip(comp, t[lo], t[lo]);
    Flip(comp, t[h], t[lo]);
    var u := Swapped(t, lo, h);
    forall i | lo <= i < l ensures Le(comp, u[i], u[h]) {}
    forall j | h <= j <= hi ensures Le(comp, u[h], u[j]) {
      if h < j < l {
        assert u[j] == t[j];
      }
    }
  }

  /** One pass of quicksort around the middle element, which ends up at h. */
  method Partition<T(!new)>(a: array<T>, lo: nat, hi: nat, comp: (T, T) -> int) returns (l: nat, h: nat)
    requires lo < hi < a.Length
    modifies a
    ensures Rearranged(old(a[..]), a[..], lo, hi)
    ensures lo <= h < l <= hi + 1
    ensures TotalPreorder(comp) ==> Partitioned(comp, a[..], lo, hi, l, h)
  {
    hide TotalPreorder, Swapped, Rearranged, Partitioned, Split;
    ghost var s := a[..];
    Unmoved(s, lo, hi);
    var mid := lo + (hi - lo + 1) / 2;
    Swap(a, mid, lo);
    SwapRearranges(s, s, lo, hi, mid, lo);
    l, h := lo, hi + 1;
    assert Split(comp, a[..], lo, hi, lo + 1, hi) by { SplitStart(comp, a[..], lo, hi); }
    while true
      invariant lo <= l <= h <= hi + 1 && lo < h && l <= hi
      invariant Rearranged(s, a[..], lo, hi)
      invariant TotalPreorder(comp) ==> Split(comp, a[..], lo, hi, l + 1, h - 1)
      decreases h - l
    {
      l := ScanUp(a, lo, hi, l + 1, h - 1, comp);
      h := ScanDown(a, lo, hi, l, h - 1, comp);
      if h < l {
        break;
      }
      ghost var t := a[..];
      Swap(a, l, h);
      SwapRearranges(s, t, lo, hi, l, h);
      if TotalPreorder(comp) {
        SplitSwap(comp, t, lo, hi, l, h);
      }
    }
    ghost var t := a[..];
    Swap(a, lo, h);
    SwapRearranges(s, t, lo, hi, lo, h);
    if TotalPreorder(comp) {
      SplitDone(comp, t, lo, hi, l, h);
    }
  }

  lemma SplitStart<T>(comp: (T, T) -> int, t: seq<T>, lo: nat, hi: nat)
    requires lo < hi < |t|
    ensures Split(comp, t, lo, hi, lo + 1, hi)
  {
  }

  method ScanUp<T(!new)>(a: array<T>, lo: nat, hi: nat, from: nat, ghost h: nat, comp: (T, T) -> int) returns (l: nat)
    requires lo < from <= hi + 1 <= a.Length
    ensures from <= l <= hi + 1 && (l <= hi ==> !Le(comp, a[l], a[lo]))
    ensures Split(comp, a[..], lo, hi, from, h) ==> Split(comp, a[..], lo, hi, l, h)
  {
    l := from;
    while l <= hi && comp(a[l], a[lo]) <= 0
      invariant from <= l <= hi + 1
      invariant Split(comp, a[..], lo, hi, from, h) ==> Split(comp, a[..], lo, hi, l, h)
    {
      l := l + 1;
    }
  }

  method ScanDown<T(!new)>(a: array<T>, lo: nat, hi: nat, ghost l: nat, from: nat, comp: (T, T) -> int) returns (h: nat)
    requires lo <= from <= hi < a.Length
    ensures lo <= h <= from && (h > lo ==> comp(a[h], a[lo]) < 0)
    ensures TotalPreorder(comp) && Split(comp, a[..], lo, hi, l, from) ==> Split(comp, a[..], lo, hi, l, h)
  {
    hide TotalPreorder;
    h := from;
    while h > lo && comp(a[h], a[lo]) >= 0
      invariant lo <= h <= from
      invariant TotalPreorder(comp) && Split(comp, a[..], lo, hi, l, from) ==> Split(comp, a[..], lo, hi, l, h)
    {
      if TotalPreorder(comp) {
        Flip(comp, a[h], a[lo]);
      }
      h := h - 1;
    }
  }

  // ------------------------------------------------------------------
  // The stack of pending segments
  // ------------------------------------------------------------------

  const STACK := 30
  const SIZE_MAX := 0xffff_ffff

  /** What is left of n after k halvings. */
  function Share(n: nat, k: nat): nat {
    if k == 0 then n else Share(n, k - 1) / 2
  }

  /** The pending segment at stack depth k is at most the k-th halving of the array. */
  ghost predicate Halved(pending: seq<Segment>, n: nat) {
    forall k :: 0 <= k < |pending| ==> pending[k].Size() <= Share(n, k)
  }

  function Cap(k: nat): nat
    requires k <= 32
    decreases 32 - k
  {
    if k == 32 then 1 else 2 * Cap(k + 1)
  }

  lemma CapValues()
    ensures Cap(29) == 8 && Cap(0) == SIZE_MAX + 1
  {
    assert Cap(29) == 8;
    assert Cap(26) == 64 && Cap(23) == 512 && Cap(20) == 4096 && Cap(17) == 32768;
    assert Cap(14) == 262144 && Cap(11) == 2097152 && Cap(8) == 16777216;
    assert Cap(5) == 134217728 && Cap(2) == 1073741824;
  }

  lemma {:induction false} ShareBelowCap(n: nat, k: nat)
    requires n < Cap(0) && k <= 32
    ensures Share(n, k) < Cap(k)
  {
    if k > 0 {
      ShareBelowCap(n, k - 1);
    }
  }

  lemma {:induction false} ShareShrinks(n: nat, j: nat, k: nat)
    requires j <= k
    ensures Share(n, k) <= Share(n, j)
    decreases k
  {
    if j < k {
      ShareShrinks(n, j, k - 1);
    }
  }

  /** A segment long enough to be split lies low enough for its larger part to fit on the stack. */
  lemma StackSuffices(P: seq<Segment>, g: Segment, n: nat)
    requires n <= SIZE_MAX && Halved(P + [g], n) && g.Size() > 8
    ensures |P| < STACK - 1
  {
    assert (P + [g])[|P|] == g;
    if |P| >= 29 {
      CapValues();
      ShareBelowCap(n, 29);
      ShareShrinks(n, 29, |P|);
    }
  }

  lemma PartsHalved(P: seq<Segment>, g: Segment, n: nat, big: seq<Segment>, small: seq<Segment>)
    requires Halved(P + [g], n) && |big| <= 1 && |small| <= 1
    requires |big| == 1 ==> big[0].Size() <= g.Size()
    requires |small| == 1 ==> 2 * small[0].Size() <= g.Size()
    ensures Halved(P + (big + small), n)
  {
    var was, now := P + [g], P + (big + small);
    assert was[|P|] == g;
    forall k | 0 <= k < |now| ensures now[k].Size() <= Share(n, k) {
      if k < |P| { assert now[k] == was[k]; }
    }
  }

  function Total(pending: seq<Segment>): nat {
    if pending == [] then 0
    else Total(pending[..|pending| - 1]) + (var g := pending[|pending| - 1]; if g.Size() > 0 then g.Size() else 0)
  }

  lemma TotalSnoc(P: seq<Segment>, g: Segment)
    ensures Total(P + [g]) == Total(P) + if g.Size() > 0 then g.Size() else 0
  {
    assert (P + [g])[..|P|] == P;
  }

  lemma TotalParts(P: seq<Segment>, g: Segment, l: nat, h: nat, Q: seq<Segment>)
    requires g.lo <= h < l <= g.hi + 1
    requires Q == LeftPart(g.lo, h) + RightPart(l, g.hi) || Q == RightPart(l, g.hi) + LeftPart(g.lo, h)
    ensures Total(P + Q) < Total(P + [g])
  {
    hide Total;
    TotalSnoc(P, g);
    if |Q| == 0 {
      assert P + Q == P;
    } else if |Q| == 1 {
      TotalSnoc(P, Q[0]);
      assert Q == [Q[0]];
    } else {
      TotalSnoc(P, Q[0]);
      TotalSnoc(P + [Q[0]], Q[1]);
      assert P + Q == P + [Q[0]] + [Q[1]];
    }
  }

  /** The two arrays of stack ends hold these segments. */
  ghost predicate Holds(lostk: array<nat>, histk: array<nat>, stack: seq<Segment>)
    reads lostk, histk
  {
    && lostk.Length == histk.Length == STACK && |stack| <= STACK
    && forall k :: 0 <= k < |stack| ==> stack[k] == Segment(lostk[k], histk[k])
  }

  /** Everything that holds between two turns, for the segments still pending. */
  ghost predicate Progress<T(!new)>(comp: (T, T) -> int, s: seq<T>, t: seq<T>, pending: seq<Segment>) {
    && |s| == |t| && multiset(s) == multiset(t)
    && Apart(pending, |t|) && Halved(pending, |t|)
    && (TotalPreorder(comp) ==> Ordered(comp, t, pending))
  }

  lemma Started<T(!new)>(comp: (T, T) -> int, s: seq<T>)
    requires |s| >= 2
    ensures Progress(comp, s, s, [Segment(0, |s| - 1)])
  {
    var p := [Segment(0, |s| - 1)];
    assert p[0].lo == 0 && p[0].hi == |s| - 1;
    forall i, j | 0 <= i < j < |s| ensures Together(p, i, j) {
      assert p[0].Has(i) && p[0].Has(j);
    }
  }

  lemma SortedSegment<T(!new)>(comp: (T, T) -> int, s: seq<T>, t: seq<T>, u: seq<T>, P: seq<Segment>, g: Segment)
    requires Progress(comp, s, t, P + [g]) && Rearranged(t, u, g.lo, g.hi)
    requires TotalPreorder(comp) ==> forall i, j :: g.lo <= i < j <= g.hi ==> Le(comp, u[i], u[j])
    ensures Progress(comp, s, u, P) && Total(P) < Total(P + [g])
  {
    WholePermutation(t, u, g.lo, g.hi);
    if TotalPreorder(comp) {
      SegmentSettled(comp, t, u, P, g, []);
      assert P + [] == P;
    }
    TotalSnoc(P, g);
    var was := P + [g];
    assert was[|P|] == g && forall k :: 0 <= k < |P| ==> was[k] == P[k];
  }

  lemma SplitSegment<T(!new)>(comp: (T, T) -> int, s: seq<T>, t: seq<T>, u: seq<T>, P: seq<Segment>, g: Segment,
                              l: nat, h: nat, big: seq<Segment>, small: seq<Segment>)
    requires Progress(comp, s, t, P + [g]) && Rearranged(t, u, g.lo, g.hi)
    requires g.lo <= h < l <= g.hi + 1
    requires TotalPreorder(comp) ==> Partitioned(comp, u, g.lo, g.hi, l, h)
    requires if h - g.lo >= g.hi + 1 - l then big == LeftPart(g.lo, h) && small == RightPart(l, g.hi)
             else big == RightPart(l, g.hi) && small == LeftPart(g.lo, h)
    ensures Progress(comp, s, u, P + (big + small)) && Total(P + (big + small)) < Total(P + [g])
  {
    var Q := big + small;
    WholePermutation(t, u, g.lo, g.hi);
    PartsApart(P, g, |t|, l, h, Q);
    PartsHalved(P, g, |t|, big, small);
    TotalParts(P, g, l, h, Q);
    if TotalPreorder(comp) {
      PartsSettle(comp, u, g.lo, g.hi, l, h, Q);
      SegmentSettled(comp, t, u, P, g, Q);
    }
  }

  lemma Finished<T(!new)>(comp: (T, T) -> int, s: seq<T>, t: seq<T>)
    requires Progress(comp, s, t, [])
    ensures multiset(s) == multiset(t) && (TotalPreorder(comp) ==> Sorted(comp, t))
  {
    if TotalPreorder(comp) {
      forall i, j | 0 <= i < j < |t| ensures Le(comp, t[i], t[j]) {
        assert !Together([], i, j);
      }
    }
  }

  /** The comparison of the two parts in bytes is a comparison of their lengths. */
  lemma BytesCompare(left: int, right: int, width: nat)
    requires width > 0
    ensures left * width - 1 >= (right - 1) * width <==> left >= right
  {
    if left >= right {
      assert (left - right) * width >= 0;
    } else {
      assert (right - 1 - left) * width >= 0;
    }
    assert (right - 1) * width - left * width == (right - 1 - left) * width;
  }

  /** `qsort`, for any comparison function at all: always a permutation, and sorted if the function defines an order. */
  method QSort<T(!new)>(a: array<T>, width: nat, comp: (T, T) -> int)
    requires a.Length <= SIZE_MAX
    modifies a
    ensures multiset(a[..]) == multiset(old(a[..]))
    ensures width > 0 && TotalPreorder(comp) ==> Sorted(comp, a[..])
  {
    if a.Length < 2 || width == 0 {
      return;
    }
    hide TotalPreorder, Progress, Total, Halved, Sorted, Le, Holds;
    var lostk, histk := new nat[STACK], new nat[STACK];
    var lo: nat, hi: nat, more := 0, a.Length - 1, true;
    var stkptr := 0;
    ghost var s, stack, pending := a[..], [], [Segment(lo, hi)];
    Started(comp, s);
    NothingHeld(lostk, histk);
    while more
      invariant Progress(comp, s, a[..], pending)
      invariant pending == if more then stack + [Segment(lo, hi)] else []
      invariant stkptr == |stack| && Holds(lostk, histk, stack)
      decreases Total(pending)
    {
      InBounds(comp, s, a[..], stack, Segment(lo, hi));
      lo, hi, stkptr, more, stack, pending := SortOrSplit(a, lo, hi, width, comp, lostk, histk, stkptr, stack, s);
      if !more && stkptr > 0 {
        lo, hi, stkptr, stack := Pop(lostk, histk, stkptr, stack);
        more := true;
      }
    }
    Finished(comp, s, a[..]);
  }

  lemma NothingHeld(lostk: array<nat>, histk: array<nat>)
    requires lostk.Length == histk.Length == STACK
    ensures Holds(lostk, histk, [])
  {
  }

  method Pop(lostk: array<nat>, histk: array<nat>, stkptr0: nat, ghost stack0: seq<Segment>)
    returns (lo: nat, hi: nat, stkptr: nat, ghost stack: seq<Segment>)
    requires stkptr0 == |stack0| > 0 && Holds(lostk, histk, stack0)
    ensures stkptr == |stack| && stack0 == stack + [Segment(lo, hi)] && Holds(lostk, histk, stack)
  {
    stkptr := stkptr0 - 1;
    lo, hi := lostk[stkptr], histk[stkptr];
    stack := stack0[..stkptr];
  }

  /** A turn of the outer loop up to the pop: a short segment is sorted, a long one split. */
  method SortOrSplit<T(!new)>(a: array<T>, lo0: nat, hi0: nat, width: nat, comp: (T, T) -> int,
                              lostk: array<nat>, histk: array<nat>, stkptr0: nat, ghost stack0: seq<Segment>,
                                  ghost s: seq<T>)
    returns (lo: nat, hi: nat, stkptr: nat, more: bool, ghost stack: seq<Segment>, ghost pending: seq<Segment>)
    requires width > 0 && a.Length <= SIZE_MAX && lo0 < hi0 < a.Length
    requires stkptr0 == |stack0| && Holds(lostk, histk, stack0)
    requires Progress(comp, s, a[..], stack0 + [Segment(lo0, hi0)]) && Halved(stack0 + [Segment(lo0, hi0)], a.Length)
    requires lostk != histk && a as object != lostk && a as object != histk
    modifies a, lostk, histk
    ensures stkptr == |stack| && Holds(lostk, histk, stack)
    ensures Progress(comp, s, a[..], pending) && pending == if more then stack + [Segment(lo, hi)] else stack
    ensures Total(pending) < Total(stack0 + [Segment(lo0, hi0)])
  {
    hide TotalPreorder, Progress, Total, Halved;
    ghost var t, g := a[..], Segment(lo0, hi0);
    if hi0 - lo0 + 1 <= 8 {
      lo, hi, stkptr, more, stack, pending := lo0, hi0, stkptr0, false, stack0, stack0;
      ShortSort(a, lo, hi, comp);
      SortedSegment(comp, s, t, a[..], stack, g);
    } else {
      lo, hi, stkptr, more, stack, pending := SplitAndPush(a, lo0, hi0, width, comp, lostk, histk, stkptr0, stack0, s);
    }
  }

  lemma InBounds<T(!new)>(comp: (T, T) -> int, s: seq<T>, t: seq<T>, P: seq<Segment>, g: Segment)
    requires Progress(comp, s, t, P + [g])
    ensures g.lo < g.hi < |t| && Halved(P + [g], |t|)
  {
    assert (P + [g])[|P|] == g;
  }

  /** Partitions a long segment; the larger part goes on the stack, the smaller one is next. */
  method SplitAndPush<T(!new)>(a: array<T>, lo0: nat, hi0: nat, width: nat, comp: (T, T) -> int,
                               lostk: array<nat>, histk: array<nat>, stkptr0: nat, ghost stack0: seq<Segment>,
                                   ghost s: seq<T>)
    returns (lo: nat, hi: nat, stkptr: nat, more: bool, ghost stack: seq<Segment>, ghost pending: seq<Segment>)
    requires width > 0 && a.Length <= SIZE_MAX && lo0 < hi0 < a.Length && hi0 - lo0 + 1 > 8
    requires stkptr0 == |stack0| && Holds(lostk, histk, stack0)
    requires Progress(comp, s, a[..], stack0 + [Segment(lo0, hi0)]) && Halved(stack0 + [Segment(lo0, hi0)], a.Length)
    requires lostk != histk && a as object != lostk && a as object != histk
    modifies a, lostk, histk
    ensures stkptr == |stack| && Holds(lostk, histk, stack)
    ensures Progress(comp, s, a[..], pending) && pending == if more then stack + [Segment(lo, hi)] else stack
    ensures Total(pending) < Total(stack0 + [Segment(lo0, hi0)])
  {
    hide TotalPreorder, Rearranged, Partitioned, Progress, Total, Halved;
    ghost var t, g := a[..], Segment(lo0, hi0);
    StackSuffices(stack0, g, a.Length);
    lo, hi, stkptr, more, stack := lo0, hi0, stkptr0, false, stack0;
    var l, h := Partition(a, lo, hi, comp);
    BytesCompare(h - lo, hi + 1 - l, width);
    ghost var left, right := LeftPart(lo, h), RightPart(l, hi);
    if (h - lo) * width - 1 >= (hi - l) * width {
      SplitSegment(comp, s, t, a[..], stack0, g, l, h, left, right);
      pending := stack0 + (left + right);
      if lo + 1 < h {
        lostk[stkptr], histk[stkptr] := lo, h - 1;
        stkptr := stkptr + 1;
        stack := stack + [Segment(lo, h - 1)];
      }
      if l < hi {
        lo, more := l, true;
      }
    } else {
      SplitSegment(comp, s, t, a[..], stack0, g, l, h, right, left);
      pending := stack0 + (right + left);
      if l < hi {
        lostk[stkptr], histk[stkptr] := l, hi;
        stkptr := stkptr + 1;
        stack := stack + [Segment(l, hi)];
      }
      if lo + 1 < h {
        hi, more := h - 1, true;
      }
    }
  }
}
