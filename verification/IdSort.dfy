/** mdb_midl_sort: quicksort with an explicit stack of 64 slots, and insertion sort
    for short segments. */
module IdSort {
  import opened IdList
  import opened Words

  const SMALL: int := 8
  const INT_MAX: int := 0x7FFF_FFFF
  const STACK_SLOTS: nat := 64

  /** The most ids for which no sum of two ends of a segment can exceed an int. */
  const SORT_MAX: nat := 0x4000_0003

  // ---- moving ids around ---------------------------------------------------

  /** t is s with its ids rearranged, and nothing moved outside [l, r]. */
  ghost predicate Rearranged(s: seq<Id>, t: seq<Id>, l: int, r: int) {
    && |t| == |s|
    && multiset(t) == multiset(s)
    && forall p :: 0 <= p < |s| && (p < l || r < p) ==> t[p] == s[p]
  }

  ghost predicate Within(s: seq<Id>, l: int, r: int, lo: Id, hi: Id) {
    forall p :: 0 <= p < |s| && l <= p <= r ==> lo <= s[p] <= hi
  }

  lemma {:induction false} SwapRearranges(s: seq<Id>, i: nat, j: nat, l: int, r: int)
    requires i < |s| && j < |s| && l <= i <= r && l <= j <= r
    ensures Rearranged(s, s[i := s[j]][j := s[i]], l, r)
  {
  }

  lemma {:induction false} RearrangedTrans(s: seq<Id>, t: seq<Id>, u: seq<Id>, l: int, r: int)
    requires Rearranged(s, t, l, r) && Rearranged(t, u, l, r)
    ensures Rearranged(s, u, l, r)
  {
  }

  /** MIDL_SWAP */
  method Swap(ids: array<Id>, i: nat, j: nat, ghost l: int, ghost r: int)
    requires i < ids.Length && j < ids.Length && l <= i <= r && l <= j <= r
    modifies ids
    ensures ids[i] == old(ids[j]) && ids[j] == old(ids[i])
    ensures forall p :: 0 <= p < ids.Length && p != i && p != j ==> ids[p] == old(ids[p])
    ensures Rearranged(old(ids[..]), ids[..], l, r)
  {
    SwapRearranges(ids[..], i, j, l, r);
    ids[i], ids[j] := ids[j], ids[i];
    assert ids[..] == old(ids[..])[i := old(ids[j])][j := old(ids[i])];
  }

  // ---- insertion sort ------------------------------------------------------

  ghost predicate DescendingIn(s: seq<Id>, l: int, r: int) {
    forall p, q :: 0 <= p < q < |s| && l <= p && q <= r ==> s[p] >= s[q]
  }

  /** The hole left by the id `a` in s is at k: filling it gives back the ids. */
  ghost predicate Shifted(s: seq<Id>, first: seq<Id>, a: Id, k: nat, l: nat, j: nat) {
    && l <= k <= j < |s| == |first|
    && Rearranged(first, s[k := a], l, j)
    && (forall p :: l <= p < k ==> s[p] == first[p])
    && (forall p :: k < p <= j ==> s[p] == first[p - 1] && s[p] < a)
  }

  lemma {:induction false} HoleMoves(s: seq<Id>, first: seq<Id>, a: Id, k: nat, l: nat, j: nat)
    requires l < k <= j < |s| && Rearranged(first, s[k := a], l, j)
    ensures Rearranged(first, s[k := s[k - 1]][k - 1 := a], l, j)
  {
    var t := s[k := a];
    SwapRearranges(t, k - 1, k, l, j);
    var u := t[k - 1 := t[k]][k := t[k - 1]];
    assert u == s[k := s[k - 1]][k - 1 := a];
    RearrangedTrans(first, t, u, l, j);
  }

  lemma {:induction false} ShiftOne(s: seq<Id>, first: seq<Id>, a: Id, k: nat, l: nat, j: nat)
    requires Shifted(s, first, a, k, l, j) && l < k && s[k - 1] < a
    ensures Shifted(s[k := s[k - 1]], first, a, k - 1, l, j)
  {
    var u := s[k := s[k - 1]];
    assert Rearranged(first, u[k - 1 := a], l, j) by { HoleMoves(s, first, a, k, l, j); }
    assert forall p :: l <= p < k - 1 ==> u[p] == first[p];
    assert forall p :: k - 1 < p <= j ==> u[p] == first[p - 1] && u[p] < a;
  }

  lemma {:induction false} ShiftDone(s: seq<Id>, first: seq<Id>, a: Id, k: nat, l: nat, j: nat)
    requires Shifted(s, first, a, k, l, j) && first[j] == a
    requires DescendingIn(first, l, j - 1)
    requires k == l || s[k - 1] >= a
    ensures DescendingIn(s[k := a], l, j) && Rearranged(first, s[k := a], l, j)
  {
    var t := s[k := a];
    forall p, q | l <= p < q <= j
      ensures t[p] >= t[q]
    {
      if q > k && p > k {
        assert t[p] == first[p - 1] && t[q] == first[q - 1];
      } else if q < k {
        assert t[p] == first[p] && t[q] == first[q];
      } else if p < k {
        assert t[p] == first[p] >= first[k - 1];
      }
    }
  }

  /** Every id in front of l is at least a. */
  ghost predicate AtLeast(s: seq<Id>, l: nat, a: Id)
    requires l <= |s|
  {
    forall p :: 1 <= p < l ==> s[p] >= a
  }

  /** Insert ids[j] into the descending ids[l..j].  The scan would run down to slot 1,
      but every id before the segment is at least as large as those in it. */
  method Insert(ids: array<Id>, l: nat, j: nat)
    requires 1 <= l < j < ids.Length
    requires DescendingIn(ids[..], l, j - 1)
    requires AtLeast(ids[..], l, ids[j])
    modifies ids
    ensures Rearranged(old(ids[..]), ids[..], l, j)
    ensures DescendingIn(ids[..], l, j)
  {
    ghost var first := ids[..];
    var a := ids[j];
    hide Shifted, Rearranged, DescendingIn, AtLeast;
    ShiftStart(first, a, l, j);
    var i := OpenHole(ids, first, a, l, j);
    ghost var s := ids[..];
    ShiftDone(s, first, a, i + 1, l, j);
    ids[i + 1] := a;
    assert ids[..] == s[i + 1 := a];
  }

  /** Shift smaller ids up until the place for a is free. */
  method OpenHole(ids: array<Id>, ghost first: seq<Id>, a: Id, ghost l: nat, j: nat) returns (i: int)
    requires 1 <= l < j < ids.Length == |first| && first[j] == a
    requires Shifted(ids[..], first, a, j, l, j) && AtLeast(first, l, a)
    modifies ids
    ensures l - 1 <= i < j && Shifted(ids[..], first, a, i + 1, l, j)
    ensures i + 1 == l || ids[i] >= a
  {
    hide Shifted, AtLeast;
    i := j - 1;
    while i >= 1 && ids[i] < a
      invariant l - 1 <= i < j
      invariant Shifted(ids[..], first, a, i + 1, l, j)
      decreases i
    {
      i := ShiftUp(ids, first, a, i, l, j);
    }
  }

  lemma {:induction false} ShiftStart(first: seq<Id>, a: Id, l: nat, j: nat)
    requires l < j < |first| && first[j] == a
    ensures Shifted(first, first, a, j, l, j)
  {
    assert first[j := a] == first;
  }

  method ShiftUp(ids: array<Id>, ghost first: seq<Id>, ghost a: Id, i: int, ghost l: nat, ghost j: nat) returns (i': int)
    requires l >= 1 && i >= 1 && i + 1 < ids.Length
    requires Shifted(ids[..], first, a, i + 1, l, j) && ids[i] < a && first[j] == a
    requires l <= |first| && AtLeast(first, l, a)
    modifies ids
    ensures i' == i - 1 && l - 1 <= i'
    ensures Shifted(ids[..], first, a, i' + 1, l, j)
  {
    ghost var s := ids[..];
    assert s[i + 1 := a][i] == s[i];
    ShiftOne(s, first, a, i + 1, l, j);
    ids[i + 1] := ids[i];
    assert ids[..] == s[i + 1 := s[i]];
    i' := i - 1;
  }

  /** Insertion sort of ids[l..ir+1]. */
  method SortSmall(ids: array<Id>, l: int, ir: int, ghost lo: Id, ghost hi: Id)
    requires 1 <= l <= ir + 1 <= ids.Length
    requires Within(ids[..], l, ir, lo, hi)
    requires forall p :: 1 <= p < l <= ir ==> ids[p] >= hi
    modifies ids
    ensures Rearranged(old(ids[..]), ids[..], l, ir)
    ensures DescendingIn(ids[..], l, ir)
    ensures Within(ids[..], l, ir, lo, hi)
  {
    ghost var first := ids[..];
    var j := l + 1;
    while j <= ir
      invariant l + 1 <= j && (j <= ir + 1 || l >= ir)
      invariant Rearranged(first, ids[..], l, ir)
      invariant forall p :: j <= p <= ir ==> ids[p] == first[p]
      invariant DescendingIn(ids[..], l, j - 1)
      invariant Within(ids[..], l, ir, lo, hi)
      decreases ir - j
    {
      ghost var s := ids[..];
      Insert(ids, l, j);
      InsertWithin(s, ids[..], l, j, ir, lo, hi);
      RearrangedTrans(first, s, ids[..], l, ir);
      j := j + 1;
    }
  }

  /** Rearranging part of a segment keeps the segment's bounds. */
  lemma {:induction false} InsertWithin(s: seq<Id>, t: seq<Id>, l: int, j: int, ir: int, lo: Id, hi: Id)
    requires 0 <= l && j <= ir < |s| && Rearranged(s, t, l, j) && Within(s, l, ir, lo, hi)
    ensures Within(t, l, ir, lo, hi)
    ensures Rearranged(s, t, l, ir)
  {
    forall p | l <= p <= ir
      ensures lo <= t[p] <= hi
    {
      if p <= j {
        RearrangedFrom(s, t, l, j, p);
      }
    }
  }

  /** An id inside the rearranged segment was inside it before. */
  lemma {:induction false} RearrangedFrom(s: seq<Id>, t: seq<Id>, l: int, r: int, p: int)
    requires 0 <= l <= p <= r < |s| && Rearranged(s, t, l, r)
    ensures exists q :: l <= q <= r && s[q] == t[p]
  {
    var x := t[p];
    CountSplit(s, l, r + 1, x);
    CountSplit(t, l, r + 1, x);
    assert s[..l] == t[..l] && s[r + 1..] == t[r + 1..];
    assert t[l..r + 1][p - l] == x;
    assert x in multiset(t[l..r + 1]);
    assert x in s[l..r + 1];
  }

  lemma {:induction false} CountSplit(s: seq<Id>, l: nat, r: nat, x: Id)
    requires l <= r <= |s|
    ensures multiset(s)[x] == multiset(s[..l])[x] + multiset(s[l..r])[x] + multiset(s[r..])[x]
  {
    assert s == s[..l] + s[l..r] + s[r..];
  }

  // ---- partitioning --------------------------------------------------------

  /** The upward scan for an id that is not above the pivot stops inside the segment, at
      ids[ir] at the latest. */
  method ScanUp(ids: array<Id>, i0: int, ir: int, a: Id) returns (i: int)
    requires 0 <= i0 < ir < ids.Length && ids[ir] <= a
    ensures i0 < i <= ir && ids[i] <= a
    ensures forall p :: i0 < p < i ==> ids[p] > a
  {
    i := i0 + 1;
    while ids[i] > a
      invariant i0 < i <= ir
      invariant forall p :: i0 < p < i ==> ids[p] > a
      decreases ir - i
    {
      i := i + 1;
    }
  }

  /** The downward scan for an id that is not below the pivot stops at the pivot in ids[l+1]
      at the latest. */
  method ScanDown(ids: array<Id>, j0: int, low: int, a: Id) returns (j: int)
    requires 0 <= low < j0 <= ids.Length && ids[low] >= a
    ensures low <= j < j0 && ids[j] >= a
    ensures forall p :: j < p < j0 ==> ids[p] < a
  {
    j := j0 - 1;
    while ids[j] < a
      invariant low <= j < j0
      invariant forall p :: j < p < j0 ==> ids[p] < a
      decreases j
    {
      j := j - 1;
    }
  }

  function Middle(x: Id, y: Id, z: Id): Id {
    if x <= y <= z || z <= y <= x then y else if y <= x <= z || z <= x <= y then x else z
  }

  /** Puts the median of three ids at l+1, the others around it. */
  method Median(ids: array<Id>, l: int, ir: int)
    requires 1 <= l && l + SMALL <= ir < ids.Length
    modifies ids
    ensures Rearranged(old(ids[..]), ids[..], l, ir)
    ensures ids[l] >= ids[l + 1] >= ids[ir]
    ensures ids[l + 1] == Middle(old(ids[l]), old(ids[(l + ir) / 2]), old(ids[ir]))
  {
    ghost var s0 := ids[..];
    var k := (l + ir) / 2;
    Swap(ids, k, l + 1, l, ir);
    ghost var s1 := ids[..];
    if ids[l] < ids[ir] { Swap(ids, l, ir, l, ir); } else { assert Rearranged(s1, ids[..], l, ir); }
    ghost var s2 := ids[..];
    RearrangedTrans(s0, s1, s2, l, ir);
    if ids[l + 1] < ids[ir] { Swap(ids, l + 1, ir, l, ir); } else { assert Rearranged(s2, ids[..], l, ir); }
    ghost var s3 := ids[..];
    RearrangedTrans(s0, s2, s3, l, ir);
    if ids[l] < ids[l + 1] { Swap(ids, l, l + 1, l, ir); } else { assert Rearranged(s3, ids[..], l, ir); }
    RearrangedTrans(s0, s3, ids[..], l, ir);
  }

  /** Ids up to i are at least a, ids from j on at most a, and a is at l+1. */
  ghost predicate Parting(s: seq<Id>, l: int, ir: int, i: int, j: int, a: Id) {
    && 0 <= l && l + 1 <= i && l + 1 < j && i <= ir && j <= ir < |s|
    && s[l + 1] == a
    && (forall p :: l <= p <= i ==> s[p] >= a)
    && (forall p :: j <= p <= ir ==> s[p] <= a)
  }

  method Partition(ids: array<Id>, l: int, ir: int) returns (i: int, j: int, a: Id)
    requires 1 <= l && l + SMALL <= ir < ids.Length
    modifies ids
    ensures Rearranged(old(ids[..]), ids[..], l, ir)
    ensures l + 1 <= j < i <= ir
    ensures forall p :: l <= p < j ==> ids[p] >= a
    ensures forall p :: j <= p < i ==> ids[p] == a
    ensures forall p :: i <= p <= ir ==> ids[p] <= a
    ensures a == Middle(old(ids[l]), old(ids[(l + ir) / 2]), old(ids[ir]))
  {
    ghost var s0 := ids[..];
    Median(ids, l, ir);
    ghost var s1 := ids[..];
    a := ids[l + 1];
    i, j := Scan(ids, l, ir, a);
    ghost var s2 := ids[..];
    hide Rearranged, Middle;
    PlacePivot(ids, l, ir, i, j, a);
    RearrangedTrans(s0, s1, s2, l, ir);
    RearrangedTrans(s0, s2, ids[..], l, ir);
  }

  /** The two scans meet, swapping ids that are on the wrong side. */
  method Scan(ids: array<Id>, l: int, ir: int, a: Id) returns (i: int, j: int)
    requires 1 <= l && l + SMALL <= ir < ids.Length && ids[l] >= ids[l + 1] == a >= ids[ir]
    modifies ids
    ensures Rearranged(old(ids[..]), ids[..], l, ir) && ids[l + 1] == a && l + 1 <= j < i <= ir
    ensures forall p :: l <= p < i ==> ids[p] >= a
    ensures forall p :: j < p <= ir ==> ids[p] <= a
  {
    ghost var s0 := ids[..];
    i, j := l + 1, ir;
    while true
      invariant i <= j && i < ir
      invariant Parting(ids[..], l, ir, i, j, a)
      invariant Rearranged(s0, ids[..], l, ir)
      decreases j
    {
      hide Rearranged;
      i := ScanUp(ids, i, ir, a);
      j := ScanDown(ids, j, l + 1, a);
      if j < i { break; }
      ghost var s1 := ids[..];
      Swap(ids, i, j, l, ir);
      RearrangedTrans(s0, s1, ids[..], l, ir);
    }
  }

  /** ids[l+1] = ids[j]; ids[j] = a */
  method PlacePivot(ids: array<Id>, l: int, ir: int, i: int, j: int, a: Id)
    requires 1 <= l && l + 1 <= j < i <= ir < ids.Length && ids[l + 1] == a
    requires forall p :: l <= p < i ==> ids[p] >= a
    requires forall p :: j < p <= ir ==> ids[p] <= a
    modifies ids
    ensures Rearranged(old(ids[..]), ids[..], l, ir)
    ensures forall p :: l <= p < j ==> ids[p] >= a
    ensures forall p :: j <= p < i ==> ids[p] == a
    ensures forall p :: i <= p <= ir ==> ids[p] <= a
  {
    SwapRearranges(ids[..], l + 1, j, l, ir);
    ids[l + 1] := ids[j];
    ids[j] := a;
    assert ids[..] == old(ids[..])[l + 1 := old(ids[j])][j := old(ids[l + 1])];
  }

  // ---- pending segments ----------------------------------------------------

  /** A segment still to be sorted, with bounds for all of its ids. */
  datatype Seg = Seg(l: int, r: int, lo: Id, hi: Id)

  function Size(g: Seg): int { g.r - g.l + 1 }

  predicate Inside(g: Seg, p: int) { g.l <= p <= g.r }

  ghost predicate Together(segs: seq<Seg>, p: int, q: int) {
    exists k :: 0 <= k < |segs| && Inside(segs[k], p) && Inside(segs[k], q)
  }

  /** Each position has bounds for its id; ids of different segments are in order. */
  ghost predicate Sorting(s: seq<Id>, n: nat, lo: seq<Id>, hi: seq<Id>, segs: seq<Seg>) {
    && n < |s| == |lo| == |hi|
    && (forall p :: 1 <= p <= n ==> lo[p] <= s[p] <= hi[p])
    && (forall k :: 0 <= k < |segs| ==> 1 <= segs[k].l <= segs[k].r + 1 <= n + 1)
    && (forall k, p :: 0 <= k < |segs| && Inside(segs[k], p) ==> lo[p] == segs[k].lo && hi[p] == segs[k].hi)
    && (forall k, m, p :: 0 <= k < m < |segs| && Inside(segs[k], p) ==> !Inside(segs[m], p))
    && (forall p, q :: 1 <= p < q <= n ==> lo[p] >= hi[q] || Together(segs, p, q))
  }

  function Narrow(b: seq<Id>, t: seq<Id>, l: int, r: int): (c: seq<Id>)
    requires |b| == |t|
    ensures |c| == |b|
    ensures forall p :: 0 <= p < |b| ==> c[p] == if l <= p <= r then t[p] else b[p]
  {
    seq(|b|, p requires 0 <= p < |b| => if l <= p <= r then t[p] else b[p])
  }

  /** The last segment is in order now. */
  lemma {:induction false} SegSorted(s: seq<Id>, t: seq<Id>, n: nat, lo: seq<Id>, hi: seq<Id>, segs: seq<Seg>)
    requires Sorting(s, n, lo, hi, segs) && segs != []
    requires var g := segs[|segs| - 1];
             Rearranged(s, t, g.l, g.r) && DescendingIn(t, g.l, g.r) && Within(t, g.l, g.r, g.lo, g.hi)
    ensures var g := segs[|segs| - 1];
            Sorting(t, n, Narrow(lo, t, g.l, g.r), Narrow(hi, t, g.l, g.r), segs[..|segs| - 1])
  {
    var g, rest := segs[|segs| - 1], segs[..|segs| - 1];
    var lo', hi' := Narrow(lo, t, g.l, g.r), Narrow(hi, t, g.l, g.r);
    forall k, p | 0 <= k < |rest| && Inside(rest[k], p)
      ensures lo'[p] == rest[k].lo && hi'[p] == rest[k].hi
    {
      assert !Inside(g, p);
    }
    forall p, q | 1 <= p < q <= n
      ensures lo'[p] >= hi'[q] || Together(rest, p, q)
    {
      if !(Inside(g, p) && Inside(g, q)) && lo[p] < hi[q] {
        var k :| 0 <= k < |segs| && Inside(segs[k], p) && Inside(segs[k], q);
        assert k < |rest| && rest[k] == segs[k];
      }
    }
  }

  function Fill(b: seq<Id>, l: int, r: int, a: Id): (c: seq<Id>)
    ensures |c| == |b|
    ensures forall p :: 0 <= p < |b| ==> c[p] == if l <= p <= r then a else b[p]
  {
    seq(|b|, p requires 0 <= p < |b| => if l <= p <= r then a else b[p])
  }

  /** What Partition leaves of a segment. */
  ghost predicate Parted(t: seq<Id>, g: Seg, i: int, j: int, a: Id) {
    && 0 <= g.l && g.l + 1 <= j < i <= g.r < |t|
    && (forall p :: g.l <= p < j ==> t[p] >= a)
    && (forall p :: j <= p < i ==> t[p] == a)
    && (forall p :: i <= p <= g.r ==> t[p] <= a)
  }

  lemma {:induction false} SegBounds(s: seq<Id>, t: seq<Id>, n: nat, lo: seq<Id>, hi: seq<Id>, segs: seq<Seg>)
    requires Sorting(s, n, lo, hi, segs) && segs != []
    requires var g := segs[|segs| - 1]; Rearranged(s, t, g.l, g.r)
    ensures var g := segs[|segs| - 1]; Within(s, g.l, g.r, g.lo, g.hi) && Within(t, g.l, g.r, g.lo, g.hi)
  {
    var g := segs[|segs| - 1];
    forall p | g.l <= p <= g.r
      ensures g.lo <= s[p] <= g.hi
    {
      assert Inside(segs[|segs| - 1], p);
    }
    InsertWithin(s, t, g.l, g.r, g.r, g.lo, g.hi);
  }

  lemma {:induction false} PartedBounds(s: seq<Id>, t: seq<Id>, n: nat, lo: seq<Id>, hi: seq<Id>, segs: seq<Seg>,
                                        i: int, j: int, a: Id)
    requires Sorting(s, n, lo, hi, segs) && segs != []
    requires var g := segs[|segs| - 1]; Rearranged(s, t, g.l, g.r) && Parted(t, g, i, j, a)
    ensures var g := segs[|segs| - 1];
            && g.lo <= a <= g.hi
            && forall p :: 1 <= p <= n ==> Fill(lo, g.l, i - 1, a)[p] <= t[p] <= Fill(hi, j, g.r, a)[p]
  {
    var g := segs[|segs| - 1];
    SegBounds(s, t, n, lo, hi, segs);
    assert g.lo <= a <= g.hi by { assert t[j] == a; }
    forall p | 1 <= p <= n
      ensures Fill(lo, g.l, i - 1, a)[p] <= t[p] <= Fill(hi, j, g.r, a)[p]
    {
      if Inside(g, p) {
        assert Inside(segs[|segs| - 1], p);
      } else {
        assert t[p] == s[p];
      }
    }
  }

  /** The two parts take the place of the last segment, in either order. */
  ghost predicate IsParted(segs: seq<Seg>, segs': seq<Seg>, i: int, j: int, a: Id) {
    segs != [] && |segs'| == |segs| + 1
    && (forall k :: 0 <= k < |segs| - 1 ==> segs'[k] == segs[k])
    && var g, x, y := segs[|segs| - 1], segs'[|segs| - 1], segs'[|segs|];
       var left, right := Seg(g.l, j - 1, a, g.hi), Seg(i, g.r, g.lo, a);
       && g.l + 1 <= j < i <= g.r
       && ((x == left && y == right) || (x == right && y == left))
  }

  ghost predicate BoundsAre(lo: seq<Id>, hi: seq<Id>, g: Seg, p: int) {
    0 <= p < |lo| == |hi| && lo[p] == g.lo && hi[p] == g.hi
  }

  lemma {:induction false} PartedAt(s: seq<Id>, n: nat, lo: seq<Id>, hi: seq<Id>, segs: seq<Seg>, lo': seq<Id>, hi': seq<Id>,
                                    segs': seq<Seg>, i: int, j: int, a: Id, k: nat, p: int)
    requires Sorting(s, n, lo, hi, segs) && IsParted(segs, segs', i, j, a)
    requires var g := segs[|segs| - 1]; lo' == Fill(lo, g.l, i - 1, a) && hi' == Fill(hi, j, g.r, a)
    requires k < |segs'| && Inside(segs'[k], p)
    ensures BoundsAre(lo', hi', segs'[k], p)
    ensures Inside(segs[if k < |segs| - 1 then k else |segs| - 1], p)
  {
    var m := if k < |segs| - 1 then k else |segs| - 1;
    assert Inside(segs[m], p);
    assert m < |segs| - 1 ==> !Inside(segs[|segs| - 1], p);
  }

  lemma {:induction false} PartedApart(s: seq<Id>, n: nat, lo: seq<Id>, hi: seq<Id>, segs: seq<Seg>, segs': seq<Seg>,
                                       i: int, j: int, a: Id, k: nat, m: nat, p: int)
    requires Sorting(s, n, lo, hi, segs) && IsParted(segs, segs', i, j, a)
    requires k < m < |segs'| && Inside(segs'[k], p)
    ensures !Inside(segs'[m], p)
  {
    var last := |segs| - 1;
    var g := segs[last];
    PartedAt(s, n, lo, hi, segs, Fill(lo, g.l, i - 1, a), Fill(hi, j, g.r, a), segs', i, j, a, k, p);
    if Inside(segs'[m], p) {
      PartedAt(s, n, lo, hi, segs, Fill(lo, g.l, i - 1, a), Fill(hi, j, g.r, a), segs', i, j, a, m, p);
    }
  }

  lemma {:induction false} PartedSegs(s: seq<Id>, n: nat, lo: seq<Id>, hi: seq<Id>, segs: seq<Seg>, lo': seq<Id>, hi': seq<Id>,
                                      segs': seq<Seg>, i: int, j: int, a: Id)
    requires Sorting(s, n, lo, hi, segs) && IsParted(segs, segs', i, j, a)
    requires var g := segs[|segs| - 1]; lo' == Fill(lo, g.l, i - 1, a) && hi' == Fill(hi, j, g.r, a)
    ensures forall k, p :: 0 <= k < |segs'| && Inside(segs'[k], p) ==> BoundsAre(lo', hi', segs'[k], p)
    ensures forall k, m, p :: 0 <= k < m < |segs'| && Inside(segs'[k], p) ==> !Inside(segs'[m], p)
  {
    forall k, p | 0 <= k < |segs'| && Inside(segs'[k], p)
      ensures BoundsAre(lo', hi', segs'[k], p)
    {
      PartedAt(s, n, lo, hi, segs, lo', hi', segs', i, j, a, k, p);
    }
    forall k, m, p | 0 <= k < m < |segs'| && Inside(segs'[k], p)
      ensures !Inside(segs'[m], p)
    {
      PartedApart(s, n, lo, hi, segs, segs', i, j, a, k, m, p);
    }
  }

  /** The last segment is replaced by its two parts, in either order. */
  lemma {:induction false} SegParted(s: seq<Id>, t: seq<Id>, n: nat, lo: seq<Id>, hi: seq<Id>, segs: seq<Seg>,
                                     i: int, j: int, a: Id, x: Seg, y: Seg)
    requires Sorting(s, n, lo, hi, segs) && segs != []
    requires var g := segs[|segs| - 1];
             && Rearranged(s, t, g.l, g.r) && Parted(t, g, i, j, a)
             && var left, right := Seg(g.l, j - 1, a, g.hi), Seg(i, g.r, g.lo, a);
                (x == left && y == right) || (x == right && y == left)
    ensures var g := segs[|segs| - 1];
            Sorting(t, n, Fill(lo, g.l, i - 1, a), Fill(hi, j, g.r, a), segs[..|segs| - 1] + [x, y])
  {
    var g, rest := segs[|segs| - 1], segs[..|segs| - 1];
    var lo', hi', segs' := Fill(lo, g.l, i - 1, a), Fill(hi, j, g.r, a), rest + [x, y];
    PartedBounds(s, t, n, lo, hi, segs, i, j, a);
    PartedSegs(s, n, lo, hi, segs, lo', hi', segs', i, j, a);
    forall p, q | 1 <= p < q <= n
      ensures lo'[p] >= hi'[q] || Together(segs', p, q)
    {
      PartedOrder(s, n, lo, hi, segs, i, j, a, x, y, p, q);
    }
  }

  lemma {:induction false} PartedOrder(s: seq<Id>, n: nat, lo: seq<Id>, hi: seq<Id>, segs: seq<Seg>,
                                       i: int, j: int, a: Id, x: Seg, y: Seg, p: int, q: int)
    requires Sorting(s, n, lo, hi, segs) && segs != [] && 1 <= p < q <= n
    requires var g := segs[|segs| - 1];
             && g.l + 1 <= j < i <= g.r && g.lo <= a <= g.hi
             && var left, right := Seg(g.l, j - 1, a, g.hi), Seg(i, g.r, g.lo, a);
                (x == left && y == right) || (x == right && y == left)
    ensures var g := segs[|segs| - 1];
            Fill(lo, g.l, i - 1, a)[p] >= Fill(hi, j, g.r, a)[q] || Together(segs[..|segs| - 1] + [x, y], p, q)
  {
    var g, rest := segs[|segs| - 1], segs[..|segs| - 1];
    var segs' := rest + [x, y];
    assert segs'[|rest|] == x && segs'[|rest| + 1] == y;
    var kx := |rest|;
    if Inside(g, p) && Inside(g, q) {
      if q < j || i <= p {
        assert (Inside(segs'[kx], p) && Inside(segs'[kx], q)) || (Inside(segs'[kx + 1], p) && Inside(segs'[kx + 1], q));
      }
    } else {
      if Inside(g, p) { assert Inside(segs[|segs| - 1], p); }
      if Inside(g, q) { assert Inside(segs[|segs| - 1], q); }
      if lo[p] < hi[q] {
        var k :| 0 <= k < |segs| && Inside(segs[k], p) && Inside(segs[k], q);
        assert k < |rest| && segs'[k] == segs[k];
      }
    }
  }

  // ---- the stack -----------------------------------------------------------

  lemma {:induction false} Pow2Grows(j: nat, k: nat)
    requires j <= k
    ensures Pow2(j) <= Pow2(k)
    decreases k
  {
    if j < k { Pow2Grows(j, k - 1); }
  }

  /** Since the larger part is pushed, segment k has at most n / 2^k ids. */
  ghost predicate Halving(segs: seq<Seg>, n: nat) {
    forall k :: 0 <= k < |segs| ==> Size(segs[k]) * Pow2(k) <= n
  }

  /** The stack never needs more than 28 of its 31 pairs of slots. */
  lemma {:induction false} StackFits(segs: seq<Seg>, n: nat)
    requires Halving(segs, n) && n <= INT_MAX && segs != [] && Size(segs[|segs| - 1]) > SMALL
    ensures |segs| <= 28
  {
    var m := |segs| - 1;
    MulGrows(9, Size(segs[m]), Pow2(m));
    Pow2Is28();
    if m >= 28 { Pow2Grows(28, m); }
  }

  lemma MulGrows(a: int, b: int, c: nat)
    requires a <= b
    ensures a * c <= b * c
  {
  }

  lemma Pow2Is28()
    ensures Pow2(28) == 0x1000_0000
  {
    assert Pow2(4) == 16;
    assert Pow2(8) == 256;
    assert Pow2(12) == 0x1000;
    assert Pow2(16) == 0x1_0000;
    assert Pow2(20) == 0x10_0000;
    assert Pow2(24) == 0x100_0000;
  }

  lemma {:induction false} HalvingPush(segs: seq<Seg>, n: nat, x: Seg, y: Seg)
    requires Halving(segs, n) && segs != []
    requires var g := segs[|segs| - 1];
             0 <= Size(y) <= Size(x) && Size(x) + Size(y) < Size(g)
    ensures Halving(segs[..|segs| - 1] + [x, y], n)
  {
    var m := |segs| - 1;
    var g, segs' := segs[m], segs[..m] + [x, y];
    assert Size(g) * Pow2(m) <= n;
    MulGrows(Size(x), Size(g), Pow2(m));
    MulGrows(2 * Size(y), Size(g), Pow2(m));
    assert Size(y) * Pow2(m + 1) == 2 * Size(y) * Pow2(m);
    forall k | 0 <= k < |segs'|
      ensures Size(segs'[k]) * Pow2(k) <= n
    {
      if k < m { assert segs'[k] == segs[k]; }
    }
  }

  /** istack[1..jstack+1] holds the ends of the pending segments below the top one. */
  ghost predicate OnStack(st: seq<int>, segs: seq<Seg>) {
    && |st| == STACK_SLOTS && 2 * |segs| < STACK_SLOTS
    && forall k :: 0 <= k < |segs| ==> st[2 * k + 1] == segs[k].l && st[2 * k + 2] == segs[k].r
  }

  lemma {:induction false} OnStackPush(st: seq<int>, segs: seq<Seg>, g: Seg)
    requires OnStack(st, segs) && |segs| <= 28
    ensures var k := 2 * |segs|; OnStack(st[k + 2 := g.r][k + 1 := g.l], segs + [g])
  {
  }

  function Work(segs: seq<Seg>): nat
  {
    if segs == [] then 0 else Work(segs[..|segs| - 1]) + 1 + 2 * (if Size(segs[|segs| - 1]) > 0 then Size(segs[|segs| - 1]) else 0)
  }

  lemma {:induction false} WorkPush(segs: seq<Seg>, x: Seg, y: Seg)
    requires segs != [] && 0 <= Size(x) && 0 <= Size(y) && Size(x) + Size(y) < Size(segs[|segs| - 1])
    ensures Work(segs[..|segs| - 1] + [x, y]) < Work(segs)
  {
    var rest := segs[..|segs| - 1];
    assert (rest + [x, y])[..|rest| + 1] == rest + [x];
    assert (rest + [x])[..|rest|] == rest;
  }

  // ---- sums that do not fit --------------------------------------------------

  /** n ids whose first partition cuts off exactly the last nine. */
  ghost predicate Unlucky(s: seq<Id>, n: int) {
    19 < n < |s| && forall p :: 1 <= p <= n ==> s[p] == if p == (1 + n) / 2 then 1 else if p > n - 9 then 0 else 2
  }

  /** For every length there is such a list. */
  lemma UnluckyExists(n: nat) returns (s: seq<Id>)
    requires 19 < n <= MAX_ID
    ensures |s| == n + 1 && s[0] == n && Unlucky(s, n)
  {
    s := seq(n + 1, p requires 0 <= p <= n => if p == 0 then n else if p == (1 + n) / 2 then 1 else if p > n - 9 then 0 else 2);
  }

  lemma {:induction false} CountAll(s: seq<Id>, v: Id)
    requires forall p :: 0 <= p < |s| ==> s[p] == v
    ensures multiset(s)[v] == |s|
    decreases |s|
  {
    if s == [] {
    } else {
      CountAll(s[1..], v);
      assert s == [s[0]] + s[1..];
    }
  }

  lemma {:induction false} CountNone(s: seq<Id>, v: Id)
    requires forall p :: 0 <= p < |s| ==> s[p] != v
    ensures multiset(s)[v] == 0
  {
    assert v !in s;
  }

  /** Zeros at the end of a list, and nowhere else. */
  lemma {:induction false} CountTail(s: seq<Id>, n: nat, i: nat)
    requires 1 <= i <= n + 1 <= |s|
    requires forall p :: 1 <= p <= n ==> (s[p] == 0 <==> p >= i)
    ensures multiset(s[1..n + 1])[0] == n + 1 - i
  {
    assert s[1..n + 1] == s[1..i] + s[i..n + 1];
    CountAll(s[i..n + 1], 0);
    CountNone(s[1..i], 0);
  }

  lemma {:induction false} CountOne(s: seq<Id>, n: nat, k: nat, v: Id)
    requires 1 <= k <= n < |s|
    requires forall p :: 1 <= p <= n ==> (s[p] == v <==> p == k)
    ensures multiset(s[1..n + 1])[v] == 1
  {
    assert s[1..n + 1] == s[1..k] + [s[k]] + s[k + 1..n + 1];
    CountNone(s[1..k], v);
    CountNone(s[k + 1..n + 1], v);
  }

  lemma {:induction false} CountTwo(s: seq<Id>, n: nat, j: nat, k: nat, v: Id)
    requires 1 <= j < k <= n < |s| && s[j] == s[k] == v
    ensures multiset(s[1..n + 1])[v] >= 2
  {
    assert s[1..n + 1] == s[1..j] + [s[j]] + s[j + 1..k] + [s[k]] + s[k + 1..n + 1];
  }

  lemma {:induction false} SameIds(s: seq<Id>, t: seq<Id>, n: nat)
    requires n < |s| && Rearranged(s, t, 1, n)
    ensures multiset(s[1..n + 1]) == multiset(t[1..n + 1])
  {
    assert s == s[..1] + s[1..n + 1] + s[n + 1..] && t == t[..1] + t[1..n + 1] + t[n + 1..];
    assert s[..1] == t[..1] && s[n + 1..] == t[n + 1..];
    Cancel(multiset(s[..1]), multiset(s[1..n + 1]), multiset(t[1..n + 1]), multiset(s[n + 1..]));
  }

  lemma {:induction false} UnluckyCut(s: seq<Id>, t: seq<Id>, n: nat, g: Seg, i: int, j: int, a: Id)
    requires Unlucky(s, n) && Rearranged(s, t, 1, n) && g.l == 1 && g.r == n && Parted(t, g, i, j, a)
    requires a == Middle(s[1], s[(1 + n) / 2], s[n])
    ensures i == n - 8 && j == n - 9
  {
    var k := (1 + n) / 2;
    SameIds(s, t, n);
    CountOne(s, n, k, 1);
    CountTail(s, n, n - 8);
    forall p | 1 <= p <= n && p != j ensures t[p] != 1 {
      if t[p] == 1 { CountTwo(t, n, if p < j then p else j, if p < j then j else p, 1); }
    }
    assert t[i - 1] == 1;
    CountTail(t, n, i);
  }

  // ---- the whole sort ------------------------------------------------------

  /** Everything the main loop keeps. */
  ghost predicate SortInv(first: seq<Id>, s: seq<Id>, n: nat, lo: seq<Id>, hi: seq<Id>, segs: seq<Seg>) {
    && segs != []
    && Rearranged(first, s, 1, n)
    && Sorting(s, n, lo, hi, segs)
    && Halving(segs, n)
  }

  lemma {:induction false} SortStart(s: seq<Id>, n: nat, bot: Id)
    requires n < |s| && bot == 0
    ensures SortInv(s, s, n, seq(|s|, _ => bot), seq(|s|, _ => TOP), [Seg(1, n, bot, TOP)])
  {
    var segs := [Seg(1, n, bot, TOP)];
    var lo, hi := seq(|s|, _ => bot), seq(|s|, _ => TOP);
    hide Rearranged, Halving;
    RearrangedSelf(s, 1, n);
    HalvingStart(n, bot);
    forall p, q | 1 <= p < q <= n
      ensures lo[p] >= hi[q] || Together(segs, p, q)
    {
      assert Inside(segs[0], p) && Inside(segs[0], q);
    }
    assert Sorting(s, n, lo, hi, segs);
  }

  lemma {:induction false} RearrangedSelf(s: seq<Id>, l: int, r: int)
    ensures Rearranged(s, s, l, r)
  {
  }

  lemma {:induction false} HalvingStart(n: nat, bot: Id)
    ensures Halving([Seg(1, n, bot, TOP)], n)
  {
  }

  lemma {:induction false} RearrangedWider(s: seq<Id>, t: seq<Id>, l: int, r: int, n: int)
    requires Rearranged(s, t, l, r) && 1 <= l && r <= n
    ensures Rearranged(s, t, 1, n)
  {
  }

  /** With no segment left, the ids are in descending order. */
  lemma {:induction false} SortDone(first: seq<Id>, s: seq<Id>, n: nat, lo: seq<Id>, hi: seq<Id>)
    requires n < |first| && Rearranged(first, s, 1, n) && Sorting(s, n, lo, hi, [])
    ensures Descending(s[1..n + 1]) && multiset(s[1..n + 1]) == multiset(first[1..n + 1])
  {
    var u, v := s[1..n + 1], first[1..n + 1];
    forall i, j | 0 <= i < j < |u|
      ensures u[i] >= u[j]
    {
      assert !Together([], i + 1, j + 1);
      assert lo[i + 1] >= hi[j + 1];
    }
    assert s == s[..1] + u + s[n + 1..] && first == first[..1] + v + first[n + 1..];
    assert s[..1] == first[..1] && s[n + 1..] == first[n + 1..];
    Cancel(multiset(s[..1]), multiset(u), multiset(v), multiset(s[n + 1..]));
  }

  /** What sorting the first n ids does to a list of len. */
  lemma {:induction false} SortedPart(s: seq<Id>, t: seq<Id>, n: nat, len: nat)
    requires n <= len < |s| && Rearranged(s, t, 1, n) && (n > 0 ==> Descending(t[1..n + 1]))
    ensures Rearranged(s, t, 1, len) && t[0] == s[0] && (forall p :: len < p < |s| ==> t[p] == s[p])
    ensures |t| == |s| && multiset(t[1..len + 1]) == multiset(s[1..len + 1])
    ensures Descending(t[1..len + 1][..n]) && t[1..len + 1][n..] == s[1..len + 1][n..]
  {
    SameIds(s, t, len);
    assert t[1..len + 1][..n] == t[1..n + 1];
  }

  lemma Cancel(a: multiset<Id>, u: multiset<Id>, v: multiset<Id>, b: multiset<Id>)
    requires a + u + b == a + v + b
    ensures u == v
  {
    forall x: Id
      ensures u[x] == v[x]
    {
      assert (a + u + b)[x] == (a + v + b)[x];
    }
  }

  /** Ids in front of a segment are at least as large as those in it. */
  lemma {:induction false} FrontAbove(s: seq<Id>, n: nat, lo: seq<Id>, hi: seq<Id>, segs: seq<Seg>, p: int)
    requires Sorting(s, n, lo, hi, segs) && segs != []
    requires var g := segs[|segs| - 1]; 1 <= p < g.l <= g.r
    ensures s[p] >= segs[|segs| - 1].hi
  {
    var m := |segs| - 1;
    var g := segs[m];
    assert Inside(segs[m], g.l) && !Inside(segs[m], p);
    NotTogether(s, n, lo, hi, segs, m, p, g.l);
  }

  /** Different segments share no position. */
  lemma {:induction false} NotTogether(s: seq<Id>, n: nat, lo: seq<Id>, hi: seq<Id>, segs: seq<Seg>, m: nat, p: int, q: int)
    requires Sorting(s, n, lo, hi, segs) && m < |segs| && Inside(segs[m], q) && !Inside(segs[m], p)
    ensures !Together(segs, p, q)
  {
    forall k | 0 <= k < |segs| ensures !(Inside(segs[k], p) && Inside(segs[k], q)) {
    }
  }

  method SmallSegment(ids: array<Id>, l: int, ir: int, ghost first: seq<Id>, ghost n: nat,
                      ghost lo: seq<Id>, ghost hi: seq<Id>, ghost segs: seq<Seg>)
    returns (ghost lo': seq<Id>, ghost hi': seq<Id>)
    requires SortInv(first, ids[..], n, lo, hi, segs)
    requires segs[|segs| - 1].l == l && segs[|segs| - 1].r == ir
    modifies ids
    ensures Rearranged(first, ids[..], 1, n) && Sorting(ids[..], n, lo', hi', segs[..|segs| - 1])
    ensures Halving(segs[..|segs| - 1], n)
  {
    ghost var s, g := ids[..], segs[|segs| - 1];
    forall p | 1 <= p < l <= ir
      ensures ids[p] >= g.hi
    {
      FrontAbove(s, n, lo, hi, segs, p);
    }
    SegBounds(s, s, n, lo, hi, segs);
    SortSmall(ids, l, ir, g.lo, g.hi);
    ghost var t := ids[..];
    SegSorted(s, t, n, lo, hi, segs);
    lo', hi' := Narrow(lo, t, l, ir), Narrow(hi, t, l, ir);
    RearrangedWider(s, t, l, ir, n);
    RearrangedTrans(first, s, t, 1, n);
  }

  lemma {:induction false} SegInside(s: seq<Id>, n: nat, lo: seq<Id>, hi: seq<Id>, segs: seq<Seg>)
    requires Sorting(s, n, lo, hi, segs) && segs != []
    ensures var g := segs[|segs| - 1]; 1 <= g.l <= g.r + 1 <= n + 1 && n < |s| == |lo| == |hi|
  {
  }

  /** The larger part goes on the stack, the smaller one is next. */
  ghost function Pushed(segs: seq<Seg>, i: int, j: int, a: Id): seq<Seg>
    requires segs != []
  {
    var g := segs[|segs| - 1];
    var left, right := Seg(g.l, j - 1, a, g.hi), Seg(i, g.r, g.lo, a);
    segs[..|segs| - 1] + if g.r - i + 1 >= j - g.l then [right, left] else [left, right]
  }

  method LargeSegment(ids: array<Id>, l: int, ir: int, ghost first: seq<Id>, ghost n: nat,
                      ghost lo: seq<Id>, ghost hi: seq<Id>, ghost segs: seq<Seg>)
    returns (i: int, j: int, ghost a: Id, ghost lo': seq<Id>, ghost hi': seq<Id>)
    requires SortInv(first, ids[..], n, lo, hi, segs)
    requires segs[|segs| - 1].l == l && segs[|segs| - 1].r == ir && ir - l >= SMALL
    modifies ids
    ensures l + 1 <= j < i <= ir && (Unlucky(old(ids[..]), ir) && l == 1 ==> i == ir - 8 && j == ir - 9)
    ensures SortInv(first, ids[..], n, lo', hi', Pushed(segs, i, j, a))
    ensures Work(Pushed(segs, i, j, a)) < Work(segs)
  {
    ghost var s, g := ids[..], segs[|segs| - 1];
    hide Sorting, Halving, Rearranged, Work, Unlucky, Middle;
    SegInside(s, n, lo, hi, segs);
    i, j, a := PartitionTop(ids, l, ir, g);
    ghost var t := ids[..];
    hide Parted;
    lo', hi' := Fill(lo, l, i - 1, a), Fill(hi, j, ir, a);
    ghost var left, right := Seg(l, j - 1, a, g.hi), Seg(i, ir, g.lo, a);
    ghost var x, y := if ir - i + 1 >= j - l then right else left, if ir - i + 1 >= j - l then left else right;
    assert Pushed(segs, i, j, a) == segs[..|segs| - 1] + [x, y];
    SegParted(s, t, n, lo, hi, segs, i, j, a, x, y);
    HalvingPush(segs, n, x, y);
    WorkPush(segs, x, y);
    RearrangedWider(s, t, l, ir, n);
    RearrangedTrans(first, s, t, 1, n);
  }

  /** What partitioning does to the positions of the cut. */
  method PartitionTop(ids: array<Id>, l: int, ir: int, ghost g: Seg) returns (i: int, j: int, a: Id)
    requires 1 <= l && l + SMALL <= ir < ids.Length && g.l == l && g.r == ir
    modifies ids
    ensures Rearranged(old(ids[..]), ids[..], l, ir) && Parted(ids[..], g, i, j, a)
    ensures l + 1 <= j < i <= ir && (Unlucky(old(ids[..]), ir) && l == 1 ==> i == ir - 8 && j == ir - 9)
  {
    ghost var s := ids[..];
    i, j, a := Partition(ids, l, ir);
    assert Parted(ids[..], g, i, j, a);
    hide Rearranged, Parted, Unlucky, Middle;
    if Unlucky(s, ir) && l == 1 { UnluckyCut(s, ids[..], ir, g, i, j, a); }
  }

  ghost predicate AtTop(st: seq<int>, jstack: int, segs: seq<Seg>, l: int, ir: int) {
    && segs != []
    && segs[|segs| - 1].l == l && segs[|segs| - 1].r == ir
    && jstack == 2 * (|segs| - 1)
    && OnStack(st, segs[..|segs| - 1])
  }

  method Push(istack: array<int>, jstack: int, l: int, ir: int, i: int, j: int, ghost segs: seq<Seg>, ghost a: Id)
    returns (l': int, ir': int, jstack': int)
    requires AtTop(istack[..], jstack, segs, l, ir) && |segs| <= 28
    modifies istack
    ensures AtTop(istack[..], jstack', Pushed(segs, i, j, a), l', ir')
    ensures if ir - i + 1 >= j - l then l' == l && ir' == j - 1 else l' == i && ir' == ir
  {
    ghost var st, segs' := istack[..], Pushed(segs, i, j, a);
    ghost var m := |segs| - 1;
    assert segs'[..m + 1] == segs[..m] + [segs'[m]];
    OnStackPush(st, segs[..m], segs'[m]);
    jstack' := jstack + 2;
    if ir - i + 1 >= j - l {
      istack[jstack'] := ir;
      istack[jstack' - 1] := i;
      l', ir' := l, j - 1;
    } else {
      istack[jstack'] := j - 1;
      istack[jstack' - 1] := l;
      l', ir' := i, ir;
    }
    assert istack[..] == st[jstack' := segs'[m].r][jstack' - 1 := segs'[m].l];
  }

  method Pop(istack: array<int>, jstack: int, ghost segs: seq<Seg>) returns (l: int, ir: int, jstack': int)
    requires segs != [] && jstack == 2 * |segs| && OnStack(istack[..], segs)
    ensures AtTop(istack[..], jstack', segs, l, ir)
  {
    ghost var m := |segs| - 1;
    assert istack[..][2 * m + 1] == segs[m].l && istack[..][2 * m + 2] == segs[m].r;
    ir := istack[jstack];
    l := istack[jstack - 1];
    jstack' := jstack - 2;
  }

  /** What the sort keeps besides the arrays. */
  datatype Ghosts = Ghosts(first: seq<Id>, n: nat, lo: seq<Id>, hi: seq<Id>, segs: seq<Seg>)

  ghost predicate Running(s: seq<Id>, st: seq<int>, jstack: int, l: int, ir: int, g: Ghosts) {
    && SortInv(g.first, s, g.n, g.lo, g.hi, g.segs)
    && AtTop(st, jstack, g.segs, l, ir)
  }

  lemma {:induction false} TopFits(s: seq<Id>, g: Ghosts)
    requires SortInv(g.first, s, g.n, g.lo, g.hi, g.segs) && g.n <= INT_MAX && Size(g.segs[|g.segs| - 1]) > SMALL
    ensures |g.segs| <= 28 && 1 <= g.segs[|g.segs| - 1].l <= g.segs[|g.segs| - 1].r <= g.n < |s|
  {
    StackFits(g.segs, g.n);
  }

  method PartitionStep(ids: array<Id>, istack: array<int>, jstack: int, l: int, ir: int, ghost g: Ghosts)
    returns (jstack': int, l': int, ir': int, ghost g': Ghosts)
    requires ids as object != istack
    requires Running(ids[..], istack[..], jstack, l, ir, g) && g.n <= INT_MAX && ir - l >= SMALL
    modifies ids, istack
    ensures Running(ids[..], istack[..], jstack', l', ir', g')
    ensures g'.first == g.first && g'.n == g.n && Work(g'.segs) < Work(g.segs)
    ensures l <= l' && ir' <= ir && ir' - l' < ir - l
    ensures Unlucky(old(ids[..]), ir) && l == 1 ==> l' == ir - 8 && ir' == ir
  {
    hide SortInv, Work, OnStack, Halving;
    TopFits(ids[..], g);
    ghost var a, lo, hi;
    var i, j;
    i, j, a, lo, hi := LargeSegment(ids, l, ir, g.first, g.n, g.lo, g.hi, g.segs);
    l', ir', jstack' := Push(istack, jstack, l, ir, i, j, g.segs, a);
    g' := Ghosts(g.first, g.n, lo, hi, Pushed(g.segs, i, j, a));
  }

  method SmallStep(ids: array<Id>, istack: array<int>, jstack: int, l: int, ir: int, ghost g: Ghosts)
    returns (done: bool, jstack': int, l': int, ir': int, ghost g': Ghosts)
    requires ids as object != istack
    requires Running(ids[..], istack[..], jstack, l, ir, g)
    modifies ids
    ensures !done ==> Running(ids[..], istack[..], jstack', l', ir', g')
    ensures g'.first == g.first && g'.n == g.n && Work(g'.segs) < Work(g.segs)
    ensures done ==> Rearranged(g.first, ids[..], 1, g.n) && Sorting(ids[..], g.n, g'.lo, g'.hi, [])
  {
    ghost var lo, hi := SmallSegment(ids, l, ir, g.first, g.n, g.lo, g.hi, g.segs);
    g' := Ghosts(g.first, g.n, lo, hi, g.segs[..|g.segs| - 1]);
    done, jstack', l', ir' := jstack == 0, jstack, l, ir;
    if !done {
      l', ir', jstack' := Pop(istack, jstack, g'.segs);
    }
  }

  /** The loop of mdb_midl_sort, on the first n ids.  `fits` says whether every l+ir stayed
      within an int. */
  method SortFirst(ids: array<Id>, n: nat) returns (fits: bool)
    requires n < ids.Length && n <= INT_MAX
    modifies ids
    ensures Rearranged(old(ids[..]), ids[..], 1, n)
    ensures Descending(ids[1..n + 1]) && multiset(ids[1..n + 1]) == multiset(old(ids[1..n + 1]))
    ensures n <= SORT_MAX ==> fits
    ensures n == INT_MAX || (n > SORT_MAX && Unlucky(old(ids[..]), n)) ==> !fits
  {
    ghost var first := ids[..];
    var istack := new int[STACK_SLOTS];
    var l, ir: int, jstack, done := 1, n, 0, false;
    SortStart(first, n, 0);
    ghost var g := Ghosts(first, n, seq(|first|, _ => 0), seq(|first|, _ => TOP), [Seg(1, n, 0, TOP)]);
    fits := true;
    while !done
      invariant g.first == first && g.n == n
      invariant !done ==> Running(ids[..], istack[..], jstack, l, ir, g)
      invariant done ==> Rearranged(first, ids[..], 1, n) && Sorting(ids[..], n, g.lo, g.hi, [])
      invariant n <= SORT_MAX ==> fits
      invariant n == INT_MAX ==> !fits || (!done && l == 1 && ir == n)
      invariant n > SORT_MAX && Unlucky(first, n) ==>
                  !fits || (!done && ir == n && ((l == 1 && ids[..] == first) || l == n - 8))
      decreases Work(g.segs)
    {
      if ir - l < SMALL {
        done, jstack, l, ir, g := SmallStep(ids, istack, jstack, l, ir, g);
      } else {
        fits := fits && l + ir <= INT_MAX;
        jstack, l, ir, g := PartitionStep(ids, istack, jstack, l, ir, g);
      }
    }
    SortDone(first, ids[..], n, g.lo, g.hi);
    assert ids[..][1..n + 1] == ids[1..n + 1];
  }

  /** The cast of a list length to int. */
  function AsInt(v: Id): int {
    var w := v % 0x1_0000_0000;
    if w <= INT_MAX then w else w - 0x1_0000_0000
  }

  /** How many ids mdb_midl_sort looks at: all of them, if their number is an int. */
  function Prefix(v: Id): (n: nat)
    ensures n <= INT_MAX && n <= v && (v <= INT_MAX ==> n == v)
  {
    if AsInt(v) > 0 then AsInt(v) else 0
  }

  /** mdb_midl_sort.  `fits` says whether the number of ids and every l+ir stayed within an
      int: so for every list of up to SORT_MAX ids, and for no longer length for every
      list. */
  method Sort(ids: array<Id>) returns (fits: bool)
    requires Valid(ids)
    modifies ids
    ensures Valid(ids) && ids[0] == old(ids[0])
    ensures Descending(Ids(ids)[..Prefix(ids[0])]) && Ids(ids)[Prefix(ids[0])..] == old(Ids(ids)[Prefix(ids[0])..])
    ensures multiset(Ids(ids)) == multiset(old(Ids(ids)))
    ensures forall p :: ids[0] < p < ids.Length ==> ids[p] == old(ids[p])
    ensures ids[0] <= SORT_MAX ==> fits
    ensures ids[0] >= INT_MAX || (ids[0] > SORT_MAX && Unlucky(old(ids[..]), ids[0])) ==> !fits
  {
    hide Rearranged, Descending, Unlucky;
    ghost var s, n := ids[..], Prefix(ids[0]);
    RearrangedSelf(s, 1, n);
    fits := ids[0] <= INT_MAX;
    if AsInt(ids[0]) > 0 {
      var within := SortFirst(ids, AsInt(ids[0]));
      fits := fits && within;
    }
    SortedPart(s, ids[..], n, s[0]);
  }
}
