/** The dirty list of a nested transaction goes into its parent's, in place. */
module DirtyMerge {
  import opened IdList
  import opened DirtyList
  import opened IdSort
  import opened SpillList
  import opened NestedCommit

  // ---- pages the child spilled leave the parent's dirty list ----------------

  /** The entries of s whose page is not in `pages`. */
  function Without(s: seq<Entry>, pages: set<Id>): seq<Entry> {
    if s == [] then []
    else Without(s[..|s| - 1], pages) + if s[|s| - 1].mid in pages then [] else [s[|s| - 1]]
  }

  lemma {:induction false} WithoutIn(s: seq<Entry>, pages: set<Id>, x: Entry)
    ensures x in Without(s, pages) <==> x in s && x.mid !in pages
    decreases |s|
  {
    if s == [] {
    } else {
      WithoutIn(s[..|s| - 1], pages, x);
      assert s == s[..|s| - 1] + [s[|s| - 1]];
    }
  }

  lemma {:induction false} WithoutAscending(s: seq<Entry>, pages: set<Id>)
    requires Ascending(s)
    ensures Ascending(Without(s, pages))
    decreases |s|
  {
    if s == [] {
    } else {
      var rest := Without(s[..|s| - 1], pages);
      WithoutAscending(s[..|s| - 1], pages);
      forall i | 0 <= i < |rest|
        ensures rest[i].mid < s[|s| - 1].mid
      {
        WithoutIn(s[..|s| - 1], pages, rest[i]);
      }
    }
  }

  lemma {:induction false} WithoutMore(s: seq<Entry>, pages: set<Id>, p: Id)
    ensures Without(Without(s, pages), {p}) == Without(s, pages + {p})
    decreases |s|
  {
    if s == [] {
    } else {
      var rest, last := s[..|s| - 1], s[|s| - 1];
      WithoutMore(rest, pages, p);
      if last.mid !in pages {
        var w := Without(s, pages);
        assert w[..|w| - 1] == Without(rest, pages) && w[|w| - 1] == last;
      } else {
        assert Without(s, pages) == Without(rest, pages);
        assert Without(s, pages + {p}) == Without(rest, pages + {p});
      }
    }
  }

  lemma {:induction false} WithoutNone(s: seq<Entry>, pages: set<Id>)
    requires forall k :: 0 <= k < |s| ==> s[k].mid !in pages
    ensures Without(s, pages) == s
    decreases |s|
  {
    if s == [] {
    } else {
      WithoutNone(s[..|s| - 1], pages);
    }
  }

  lemma {:induction false} WithoutOne(s: seq<Entry>, y: nat)
    requires Ascending(s) && y < |s|
    ensures Without(s, {s[y].mid}) == s[..y] + s[y + 1..]
    decreases |s|
  {
    var rest := s[..|s| - 1];
    if y == |s| - 1 {
      WithoutNone(rest, {s[y].mid});
    } else {
      WithoutOne(rest, y);
      assert rest[..y] == s[..y] && s[y + 1..] == rest[y + 1..] + [s[|s| - 1]];
    }
  }

  /** Close the gap at y. */
  method RemoveAt(dst: array<Entry>, y0: nat)
    requires Valid2(dst) && 1 <= y0 <= Count(dst)
    modifies dst
    ensures Valid2(dst)
    ensures Entries(dst) == old(Entries(dst))[..y0 - 1] + old(Entries(dst))[y0..]
  {
    ghost var v := dst[..];
    var n: int := dst[0].mid;
    var y: int := y0;
    while y < n
      invariant y0 <= y <= n && dst[0] == v[0]
      invariant forall k :: 1 <= k < y0 || y <= k <= n ==> dst[k] == v[k]
      invariant forall k :: y0 <= k < y ==> dst[k] == v[k + 1]
    {
      dst[y] := dst[y + 1];
      y := y + 1;
    }
    dst[0] := dst[0].(mid := n - 1);
    GapClosed(v, dst[..], n, y0);
  }

  lemma {:induction false} GapClosed(v: seq<Entry>, u: seq<Entry>, n: nat, y: nat)
    requires 1 <= y <= n < |v| == |u|
    requires forall k :: 1 <= k < y ==> u[k] == v[k]
    requires forall k :: y <= k < n ==> u[k] == v[k + 1]
    ensures u[1..n] == v[1..n + 1][..y - 1] + v[1..n + 1][y..]
  {
    assert v[1..n + 1][..y - 1] == v[1..y] && v[1..n + 1][y..] == v[y + 1..n + 1];
    var t := u[1..n];
    assert t[..y - 1] == v[1..y];
    assert t[y - 1..] == v[y + 1..n + 1];
    assert t == t[..y - 1] + t[y - 1..];
  }

  /** Pages the child has spilled leave the parent's dirty list. */
  method RemoveSpilled(dst: array<Entry>, spill: array<Id>)
    requires Valid2(dst) && Ascending(Entries(dst)) && Valid(spill)
    modifies dst
    ensures Valid2(dst) && Entries(dst) == Without(old(Entries(dst)), Spilled(Ids(spill)))
    ensures Ascending(Entries(dst))
  {
    ghost var first, s := Entries(dst), Ids(spill);
    WithoutNone(first, {});
    assert Spilled(s[..0]) == {};
    hide Without, Spilled, Ascending;
    var i: nat := 0;
    while i < Len(spill)
      invariant i <= |s| == Len(spill) && Ids(spill) == s
      invariant Valid2(dst) && Ascending(Entries(dst))
      invariant Entries(dst) == Without(first, Spilled(s[..i]))
    {
      assert spill[i + 1] == s[i];
      RemoveEntry(dst, spill[i + 1], first, s, i);
      i := i + 1;
    }
    assert s[..i] == s;
  }

  /** A live entry of the spill list takes its page out. */
  method RemoveEntry(dst: array<Entry>, pn: Id, ghost first: seq<Entry>, ghost s: seq<Id>, ghost i: nat)
    requires Valid2(dst) && Ascending(first) && Ascending(Entries(dst)) && i < |s| && pn == s[i]
    requires Entries(dst) == Without(first, Spilled(s[..i]))
    modifies dst
    ensures Valid2(dst) && Ascending(Entries(dst)) && Entries(dst) == Without(first, Spilled(s[..i + 1]))
  {
    hide Without, Spilled, Ascending;
    SpilledMore(s, i);
    if pn % 2 == 0 {
      RemovePage(dst, pn / 2);
      WithoutMore(first, Spilled(s[..i]), pn / 2);
      WithoutAscending(first, Spilled(s[..i + 1]));
    }
  }

  lemma {:induction false} SpilledMore(s: seq<Id>, i: nat)
    requires i < |s|
    ensures Spilled(s[..i + 1]) == if Even(s[i]) then Spilled(s[..i]) + {s[i] / 2} else Spilled(s[..i])
  {
    assert s[..i + 1] == s[..i] + [s[i]];
  }

  method RemovePage(dst: array<Entry>, p: Id)
    requires Valid2(dst) && Ascending(Entries(dst))
    modifies dst
    ensures Valid2(dst) && Entries(dst) == Without(old(Entries(dst)), {p})
  {
    ghost var s := Entries(dst);
    var y := Search2(dst, p);
    assert forall k :: 0 <= k < |s| ==> dst[k + 1] == s[k];
    if y <= dst[0].mid && dst[y].mid == p {
      WithoutOne(s, y - 1);
      RemoveAt(dst, y);
    } else {
      WithoutNone(s, {p});
    }
  }

  // ---- merging two dirty lists ----------------------------------------------

  /** d (the parent's) and e (the child's) merged from the high end, in front of
      `done`; for a page in both, the child's entry is taken. */
  function JoinedOnto(d: seq<Entry>, e: seq<Entry>, done: seq<Entry>): seq<Entry>
    decreases |d| + |e|
  {
    if e == [] then d + done
    else
      var y := e[|e| - 1];
      if d != [] && d[|d| - 1].mid > y.mid then JoinedOnto(d[..|d| - 1], e, [d[|d| - 1]] + done)
      else if d != [] && d[|d| - 1].mid == y.mid then JoinedOnto(d[..|d| - 1], e[..|e| - 1], [y] + done)
      else JoinedOnto(d, e[..|e| - 1], [y] + done)
  }

  function Joined(d: seq<Entry>, e: seq<Entry>): seq<Entry> {
    JoinedOnto(d, e, [])
  }

  /** How many entries the merge has. */
  function UnionLen(d: seq<Entry>, e: seq<Entry>): nat
    decreases |d| + |e|
  {
    if e == [] then |d|
    else
      var y := e[|e| - 1];
      if d != [] && d[|d| - 1].mid > y.mid then 1 + UnionLen(d[..|d| - 1], e)
      else if d != [] && d[|d| - 1].mid == y.mid then 1 + UnionLen(d[..|d| - 1], e[..|e| - 1])
      else 1 + UnionLen(d, e[..|e| - 1])
  }

  /** The merged entries end with what was merged first. */
  lemma {:induction false} JoinedShape(d: seq<Entry>, e: seq<Entry>, done: seq<Entry>)
    ensures |JoinedOnto(d, e, done)| == UnionLen(d, e) + |done|
    ensures JoinedOnto(d, e, done)[UnionLen(d, e)..] == done
    decreases |d| + |e|
  {
    if e == [] {
    } else {
      var y := e[|e| - 1];
      if d != [] && d[|d| - 1].mid > y.mid {
        JoinedShape(d[..|d| - 1], e, [d[|d| - 1]] + done);
      } else if d != [] && d[|d| - 1].mid == y.mid {
        JoinedShape(d[..|d| - 1], e[..|e| - 1], [y] + done);
      } else {
        JoinedShape(d, e[..|e| - 1], [y] + done);
      }
    }
  }

  lemma {:induction false} UnionLenAtLeast(d: seq<Entry>, e: seq<Entry>)
    ensures UnionLen(d, e) >= |d|
    ensures UnionLen(d, e) <= |d| + |e|
    decreases |d| + |e|
  {
    if e == [] {
    } else {
      var y := e[|e| - 1];
      if d != [] && d[|d| - 1].mid > y.mid {
        UnionLenAtLeast(d[..|d| - 1], e);
      } else if d != [] && d[|d| - 1].mid == y.mid {
        UnionLenAtLeast(d[..|d| - 1], e[..|e| - 1]);
      } else {
        UnionLenAtLeast(d, e[..|e| - 1]);
      }
    }
  }

  lemma {:induction false} JoinedOntoAscending(d: seq<Entry>, e: seq<Entry>, done: seq<Entry>)
    requires Ascending(d) && Ascending(e) && Ascending(done)
    requires done != [] ==> forall k :: 0 <= k < |d| ==> d[k].mid < done[0].mid
    requires done != [] ==> forall k :: 0 <= k < |e| ==> e[k].mid < done[0].mid
    ensures Ascending(JoinedOnto(d, e, done))
    decreases |d| + |e|
  {
    if e == [] {
    } else {
      var y := e[|e| - 1];
      if d != [] && d[|d| - 1].mid > y.mid {
        JoinedOntoAscending(d[..|d| - 1], e, [d[|d| - 1]] + done);
      } else if d != [] && d[|d| - 1].mid == y.mid {
        JoinedOntoAscending(d[..|d| - 1], e[..|e| - 1], [y] + done);
      } else {
        JoinedOntoAscending(d, e[..|e| - 1], [y] + done);
      }
    }
  }

  /** An entry of the merge is the child's, or the parent's for a page the child does
      not have. */
  lemma {:induction false} JoinedOntoIn(d: seq<Entry>, e: seq<Entry>, done: seq<Entry>, x: Entry)
    requires Ascending(d) && Ascending(e)
    ensures x in JoinedOnto(d, e, done) <==> x in done || x in e || (x in d && x.mid !in Mids(e))
    decreases |d| + |e|
  {
    if e == [] {
      assert Mids(e) == {};
    } else {
      var y, e' := e[|e| - 1], e[..|e| - 1];
      LastIn(e, x);
      if d == [] {
        JoinedOntoIn(d, e', [y] + done, x);
      } else {
        var v, d' := d[|d| - 1], d[..|d| - 1];
        LastIn(d, x);
        if v.mid > y.mid {
          JoinedOntoIn(d', e, [v] + done, x);
        } else if v.mid == y.mid {
          JoinedOntoIn(d', e', [y] + done, x);
        } else {
          JoinedOntoIn(d, e', [y] + done, x);
        }
      }
    }
  }

  lemma {:induction false} LastIn(s: seq<Entry>, x: Entry)
    requires s != [] && Ascending(s)
    ensures var rest, last := s[..|s| - 1], s[|s| - 1];
            && (x in s <==> x in rest || x == last)
            && (x in rest ==> x.mid < last.mid)
            && (x.mid in Mids(s) <==> x.mid in Mids(rest) || x.mid == last.mid)
            && (x.mid in Mids(rest) ==> x.mid < last.mid)
  {
    var rest, last := s[..|s| - 1], s[|s| - 1];
    assert s == rest + [last];
    MidsLast(rest, last);
    MidsAt(rest, x.mid);
    hide Mids;
  }

  lemma {:induction false} JoinedIs(d: seq<Entry>, e: seq<Entry>)
    requires Ascending(d) && Ascending(e)
    ensures Ascending(Joined(d, e)) && |Joined(d, e)| == UnionLen(d, e)
    ensures forall x :: x in Joined(d, e) <==> x in e || (x in d && x.mid !in Mids(e))
  {
    JoinedOntoAscending(d, e, []);
    JoinedShape(d, e, []);
    forall x: Entry
      ensures x in Joined(d, e) <==> x in e || (x in d && x.mid !in Mids(e))
    {
      JoinedOntoIn(d, e, [], x);
    }
  }

  // ---- in place ---------------------------------------------------------------

  /** One round: the entries of s above y's page move from the end of s[..x0+1] to the
      end of s[..i0+1], w is where they stop, and y goes in front of them. */
  ghost predicate Placed2(s: seq<Entry>, t: seq<Entry>, y: Entry, x0: nat, i0: nat, w: nat, x: nat, i: nat) {
    && |t| == |s| && x <= w <= x0 <= i0 < |s| && i0 - i == x0 - w
    && (forall q :: w < q <= x0 ==> s[q].mid > y.mid)
    && (w > 0 ==> s[w].mid <= y.mid)
    && x == (if w > 0 && s[w].mid == y.mid then w - 1 else w)
    && (forall q :: 0 <= q < i || i0 < q < |s| ==> t[q] == s[q])
    && t[i] == y
    && (forall q :: i < q <= i0 ==> t[q] == s[q - (i0 - x0)])
  }

  method PlaceEntry(dst: array<Entry>, y: Entry, x0: nat, i0: nat) returns (x: nat, i: nat, ghost w: nat)
    requires x0 <= i0 < dst.Length && dst[0].mid == 0 && y.mid > 0
    modifies dst
    ensures Placed2(old(dst[..]), dst[..], y, x0, i0, w, x, i)
  {
    x, i := x0, i0;
    while y.mid < dst[x].mid
      invariant 0 <= x <= x0 && i0 - i == x0 - x
      invariant forall q :: x < q <= x0 ==> old(dst[q]).mid > y.mid
      invariant forall q :: 0 <= q <= i || i0 < q < dst.Length ==> dst[q] == old(dst[q])
      invariant forall q :: i < q <= i0 ==> dst[q] == old(dst[q - (i0 - x0)])
      decreases x
    {
      dst[i] := dst[x];
      i := i - 1;
      x := x - 1;
    }
    w := x;
    if y.mid == dst[x].mid {
      x := x - 1;
    }
    dst[i] := y;
  }

  ghost predicate Joining(s: seq<Entry>, m: seq<Entry>, d: seq<Entry>, e: seq<Entry>, x: nat, y: nat, i: nat) {
    && x <= |d| && y <= |e| && i <= |m| < |s| && |d| < |s|
    && s[0].mid == 0
    && i == UnionLen(d[..x], e[..y])
    && (forall q :: 1 <= q <= x ==> s[q] == d[q - 1])
    && (forall q :: i < q <= |m| ==> s[q] == m[q - 1])
    && JoinedOnto(d[..x], e[..y], m[i..]) == m
  }

  /** The highest entries come from the parent. */
  lemma {:induction false} JoinHigh(m: seq<Entry>, d: seq<Entry>, w: nat, x: nat, e: seq<Entry>)
    requires w <= x <= |d| && e != [] && UnionLen(d[..x], e) <= |m|
    requires forall q :: w <= q < x ==> d[q].mid > e[|e| - 1].mid
    requires m == JoinedOnto(d[..x], e, m[UnionLen(d[..x], e)..])
    ensures UnionLen(d[..x], e) == UnionLen(d[..w], e) + (x - w)
    ensures m == JoinedOnto(d[..w], e, m[UnionLen(d[..w], e)..])
    ensures forall q :: UnionLen(d[..w], e) <= q < UnionLen(d[..x], e) ==> m[q] == d[q - UnionLen(d[..w], e) + w]
    decreases x
  {
    if w < x {
      var i := UnionLen(d[..x], e);
      assert d[..x][..x - 1] == d[..x - 1];
      JoinedShape(d[..x - 1], e, [d[x - 1]] + m[i..]);
      assert m[i - 1..] == [d[x - 1]] + m[i..];
      JoinHigh(m, d, w, x - 1, e);
    }
  }

  /** Then the child's highest entry. */
  lemma {:induction false} JoinChild(m: seq<Entry>, d: seq<Entry>, w: nat, x: nat, e: seq<Entry>, y: nat)
    requires 0 < y <= |e| && w <= |d| && UnionLen(d[..w], e[..y]) <= |m|
    requires w > 0 ==> d[w - 1].mid <= e[y - 1].mid
    requires x == if w > 0 && d[w - 1].mid == e[y - 1].mid then w - 1 else w
    requires m == JoinedOnto(d[..w], e[..y], m[UnionLen(d[..w], e[..y])..])
    ensures UnionLen(d[..w], e[..y]) == UnionLen(d[..x], e[..y - 1]) + 1
    ensures m == JoinedOnto(d[..x], e[..y - 1], m[UnionLen(d[..x], e[..y - 1])..])
    ensures m[UnionLen(d[..x], e[..y - 1])] == e[y - 1]
  {
    var i := UnionLen(d[..w], e[..y]);
    assert e[..y][..y - 1] == e[..y - 1];
    assert w > 0 ==> d[..w][..w - 1] == d[..w - 1];
    JoinedShape(d[..x], e[..y - 1], [e[y - 1]] + m[i..]);
    assert m[i - 1..] == [e[y - 1]] + m[i..];
  }

  lemma {:induction false} JoinBoth(m: seq<Entry>, d: seq<Entry>, e: seq<Entry>,
                                    x0: nat, y: nat, i0: nat, w: nat, x: nat, i: nat)
    requires x <= w <= x0 <= |d| && 0 < y <= |e| && i0 <= |m| && i0 - i == x0 - w
    requires i0 == UnionLen(d[..x0], e[..y]) && JoinedOnto(d[..x0], e[..y], m[i0..]) == m
    requires forall q :: w <= q < x0 ==> d[q].mid > e[y - 1].mid
    requires w > 0 ==> d[w - 1].mid <= e[y - 1].mid
    requires x == if w > 0 && d[w - 1].mid == e[y - 1].mid then w - 1 else w
    ensures x < i && i - 1 == UnionLen(d[..x], e[..y - 1])
    ensures JoinedOnto(d[..x], e[..y - 1], m[i - 1..]) == m
    ensures m[i - 1] == e[y - 1]
    ensures forall q :: i <= q < i0 ==> m[q] == d[q - (i0 - x0)]
  {
    hide JoinedOnto, UnionLen;
    assert |e[..y]| == y && e[..y][y - 1] == e[y - 1];
    JoinHigh(m, d, w, x0, e[..y]);
    JoinChild(m, d, w, x, e, y);
    UnionLenAtLeast(d[..x], e[..y - 1]);
  }

  lemma {:induction false} JoiningStep(s: seq<Entry>, t: seq<Entry>, m: seq<Entry>, d: seq<Entry>, e: seq<Entry>,
                                       x0: nat, y: nat, i0: nat, w: nat, x: nat, i: nat)
    requires Joining(s, m, d, e, x0, y, i0) && 0 < y
    requires Placed2(s, t, e[y - 1], x0, i0, w, x, i)
    ensures 0 < i && Joining(t, m, d, e, x, y - 1, i - 1)
  {
    assert forall q :: w <= q < x0 ==> d[q] == s[q + 1];
    assert w > 0 ==> s[w] == d[w - 1];
    JoinBoth(m, d, e, x0, y, i0, w, x, i);
    forall q | i - 1 < q <= |m|
      ensures t[q] == m[q - 1]
    {
      if i < q <= i0 {
        assert t[q] == s[q - (i0 - x0)] == d[q - (i0 - x0) - 1];
      }
    }
  }

  lemma {:induction false} JoiningStart(s: seq<Entry>, m: seq<Entry>, d: seq<Entry>, e: seq<Entry>)
    requires m == Joined(d, e) && |d| < |s| && UnionLen(d, e) < |s| && s[0].mid == 0 && s[1..1 + |d|] == d
    ensures Joining(s, m, d, e, |d|, |e|, UnionLen(d, e))
  {
    JoinedShape(d, e, []);
    assert d[..|d|] == d && e[..|e|] == e;
    assert m[|m|..] == [];
    assert forall q :: 1 <= q <= |d| ==> s[q] == s[1..1 + |d|][q - 1];
  }

  lemma {:induction false} JoiningEnd(s: seq<Entry>, m: seq<Entry>, d: seq<Entry>, e: seq<Entry>, x: nat, i: nat)
    requires Joining(s, m, d, e, x, 0, i)
    ensures i == x && s[1..1 + |m|] == m
  {
    assert m == d[..x] + m[i..];
  }

  /** Merge the child's dirty list into the parent's, whose merged length is len. */
  method MergeDirty(dst: array<Entry>, src: array<Entry>, len: nat)
    requires dst != src && Valid2(dst) && Valid2(src)
    requires Ascending(Entries(dst)) && Ascending(Entries(src))
    requires forall k :: 1 <= k <= Count(src) ==> src[k].mid > 0
    requires len == UnionLen(Entries(dst), Entries(src)) < dst.Length && len <= MAX_ID
    modifies dst
    ensures Valid2(dst) && Entries(dst) == Joined(old(Entries(dst)), Entries(src))
  {
    ghost var d, e := Entries(dst), Entries(src);
    ghost var m := Joined(d, e);
    var x, y: nat, i := Count(dst), Count(src), len;
    dst[0] := dst[0].(mid := 0);
    JoinedShape(d, e, []);
    JoiningStart(dst[..], m, d, e);
    while y > 0
      invariant y <= |e| == Count(src) && Entries(src) == e
      invariant Joining(dst[..], m, d, e, x, y, i)
      decreases y
    {
      assert src[y] == e[y - 1];
      x, i := JoinRound(dst, src[y], x, y, i, m, d, e);
      y := y - 1;
    }
    assert i == x && dst[..][1..len + 1] == m by { JoiningEnd(dst[..], m, d, e, x, i); }
    dst[0] := dst[0].(mid := len);
    assert Entries(dst) == m;
  }

  method JoinRound(dst: array<Entry>, entry: Entry, x: nat, ghost y: nat, i: nat,
                   ghost m: seq<Entry>, ghost d: seq<Entry>, ghost e: seq<Entry>) returns (x': nat, i': nat)
    requires 0 < y && Joining(dst[..], m, d, e, x, y, i) && entry == e[y - 1]
    requires Ascending(d) && entry.mid > 0
    modifies dst
    ensures Joining(dst[..], m, d, e, x', y - 1, i')
  {
    ghost var s := dst[..];
    UnionLenAtLeast(d[..x], e[..y]);
    ghost var w;
    var at;
    x', at, w := PlaceEntry(dst, entry, x, i);
    JoiningStep(s, dst[..], m, d, e, x, y, i, w, x', at);
    i' := at - 1;
  }

  // ---- the merged length ------------------------------------------------------

  lemma {:induction false} UnionLenNoParent(e: seq<Entry>)
    ensures UnionLen([], e) == |e|
    decreases |e|
  {
    if e == [] {
    } else {
      UnionLenNoParent(e[..|e| - 1]);
    }
  }

  /** Entries of the child above all of the parent's just add up. */
  lemma {:induction false} UnionLenAbove(d: seq<Entry>, e: seq<Entry>, y: nat)
    requires y <= |e| && (d != [] ==> forall k :: y <= k < |e| ==> e[k].mid > d[|d| - 1].mid)
    ensures UnionLen(d, e) == UnionLen(d, e[..y]) + (|e| - y)
    decreases |e|
  {
    if y == |e| {
      assert e[..y] == e;
    } else {
      assert e[..|e| - 1][..y] == e[..y];
      UnionLenAbove(d, e[..|e| - 1], y);
    }
  }

  /** Entries of the parent above the child's last one likewise. */
  lemma {:induction false} UnionLenHigh(d: seq<Entry>, w: nat, x: nat, e: seq<Entry>)
    requires w <= x <= |d| && e != [] && forall q :: w <= q < x ==> d[q].mid > e[|e| - 1].mid
    ensures UnionLen(d[..x], e) == UnionLen(d[..w], e) + (x - w)
    decreases x
  {
    if w < x {
      assert d[..x][..x - 1] == d[..x - 1];
      UnionLenHigh(d, w, x - 1, e);
    }
  }

  /** Skip the entries above page yp; the 0 in slot 0 stops the scan. */
  method SkipAbove(dst: array<Entry>, i0: nat, yp: Id) returns (i: nat)
    requires i0 < dst.Length && dst[0].mid == 0
    ensures i <= i0 && dst[i].mid <= yp
    ensures forall q :: i < q <= i0 ==> yp < dst[q].mid
  {
    i := i0;
    while yp < dst[i].mid
      invariant i <= i0
      invariant forall q :: i < q <= i0 ==> yp < dst[q].mid
      decreases i
    {
      i := i - 1;
    }
  }

  lemma {:induction false} UnionLenStep(d: seq<Entry>, e: seq<Entry>, i: nat, w: nat, y: nat)
    requires w <= i <= |d| && 0 < y <= |e|
    requires forall q :: w <= q < i ==> d[q].mid > e[y - 1].mid
    requires w > 0 ==> d[w - 1].mid <= e[y - 1].mid
    ensures var x := if w > 0 && d[w - 1].mid == e[y - 1].mid then w - 1 else w;
            UnionLen(d[..i], e[..y]) == UnionLen(d[..x], e[..y - 1]) + 1 + (i - w)
  {
    UnionLenHigh(d, w, i, e[..y]);
    assert e[..y][..y - 1] == e[..y - 1];
    assert w > 0 ==> d[..w][..w - 1] == d[..w - 1];
  }

  method CountStep(dst: array<Entry>, yp: Id, i0: nat, ghost d: seq<Entry>, ghost e: seq<Entry>, ghost y: nat)
    returns (i: nat, both: bool)
    requires i0 <= |d| && |d| < dst.Length && dst[0].mid == 0 && forall q :: 0 <= q < |d| ==> dst[q + 1] == d[q]
    requires 0 < y <= |e| && yp == e[y - 1].mid > 0
    ensures i <= i0
    ensures UnionLen(d[..i0], e[..y]) == UnionLen(d[..i], e[..y - 1]) + (i0 - i) + if both then 0 else 1
  {
    i := SkipAbove(dst, i0, yp);
    assert i > 0 ==> dst[i] == d[i - 1];
    assert forall q :: i <= q < i0 ==> d[q] == dst[q + 1];
    UnionLenStep(d, e, i0, i, y);
    both := yp == dst[i].mid;
    if both {
      i := i - 1;
    }
  }

  /** The merged length, counted by walking both lists: what the code does when the parent
      has a parent of its own. */
  method CountUnion(dst: array<Entry>, src: array<Entry>, x: nat) returns (len: nat)
    requires x < dst.Length && dst[0].mid == 0
    requires Valid2(src) && Ascending(Entries(src)) && forall k :: 1 <= k <= Count(src) ==> src[k].mid > 0
    ensures len == UnionLen(dst[1..x + 1], Entries(src))
  {
    ghost var d, e := dst[1..x + 1], Entries(src);
    assert forall q :: 0 <= q < x ==> dst[q + 1] == d[q];
    assert forall q :: 0 <= q < |e| ==> e[q] == src[q + 1];
    var total: int := x + Count(src);
    var y: int := Search2(src, dst[x].mid + 1);
    y := y - 1;
    var i := x;
    assert d[..x] == d;
    UnionLenAbove(d, e, y);
    hide UnionLen, Ascending, Mids;
    while y > 0 && i > 0
      invariant 0 <= i <= x == |d| && 0 <= y <= |e|
      invariant total + UnionLen(d[..i], e[..y]) == UnionLen(d, e) + i + y
      decreases y
    {
      var both;
      i, both := CountStep(dst, src[y].mid, i, d, e, y);
      if both {
        total := total - 1;
      }
      y := y - 1;
    }
    CountDone(d, e, i, y);
    len := total;
  }

  lemma {:induction false} CountDone(d: seq<Entry>, e: seq<Entry>, i: nat, y: nat)
    requires i <= |d| && y <= |e| && (i == 0 || y == 0)
    ensures UnionLen(d[..i], e[..y]) == i + y
  {
    assert d[..0] == [] && e[..0] == [];
    UnionLenNoParent(e[..y]);
  }

  lemma {:induction false} MidsCount(s: seq<Entry>)
    requires Ascending(s)
    ensures |Mids(s)| == |s|
    decreases |s|
  {
    if s == [] {
      assert Mids(s) == {};
    } else {
      var rest, last := s[..|s| - 1], s[|s| - 1];
      assert s == rest + [last];
      MidsCount(rest);
      hide Mids;
      LastIn(s, last);
      MidsLast(rest, last);
      assert last.mid !in Mids(rest);
    }
  }

  lemma {:induction false} MidsLast(rest: seq<Entry>, last: Entry)
    ensures Mids(rest + [last]) == Mids(rest) + {last.mid}
  {
    forall p ensures p in Mids(rest + [last]) <==> p in Mids(rest) + {last.mid} {
      MidsAt(rest + [last], p);
      MidsAt(rest, p);
      if p == last.mid { assert (rest + [last])[|rest|].mid == p; }
      if k :| 0 <= k < |rest| && rest[k].mid == p { assert (rest + [last])[k].mid == p; }
    }
  }

  /** The merged length is the number of pages in either list. */
  lemma {:induction false} UnionLenIs(d: seq<Entry>, e: seq<Entry>)
    requires Ascending(d) && Ascending(e)
    ensures Mids(Joined(d, e)) == Mids(d) + Mids(e)
    ensures UnionLen(d, e) == |Mids(d) + Mids(e)|
  {
    JoinedIs(d, e);
    var m := Joined(d, e);
    MidsCount(m);
    forall p
      ensures p in Mids(m) <==> p in Mids(d) + Mids(e)
    {
      if p in Mids(m) {
        var x :| x in m && x.mid == p;
      }
      if p in Mids(e) {
        var x :| x in e && x.mid == p;
        assert x in m;
      } else if p in Mids(d) {
        var x :| x in d && x.mid == p;
        assert x in m;
      }
    }
  }

  // ---- the whole merge ----------------------------------------------------------

  /** A transaction that never spilled has no spill list. */
  function SpillIds(a: array?<Id>): seq<Id>
    reads a
    requires a != null ==> Valid(a)
  {
    if a == null then [] else Ids(a)
  }

  /** The lists of a child and its parent as a nested commit finds them: each in order, and
      no page in two of the child's lists or with a live entry in both spill lists. */
  ghost predicate CanCommit(dst: array<Entry>, src: array<Entry>, pspill: array?<Id>, spill: array?<Id>)
    reads dst, src, pspill, spill
  {
    && dst != src && Valid2(dst) && Valid2(src) && Ascending(Entries(dst)) && Ascending(Entries(src))
    && dst.Length == IDL_UM_MAX + 1
    && (forall k :: 1 <= k <= Count(src) ==> 0 < src[k].mid && src[k].mid * 2 < MAX_ID)
    && (pspill != null ==> Valid(pspill)) && (spill != null ==> Valid(spill) && pspill != spill)
    && SpillOrder(SpillIds(pspill)) && SpillOrder(SpillIds(spill))
    && Spilled(SpillIds(pspill)) !! Spilled(SpillIds(spill))
    && |SpillIds(pspill)| + |SpillIds(spill)| <= MAX_ID
  }

  /** The pages dirty for the child: its own, and those of the parent it did not spill. */
  ghost function Together(d: seq<Entry>, e: seq<Entry>, spill: seq<Id>): set<Id> {
    Mids(e) + (Mids(d) - Spilled(spill))
  }

  /** The child's entries, and the parent's for pages that the child neither has nor spilled. */
  ghost predicate ChildWins(now: seq<Entry>, d: seq<Entry>, e: seq<Entry>, spilled: set<Id>) {
    forall x :: x in now <==> x in e || (x in d && x.mid !in spilled && x.mid !in Mids(e))
  }

  /** The list part of committing a nested transaction.  `room` is its mt_dirty_room,
      which counts the dirty pages visible to it; with a single ancestor these are the
      child's and those of the parent that the child did not spill.  The new spill list of
      the parent is again in order, so that the next commit finds it as this one did. */
  method CommitLists(dst: array<Entry>, src: array<Entry>, pspill: array?<Id>, spill: array?<Id>,
                     room: nat, grandparent: bool)
    returns (len: nat, r: array?<Id>, fits: bool)
    requires CanCommit(dst, src, pspill, spill)
    requires var visible := |Together(Entries(dst), Entries(src), SpillIds(spill))|;
             room <= IDL_UM_MAX && if grandparent then visible <= IDL_UM_MAX - room else visible == IDL_UM_MAX - room
    modifies dst, pspill
    ensures Valid2(dst) && Ascending(Entries(dst)) && len == Count(dst)
    ensures len == |Together(old(Entries(dst)), Entries(src), old(SpillIds(spill)))|
    ensures ChildWins(Entries(dst), old(Entries(dst)), Entries(src), Spilled(old(SpillIds(spill))))
    ensures (r != null ==> Valid(r)) && (r == pspill || r == spill || fresh(r))
    ensures |SpillIds(r)| <= SORT_MAX ==> fits
    ensures fits ==> SpillOrder(SpillIds(r))
    ensures Spilled(SpillIds(r)) == Spilled(old(SpillIds(pspill))) - Mids(Entries(src)) + Spilled(old(SpillIds(spill)))
  {
    hide Spilled, SpillOrder, Ascending, Mids, Together, ChildWins;
    DropSpilled(pspill, src);
    len := CommitDirty(dst, src, spill, room, grandparent);
    r, fits := CommitSpill(pspill, spill);
  }

  method DropSpilled(pspill: array?<Id>, src: array<Entry>)
    requires (pspill != null ==> Valid(pspill)) && SpillOrder(SpillIds(pspill))
    requires Valid2(src) && Ascending(Entries(src)) && forall k :: 1 <= k <= Count(src) ==> src[k].mid * 2 < MAX_ID
    modifies pspill
    ensures (pspill != null ==> Valid(pspill)) && SpillOrder(SpillIds(pspill))
    ensures |SpillIds(pspill)| <= old(|SpillIds(pspill)|)
    ensures Spilled(SpillIds(pspill)) == Spilled(old(SpillIds(pspill))) - Mids(Entries(src))
  {
    ghost var own, e := SpillIds(pspill), Entries(src);
    if pspill != null {
      DropFromSpill(pspill, src);
      SpilledAfter(own, Ids(pspill), e);
    } else {
      assert Spilled([]) == {};
    }
  }

  /** The child's spill list joins its parent's, or becomes it. */
  method CommitSpill(pspill: array?<Id>, spill: array?<Id>) returns (r: array?<Id>, fits: bool)
    requires (pspill != null ==> Valid(pspill)) && (spill != null ==> Valid(spill) && pspill != spill)
    requires SpillOrder(SpillIds(pspill)) && SpillOrder(SpillIds(spill))
    requires Spilled(SpillIds(pspill)) !! Spilled(SpillIds(spill))
    requires |SpillIds(pspill)| + |SpillIds(spill)| <= MAX_ID
    modifies pspill
    ensures (r != null ==> Valid(r)) && (r == pspill || r == spill || fresh(r))
    ensures |SpillIds(r)| <= SORT_MAX ==> fits
    ensures fits ==> SpillOrder(SpillIds(r))
    ensures Spilled(SpillIds(r)) == Spilled(old(SpillIds(pspill))) + Spilled(old(SpillIds(spill)))
  {
    assert Spilled([]) == {};
    r, fits := pspill, true;
    if spill != null {
      if pspill != null {
        r, fits := JoinSpill(pspill, spill);
      } else {
        r := spill;
      }
    }
  }

  method CommitDirty(dst: array<Entry>, src: array<Entry>, spill: array?<Id>, room: nat, grandparent: bool)
    returns (len: nat)
    requires dst != src && Valid2(dst) && Valid2(src) && (spill != null ==> Valid(spill))
    requires Ascending(Entries(dst)) && Ascending(Entries(src))
    requires forall k :: 1 <= k <= Count(src) ==> 0 < src[k].mid
    requires dst.Length == IDL_UM_MAX + 1
    requires var visible := |Together(Entries(dst), Entries(src), SpillIds(spill))|;
             room <= IDL_UM_MAX && if grandparent then visible <= IDL_UM_MAX - room else visible == IDL_UM_MAX - room
    modifies dst
    ensures Valid2(dst) && Ascending(Entries(dst)) && len == Count(dst)
    ensures len == |Together(old(Entries(dst)), Entries(src), SpillIds(spill))|
    ensures Entries(dst) == Joined(Without(old(Entries(dst)), Spilled(SpillIds(spill))), Entries(src))
    ensures ChildWins(Entries(dst), old(Entries(dst)), Entries(src), Spilled(SpillIds(spill)))
  {
    ghost var d0, e, pages := Entries(dst), Entries(src), Spilled(SpillIds(spill));
    if spill != null {
      RemoveSpilled(dst, spill);
    } else {
      assert Spilled([]) == {};
      WithoutNone(d0, {});
    }
    ghost var d := Entries(dst);
    TogetherLen(d0, e, SpillIds(spill));
    hide Ascending, Together, Spilled, Without, Joined, Mids, ChildWins;
    len := FindLen(dst, src, room, grandparent);
    assert Entries(dst) == d;
    MergeDirty(dst, src, len);
    JoinedIs(d, e);
    JoinedWithout(d0, e, pages);
  }

  lemma {:induction false} TogetherLen(d: seq<Entry>, e: seq<Entry>, spill: seq<Id>)
    requires Ascending(d) && Ascending(e)
    ensures Ascending(Without(d, Spilled(spill)))
    ensures UnionLen(Without(d, Spilled(spill)), e) == |Together(d, e, spill)|
  {
    var pages := Spilled(spill);
    WithoutAscending(d, pages);
    MidsWithout(d, pages);
    UnionLenIs(Without(d, pages), e);
    assert Mids(Without(d, pages)) + Mids(e) == Together(d, e, spill);
  }

  method FindLen(dst: array<Entry>, src: array<Entry>, room: nat, grandparent: bool) returns (len: nat)
    requires dst != src && Valid2(dst) && Valid2(src) && Ascending(Entries(dst)) && Ascending(Entries(src))
    requires forall k :: 1 <= k <= Count(src) ==> 0 < src[k].mid
    requires room <= IDL_UM_MAX && (!grandparent ==> UnionLen(Entries(dst), Entries(src)) == IDL_UM_MAX - room)
    modifies dst
    ensures dst[..] == old(dst[..]) && Valid2(dst)
    ensures len == UnionLen(old(Entries(dst)), Entries(src))
  {
    ghost var s := dst[..];
    if grandparent {
      var x := dst[0].mid;
      dst[0] := dst[0].(mid := 0);
      assert dst[1..x + 1] == s[1..x + 1];
      len := CountUnion(dst, src, x);
      dst[0] := dst[0].(mid := x);
      assert dst[..] == s;
    } else {
      len := IDL_UM_MAX - room;
    }
  }

  lemma {:induction false} MidsWithout(s: seq<Entry>, pages: set<Id>)
    ensures Mids(Without(s, pages)) == Mids(s) - pages
  {
    forall p
      ensures p in Mids(Without(s, pages)) <==> p in Mids(s) - pages
    {
      if p in Mids(Without(s, pages)) {
        var x :| x in Without(s, pages) && x.mid == p;
        WithoutIn(s, pages, x);
      }
      if p in Mids(s) - pages {
        var x :| x in s && x.mid == p;
        WithoutIn(s, pages, x);
      }
    }
  }

  lemma {:induction false} JoinedWithout(d: seq<Entry>, e: seq<Entry>, pages: set<Id>)
    requires Ascending(d) && Ascending(e)
    ensures ChildWins(Joined(Without(d, pages), e), d, e, pages)
  {
    WithoutAscending(d, pages);
    JoinedIs(Without(d, pages), e);
    forall x: Entry
      ensures x in Without(d, pages) <==> x in d && x.mid !in pages
    {
      WithoutIn(d, pages, x);
    }
  }

  lemma {:induction false} SpilledAfter(was: seq<Id>, now: seq<Id>, e: seq<Entry>)
    requires forall v: Id :: Even(v) ==> (v in now <==> v in was && !Hit(v, e))
    ensures Spilled(now) == Spilled(was) - Mids(e)
  {
    forall p: Id
      ensures p in Spilled(now) <==> p in Spilled(was) - Mids(e)
    {
      if p in Spilled(now) {
        var v :| v in now && Even(v) && v / 2 == p;
        assert v in was;
        forall k | 0 <= k < |e|
          ensures e[k].mid != p
        {
          assert e[k].mid * 2 != v;
        }
      }
      if p in Spilled(was) - Mids(e) {
        var v :| v in was && Even(v) && v / 2 == p;
        if Hit(v, e) {
          var k :| 0 <= k < |e| && e[k].mid * 2 == v;
          assert e[k] in e;
        }
      }
    }
  }
}
