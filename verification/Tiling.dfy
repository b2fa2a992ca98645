/** Nodes on a slotted page as intervals: mp_ptrs gives their offsets, and together they
    cover the end of the page from mp_upper on. */
module Tiling {
  import opened Sequences

  /** Size of a page header. */
  const PAGEHDRSZ: nat := 16

  function Sum(s: seq<nat>): nat {
    if s == [] then 0 else s[0] + Sum(s[1..])
  }

  lemma {:induction false} SumConcat(a: seq<nat>, b: seq<nat>)
    ensures Sum(a + b) == Sum(a) + Sum(b)
    decreases |a|
  {
    if a == [] {
      assert a + b == b;
    } else {
      assert (a + b)[1..] == a[1..] + b;
      SumConcat(a[1..], b);
    }
  }

  lemma {:induction false} SumInserted(s: seq<nat>, i: nat, x: nat)
    requires i <= |s|
    ensures Sum(Inserted(s, i, x)) == Sum(s) + x
  {
    SumConcat(s[..i], [x]);
    SumConcat(s[..i] + [x], s[i..]);
    SumConcat(s[..i], s[i..]);
    assert s == s[..i] + s[i..];
  }

  lemma {:induction false} SumRemoved(s: seq<nat>, i: nat)
    requires i < |s|
    ensures Sum(s) == Sum(Removed(s, i)) + s[i]
  {
    SumInserted(Removed(s, i), i, s[i]);
    assert Inserted(Removed(s, i), i, s[i]) == s;
  }

  /** Offset x lies in node i. */
  predicate Covers(ptrs: seq<nat>, sizes: seq<nat>, i: nat, x: int)
    requires |ptrs| == |sizes|
  {
    i < |ptrs| && ptrs[i] <= x < ptrs[i] + sizes[i]
  }

  ghost predicate Covered(ptrs: seq<nat>, sizes: seq<nat>, x: int)
    requires |ptrs| == |sizes|
  {
    exists i: nat :: Covers(ptrs, sizes, i, x)
  }

  /** Nodes lie in [upper, end), at even offsets and of even size; none is empty. */
  ghost predicate Inside(ptrs: seq<nat>, sizes: seq<nat>, upper: nat, end: nat) {
    && |ptrs| == |sizes| && upper <= end && upper % 2 == 0
    && (forall i :: 0 <= i < |ptrs| ==> upper <= ptrs[i] && ptrs[i] + sizes[i] <= end)
    && (forall i :: 0 <= i < |ptrs| ==> ptrs[i] % 2 == 0 && sizes[i] % 2 == 0 && sizes[i] > 0)
  }

  ghost predicate NoOverlap(ptrs: seq<nat>, sizes: seq<nat>)
    requires |ptrs| == |sizes|
  {
    forall i, j :: 0 <= i < |ptrs| && 0 <= j < |ptrs| && i != j ==> Disjoint(ptrs, sizes, i, j)
  }

  ghost predicate NoGap(ptrs: seq<nat>, sizes: seq<nat>, upper: nat, end: nat)
    requires |ptrs| == |sizes|
  {
    forall x :: upper <= x < end ==> Covered(ptrs, sizes, x)
  }

  /** Every offset in [upper, end) lies in exactly one node and no other in any. */
  ghost predicate Tiled(ptrs: seq<nat>, sizes: seq<nat>, upper: nat, end: nat) {
    && Inside(ptrs, sizes, upper, end) && NoOverlap(ptrs, sizes) && NoGap(ptrs, sizes, upper, end)
    && Sum(sizes) == end - upper
  }

  predicate Disjoint(ptrs: seq<nat>, sizes: seq<nat>, i: nat, j: nat)
    requires |ptrs| == |sizes| && i < |ptrs| && j < |ptrs|
  {
    ptrs[i] + sizes[i] <= ptrs[j] || ptrs[j] + sizes[j] <= ptrs[i]
  }

  /** Where index k of the old sequence is in the new one, and back. */
  function Later(i: nat, k: nat): nat { if k < i then k else k + 1 }

  function Earlier(i: nat, k: nat): nat { if k < i || k == 0 then k else k - 1 }

  lemma {:induction false} InsertedAt<T>(s: seq<T>, i: nat, x: T, k: nat)
    requires i <= |s| && k <= |s|
    ensures |Inserted(s, i, x)| == |s| + 1
    ensures if k == i then Inserted(s, i, x)[k] == x
            else Earlier(i, k) < |s| && Inserted(s, i, x)[k] == s[Earlier(i, k)] && Later(i, Earlier(i, k)) == k
  {
  }

  lemma {:induction false} RemovedAt<T>(s: seq<T>, i: nat, k: nat)
    requires i < |s| && k < |s| - 1
    ensures |Removed(s, i)| == |s| - 1
    ensures Removed(s, i)[k] == s[Later(i, k)] && Later(i, k) != i
  {
  }

  /** mdb_node_add: a node right below mp_upper. */
  lemma {:induction false} TiledAdd(ptrs: seq<nat>, sizes: seq<nat>, upper: nat, end: nat, i: nat, ofs: nat, sz: nat)
    requires Tiled(ptrs, sizes, upper, end) && i <= |ptrs| && 0 < sz && ofs + sz == upper && sz % 2 == 0
    ensures Tiled(Inserted(ptrs, i, ofs), Inserted(sizes, i, sz), ofs, end)
  {
    AddInside(ptrs, sizes, upper, end, i, ofs, sz);
    AddNoOverlap(ptrs, sizes, upper, end, i, ofs, sz);
    AddNoGap(ptrs, sizes, upper, end, i, ofs, sz);
    SumInserted(sizes, i, sz);
    hide Inserted, Inside, NoOverlap, NoGap;
  }

  lemma {:induction false} AddInside(ptrs: seq<nat>, sizes: seq<nat>, upper: nat, end: nat, i: nat, ofs: nat, sz: nat)
    requires Inside(ptrs, sizes, upper, end) && i <= |ptrs| && 0 < sz && ofs + sz == upper && sz % 2 == 0
    ensures Inside(Inserted(ptrs, i, ofs), Inserted(sizes, i, sz), ofs, end)
  {
    var p, s := Inserted(ptrs, i, ofs), Inserted(sizes, i, sz);
    forall k | 0 <= k < |p|
      ensures ofs <= p[k] && p[k] + s[k] <= end && p[k] % 2 == 0 && s[k] % 2 == 0 && s[k] > 0
    {
      InsertedAt(ptrs, i, ofs, k);
      InsertedAt(sizes, i, sz, k);
    }
  }

  lemma {:induction false} AddNoOverlap(ptrs: seq<nat>, sizes: seq<nat>, upper: nat, end: nat, i: nat, ofs: nat, sz: nat)
    requires Inside(ptrs, sizes, upper, end) && NoOverlap(ptrs, sizes) && i <= |ptrs| && 0 < sz && ofs + sz == upper
    ensures |Inserted(ptrs, i, ofs)| == |Inserted(sizes, i, sz)|
    ensures NoOverlap(Inserted(ptrs, i, ofs), Inserted(sizes, i, sz))
  {
    var p, s := Inserted(ptrs, i, ofs), Inserted(sizes, i, sz);
    hide Inserted;
    InsertedAt(ptrs, i, ofs, i);
    InsertedAt(sizes, i, sz, i);
    forall j, k | 0 <= j < |p| && 0 <= k < |p| && j != k ensures Disjoint(p, s, j, k) {
      InsertedAt(ptrs, i, ofs, j);
      InsertedAt(sizes, i, sz, j);
      InsertedAt(ptrs, i, ofs, k);
      InsertedAt(sizes, i, sz, k);
      if j != i && k != i {
        assert Disjoint(ptrs, sizes, Earlier(i, j), Earlier(i, k));
      }
    }
  }

  lemma {:induction false} AddNoGap(ptrs: seq<nat>, sizes: seq<nat>, upper: nat, end: nat, i: nat, ofs: nat, sz: nat)
    requires |ptrs| == |sizes| && NoGap(ptrs, sizes, upper, end) && i <= |ptrs| && 0 < sz && ofs + sz == upper
    ensures |Inserted(ptrs, i, ofs)| == |Inserted(sizes, i, sz)|
    ensures NoGap(Inserted(ptrs, i, ofs), Inserted(sizes, i, sz), ofs, end)
  {
    var p, s := Inserted(ptrs, i, ofs), Inserted(sizes, i, sz);
    hide Inserted;
    InsertedAt(ptrs, i, ofs, i);
    InsertedAt(sizes, i, sz, i);
    forall x | ofs <= x < end ensures Covered(p, s, x) {
      if x < upper {
        assert Covers(p, s, i, x);
      } else {
        assert Covered(ptrs, sizes, x);
        var k: nat :| Covers(ptrs, sizes, k, x);
        InsertedAt(ptrs, i, ofs, Later(i, k));
        InsertedAt(sizes, i, sz, Later(i, k));
        assert Covers(p, s, Later(i, k), x);
      }
    }
  }

  /** mdb_node_del: the nodes below the deleted one move up by its size. */
  function Shifted(ptrs: seq<nat>, ptr: nat, sz: nat): (p: seq<nat>)
    ensures |p| == |ptrs|
    ensures forall k :: 0 <= k < |p| ==> p[k] == ShiftedOne(ptrs[k], ptr, sz)
  {
    seq(|ptrs|, k requires 0 <= k < |ptrs| => ShiftedOne(ptrs[k], ptr, sz))
  }

  function ShiftedOne(p: nat, ptr: nat, sz: nat): nat {
    if p < ptr then p + sz else p
  }

  /** The offsets after the deletion of node i. */
  function Closed(ptrs: seq<nat>, i: nat, sz: nat): seq<nat>
    requires i < |ptrs|
  {
    Removed(Shifted(ptrs, ptrs[i], sz), i)
  }

  lemma {:induction false} ClosedAt(ptrs: seq<nat>, i: nat, sz: nat, k: nat)
    requires i < |ptrs| && k < |ptrs| - 1
    ensures |Closed(ptrs, i, sz)| == |ptrs| - 1 && Later(i, k) < |ptrs| && Later(i, k) != i
    ensures Closed(ptrs, i, sz)[k] == ShiftedOne(ptrs[Later(i, k)], ptrs[i], sz)
  {
    RemovedAt(Shifted(ptrs, ptrs[i], sz), i, k);
  }

  lemma {:induction false} TiledDel(ptrs: seq<nat>, sizes: seq<nat>, upper: nat, end: nat, i: nat)
    requires Tiled(ptrs, sizes, upper, end) && i < |ptrs|
    ensures Tiled(Closed(ptrs, i, sizes[i]), Removed(sizes, i), upper + sizes[i], end)
  {
    DelInside(ptrs, sizes, upper, end, i);
    DelNoOverlap(ptrs, sizes, upper, end, i);
    DelNoGap(ptrs, sizes, upper, end, i);
    SumRemoved(sizes, i);
    hide Closed, Removed, NoOverlap, NoGap;
  }

  lemma {:induction false} DelInside(ptrs: seq<nat>, sizes: seq<nat>, upper: nat, end: nat, i: nat)
    requires Inside(ptrs, sizes, upper, end) && NoOverlap(ptrs, sizes) && i < |ptrs|
    ensures Inside(Closed(ptrs, i, sizes[i]), Removed(sizes, i), upper + sizes[i], end)
  {
    var p, s := Closed(ptrs, i, sizes[i]), Removed(sizes, i);
    hide Closed, Removed;
    RemovedSize(ptrs, sizes, i);
    forall k | 0 <= k < |p|
      ensures upper + sizes[i] <= p[k] && p[k] + s[k] <= end && p[k] % 2 == 0 && s[k] % 2 == 0 && s[k] > 0
    {
      ClosedAt(ptrs, i, sizes[i], k);
      RemovedAt(sizes, i, k);
      assert Disjoint(ptrs, sizes, Later(i, k), i);
    }
  }

  lemma {:induction false} RemovedSize(ptrs: seq<nat>, sizes: seq<nat>, i: nat)
    requires i < |ptrs| == |sizes|
    ensures |Closed(ptrs, i, sizes[i])| == |Removed(sizes, i)| == |ptrs| - 1
  {
  }

  lemma {:induction false} DelNoOverlap(ptrs: seq<nat>, sizes: seq<nat>, upper: nat, end: nat, i: nat)
    requires Inside(ptrs, sizes, upper, end) && NoOverlap(ptrs, sizes) && i < |ptrs|
    ensures |Closed(ptrs, i, sizes[i])| == |Removed(sizes, i)|
    ensures NoOverlap(Closed(ptrs, i, sizes[i]), Removed(sizes, i))
  {
    var p, s := Closed(ptrs, i, sizes[i]), Removed(sizes, i);
    hide Closed, Removed;
    RemovedSize(ptrs, sizes, i);
    forall j, k | 0 <= j < |p| && 0 <= k < |p| && j != k ensures Disjoint(p, s, j, k) {
      ClosedAt(ptrs, i, sizes[i], j);
      RemovedAt(sizes, i, j);
      ClosedAt(ptrs, i, sizes[i], k);
      RemovedAt(sizes, i, k);
      assert Disjoint(ptrs, sizes, Later(i, j), Later(i, k));
      assert Disjoint(ptrs, sizes, Later(i, j), i) && Disjoint(ptrs, sizes, Later(i, k), i);
    }
  }

  lemma {:induction false} DelNoGap(ptrs: seq<nat>, sizes: seq<nat>, upper: nat, end: nat, i: nat)
    requires Inside(ptrs, sizes, upper, end) && NoOverlap(ptrs, sizes) && NoGap(ptrs, sizes, upper, end) && i < |ptrs|
    ensures |Closed(ptrs, i, sizes[i])| == |Removed(sizes, i)|
    ensures NoGap(Closed(ptrs, i, sizes[i]), Removed(sizes, i), upper + sizes[i], end)
  {
    var p, s := Closed(ptrs, i, sizes[i]), Removed(sizes, i);
    hide Closed, Removed;
    RemovedSize(ptrs, sizes, i);
    forall x | upper + sizes[i] <= x < end ensures Covered(p, s, x) {
      var y := if x < ptrs[i] + sizes[i] then x - sizes[i] else x;
      assert Covered(ptrs, sizes, y);
      var k: nat :| Covers(ptrs, sizes, k, y);
      assert Disjoint(ptrs, sizes, k, i);
      var j := if k < i then k else k - 1;
      ClosedAt(ptrs, i, sizes[i], j);
      RemovedAt(sizes, i, j);
      assert Covers(p, s, j, x);
    }
  }
}
