/** mdb_node_search and mdb_page_search_root, for any comparison function that orders keys. */
module BtreeSearch {

  /** md_cmp: negative, zero or positive; a total order up to keys that compare equal. */
  ghost predicate Orders<K(!new)>(cmp: (K, K) -> int) {
    && (forall a :: cmp(a, a) == 0)
    && (forall a, b :: cmp(a, b) < 0 <==> cmp(b, a) > 0)
    && (forall a, b, c :: cmp(a, b) <= 0 && cmp(b, c) <= 0 ==> cmp(a, c) <= 0)
  }

  lemma {:induction false} Chain<K(!new)>(cmp: (K, K) -> int, a: K, b: K, c: K)
    requires Orders(cmp)
    ensures cmp(a, b) <= 0 && cmp(b, c) <= 0 ==> cmp(a, c) <= 0
    ensures cmp(a, b) < 0 && cmp(b, c) <= 0 ==> cmp(a, c) < 0
    ensures cmp(a, b) <= 0 && cmp(b, c) < 0 ==> cmp(a, c) < 0
  {
    if cmp(a, b) <= 0 && cmp(b, c) <= 0 && cmp(a, c) >= 0 {
      assert cmp(c, a) <= 0;
      assert cmp(c, b) <= 0;
      assert cmp(b, a) <= 0;
    }
  }

  lemma {:induction false} Flip<K(!new)>(cmp: (K, K) -> int, a: K, b: K)
    requires Orders(cmp)
    ensures cmp(a, b) < 0 <==> cmp(b, a) > 0
    ensures cmp(a, b) == 0 <==> cmp(b, a) == 0
  {
  }

  ghost predicate Ascending<K(!new)>(cmp: (K, K) -> int, s: seq<K>, from: nat) {
    forall i, j :: from <= i < j < |s| ==> cmp(s[i], s[j]) < 0
  }

  // ---- one page --------------------------------------------------------------------------------

  /** The keys before x are smaller than `key`, those from x on are not; slots below `from`
      do not count. */
  ghost predicate LowerBound<K(!new)>(cmp: (K, K) -> int, s: seq<K>, from: nat, key: K, x: nat) {
    && x <= |s|
    && (forall k :: from <= k < x && k < |s| ==> cmp(s[k], key) < 0)
    && (forall k :: x <= k < |s| && from <= k ==> cmp(s[k], key) >= 0)
  }

  /** mdb_node_search: binary search; slot 0 of a branch page is not compared. */
  method NodeSearch<K(!new)>(cmp: (K, K) -> int, s: seq<K>, leaf: bool, key: K) returns (i: nat, exact: bool)
    requires Orders(cmp) && Ascending(cmp, s, if leaf then 0 else 1) && (leaf || s != [])
    ensures leaf || |s| > 1 ==> (leaf || i >= 1) && LowerBound(cmp, s, if leaf then 0 else 1, key, i)
    ensures leaf || |s| > 1 ==> (exact <==> i < |s| && cmp(s[i], key) == 0)
    ensures !leaf && |s| == 1 ==> i == 0
  {
    var nkeys := |s|;
    ghost var from := if leaf then 0 else 1;
    var low, high, rc := if leaf then 0 else 1, nkeys - 1, 0;
    i := 0;
    while low <= high
      invariant from <= low <= high + 1 <= nkeys || nkeys == 0 == low == high + 1
      invariant forall k :: from <= k < low ==> cmp(s[k], key) < 0
      invariant forall k :: high < k < nkeys && from <= k ==> cmp(s[k], key) > 0
      invariant rc == 0 ==> low == from && high == nkeys - 1 && i == 0
      invariant rc != 0 ==> from <= i < nkeys
      invariant rc > 0 ==> low == i + 1
      invariant rc < 0 ==> high == i - 1
      decreases high - low
    {
      i := (low + high) / 2;
      rc := cmp(key, s[i]);
      if rc == 0 {
        Neighbours(cmp, s, from, key, i);
        break;
      }
      if rc > 0 {
        Below(cmp, s, from, key, i);
        low := i + 1;
      } else {
        Above(cmp, s, from, key, i);
        high := i - 1;
      }
    }
    if rc > 0 {
      i := i + 1;
    }
    exact := rc == 0 && nkeys > 0;
  }

  lemma {:induction false} Neighbours<K(!new)>(cmp: (K, K) -> int, s: seq<K>, from: nat, key: K, i: nat)
    requires Orders(cmp) && Ascending(cmp, s, from) && from <= i < |s| && cmp(key, s[i]) == 0
    ensures LowerBound(cmp, s, from, key, i) && cmp(s[i], key) == 0
  {
    assert cmp(s[i], key) == 0;
    forall k | from <= k < |s| ensures k < i ==> cmp(s[k], key) < 0
                               ensures k >= i ==> cmp(s[k], key) >= 0 {
      if k < i {
        Chain(cmp, s[k], s[i], key);
      } else if i < k {
        Chain(cmp, key, s[i], s[k]);
      }
    }
  }

  lemma {:induction false} Below<K(!new)>(cmp: (K, K) -> int, s: seq<K>, from: nat, key: K, i: nat)
    requires Orders(cmp) && Ascending(cmp, s, from) && from <= i < |s| && cmp(key, s[i]) > 0
    ensures forall k :: from <= k <= i ==> cmp(s[k], key) < 0
  {
    forall k | from <= k <= i ensures cmp(s[k], key) < 0 {
      if k < i { Chain(cmp, s[k], s[i], key); }
    }
  }

  lemma {:induction false} Above<K(!new)>(cmp: (K, K) -> int, s: seq<K>, from: nat, key: K, i: nat)
    requires Orders(cmp) && Ascending(cmp, s, from) && from <= i < |s| && cmp(key, s[i]) < 0
    ensures forall k :: i <= k < |s| ==> cmp(s[k], key) > 0
  {
    forall k | i <= k < |s| ensures cmp(s[k], key) > 0 {
      if i < k { Chain(cmp, key, s[i], s[k]); }
    }
  }

  // ---- trees -------------------------------------------------------------------------------------

  datatype Tree<K> = Leaf(keys: seq<K>) | Branch(keys: seq<K>, kids: seq<Tree<K>>)

  datatype Bound<K> = Open | At(key: K)

  ghost predicate Inside<K(!new)>(cmp: (K, K) -> int, lo: Bound<K>, x: K, hi: Bound<K>) {
    (lo.At? ==> cmp(lo.key, x) <= 0) && (hi.At? ==> cmp(x, hi.key) < 0)
  }

  function Lo<K>(keys: seq<K>, i: nat, lo: Bound<K>): Bound<K>
    requires i < |keys|
  {
    if i == 0 then lo else At(keys[i])
  }

  function Hi<K>(keys: seq<K>, i: nat, hi: Bound<K>): Bound<K>
    requires i < |keys|
  {
    if i + 1 == |keys| then hi else At(keys[i + 1])
  }

  /** Keys ascend, and child i of a branch holds keys from keys[i] up to keys[i + 1]; the
      key in slot 0 counts as minus infinity. */
  ghost predicate WellFormed<K(!new)>(cmp: (K, K) -> int, t: Tree<K>, lo: Bound<K>, hi: Bound<K>)
    decreases t
  {
    match t
    case Leaf(keys) =>
      Ascending(cmp, keys, 0) && forall i :: 0 <= i < |keys| ==> Inside(cmp, lo, keys[i], hi)
    case Branch(keys, kids) =>
      && 1 <= |keys| == |kids|
      && Ascending(cmp, keys, 1) && (forall i :: 1 <= i < |keys| ==> Inside(cmp, lo, keys[i], hi))
      && forall i :: 0 <= i < |kids| ==> WellFormed(cmp, kids[i], Lo(keys, i, lo), Hi(keys, i, hi))
  }

  /** All keys in the leaves, in order. */
  function Flat<K>(t: Tree<K>): seq<K>
    decreases t
  {
    match t
    case Leaf(keys) => keys
    case Branch(_, kids) => FlatAll(kids)
  }

  function FlatAll<K>(kids: seq<Tree<K>>): seq<K>
    decreases kids
  {
    if kids == [] then [] else Flat(kids[0]) + FlatAll(kids[1..])
  }

  lemma {:induction false} FlatConcat<K>(a: seq<Tree<K>>, b: seq<Tree<K>>)
    ensures FlatAll(a + b) == FlatAll(a) + FlatAll(b)
    decreases |a|
  {
    if a == [] {
      assert a + b == b;
    } else {
      assert (a + b)[1..] == a[1..] + b;
      FlatConcat(a[1..], b);
    }
  }

  lemma {:induction false} FlatSplit<K>(kids: seq<Tree<K>>, i: nat)
    requires i < |kids|
    ensures FlatAll(kids) == FlatAll(kids[..i]) + Flat(kids[i]) + FlatAll(kids[i + 1..])
  {
    FlatConcat(kids[..i], kids[i..]);
    assert kids == kids[..i] + kids[i..];
    assert kids[i..][1..] == kids[i + 1..];
  }

  lemma {:induction false} InSome<K>(kids: seq<Tree<K>>, x: K) returns (j: nat)
    requires x in FlatAll(kids)
    ensures j < |kids| && x in Flat(kids[j])
    decreases |kids|
  {
    if x in Flat(kids[0]) {
      j := 0;
    } else {
      j := InSome(kids[1..], x);
      j := j + 1;
    }
  }

  /** Every key of a tree is within its bounds. */
  lemma {:induction false} AllInside<K(!new)>(cmp: (K, K) -> int, t: Tree<K>, lo: Bound<K>, hi: Bound<K>, x: K)
    requires Orders(cmp) && WellFormed(cmp, t, lo, hi) && x in Flat(t)
    ensures Inside(cmp, lo, x, hi)
    decreases t
  {
    hide Orders, FlatAll;
    match t
    case Leaf(keys) =>
    case Branch(keys, kids) =>
      var j := InSome(kids, x);
      AllInside(cmp, kids[j], Lo(keys, j, lo), Hi(keys, j, hi), x);
      if lo.At? && j > 0 { Chain(cmp, lo.key, keys[j], x); }
      if hi.At? && j + 1 < |keys| { Chain(cmp, x, keys[j + 1], hi.key); }
  }

  /** Child i is the one for `key`: its separator is not above the key, the next one is. */
  ghost predicate Follows<K(!new)>(cmp: (K, K) -> int, keys: seq<K>, i: nat, key: K) {
    i < |keys| && (i > 0 ==> cmp(keys[i], key) <= 0) && (i + 1 < |keys| ==> cmp(keys[i + 1], key) > 0)
  }

  lemma {:induction false} SmallerBefore<K(!new)>(cmp: (K, K) -> int, t: Tree<K>, lo: Bound<K>, hi: Bound<K>, i: nat, key: K, x: K)
    requires Orders(cmp) && t.Branch? && WellFormed(cmp, t, lo, hi) && Follows(cmp, t.keys, i, key)
    requires x in FlatAll(t.kids[..i])
    ensures cmp(x, key) < 0
  {
    hide Orders, FlatAll;
    var j := InSome(t.kids[..i], x);
    AllInside(cmp, t.kids[j], Lo(t.keys, j, lo), Hi(t.keys, j, hi), x);
    if j + 1 < i { Chain(cmp, x, t.keys[j + 1], t.keys[i]); }
    Chain(cmp, x, t.keys[i], key);
  }

  lemma {:induction false} LargerAfter<K(!new)>(cmp: (K, K) -> int, t: Tree<K>, lo: Bound<K>, hi: Bound<K>, i: nat, key: K, x: K)
    requires Orders(cmp) && t.Branch? && WellFormed(cmp, t, lo, hi) && Follows(cmp, t.keys, i, key)
    requires x in FlatAll(t.kids[i + 1..])
    ensures cmp(x, key) > 0
  {
    hide Orders, FlatAll;
    var k := InSome(t.kids[i + 1..], x);
    var j := i + 1 + k;
    AllInside(cmp, t.kids[j], Lo(t.keys, j, lo), Hi(t.keys, j, hi), x);
    if i + 1 < j { Chain(cmp, t.keys[i + 1], t.keys[j], x); }
    Flip(cmp, key, t.keys[i + 1]);
    Chain(cmp, key, t.keys[i + 1], x);
    Flip(cmp, key, x);
  }

  // ---- the descent -------------------------------------------------------------------------------

  /** Where the search is: the subtree t, with the keys of the leaves to its left and right. */
  ghost predicate Descended<K(!new)>(cmp: (K, K) -> int, root: Tree<K>, t: Tree<K>, before: seq<K>, after: seq<K>, key: K) {
    && (exists lo, hi :: WellFormed(cmp, t, lo, hi))
    && Flat(root) == before + Flat(t) + after
    && (forall i :: 0 <= i < |before| ==> cmp(before[i], key) < 0)
    && (forall i :: 0 <= i < |after| ==> cmp(after[i], key) > 0)
  }

  lemma {:induction false} DescendStep<K(!new)>(cmp: (K, K) -> int, root: Tree<K>, t: Tree<K>, before: seq<K>, after: seq<K>,
                                                key: K, i: nat)
    requires Orders(cmp) && Descended(cmp, root, t, before, after, key) && t.Branch? && Follows(cmp, t.keys, i, key)
    requires |t.keys| == |t.kids|
    ensures Descended(cmp, root, t.kids[i], before + FlatAll(t.kids[..i]), FlatAll(t.kids[i + 1..]) + after, key)
  {
    var lo, hi :| WellFormed(cmp, t, lo, hi);
    assert WellFormed(cmp, t.kids[i], Lo(t.keys, i, lo), Hi(t.keys, i, hi));
    hide Orders, FlatAll, WellFormed, Follows;
    FlatSplit(t.kids, i);
    var b, a := FlatAll(t.kids[..i]), FlatAll(t.kids[i + 1..]);
    forall k | 0 <= k < |b| ensures cmp(b[k], key) < 0 { SmallerBefore(cmp, t, lo, hi, i, key, b[k]); }
    forall k | 0 <= k < |a| ensures cmp(a[k], key) > 0 { LargerAfter(cmp, t, lo, hi, i, key, a[k]); }
    Regroup(before, b, Flat(t.kids[i]), a, after);
  }

  lemma {:induction false} Regroup<K>(p: seq<K>, b: seq<K>, t: seq<K>, a: seq<K>, q: seq<K>)
    ensures p + (b + t + a) + q == (p + b) + t + (a + q)
  {
  }

  /** The child mdb_page_search_root follows. */
  method ChildIndex<K(!new)>(cmp: (K, K) -> int, keys: seq<K>, key: K) returns (i: nat)
    requires Orders(cmp) && Ascending(cmp, keys, 1) && keys != []
    ensures Follows(cmp, keys, i, key)
  {
    var exact;
    i, exact := NodeSearch(cmp, keys, false, key);
    if i >= |keys| || |keys| == 1 {
      i := |keys| - 1;
    } else if !exact {
      i := i - 1;
    }
  }

  /** mdb_page_search_root: down to a leaf; `path` holds the indices in the branch pages. */
  method SearchRoot<K(!new)>(cmp: (K, K) -> int, root: Tree<K>, key: K)
    returns (leaf: Tree<K>, path: seq<nat>, ghost before: seq<K>, ghost after: seq<K>)
    requires Orders(cmp) && WellFormed(cmp, root, Open, Open)
    ensures leaf.Leaf? && Reaches(root, path, leaf)
    ensures Descended(cmp, root, leaf, before, after, key) && |before| == Offset(root, path)
  {
    leaf, path, before, after := root, [], [], [];
    assert [] + Flat(root) + [] == Flat(root);
    while leaf.Branch?
      invariant Reaches(root, path, leaf) && |before| == Offset(root, path)
      invariant Descended(cmp, root, leaf, before, after, key)
      decreases leaf
    {
      ghost var lo, hi :| WellFormed(cmp, leaf, lo, hi);
      var i := ChildIndex(cmp, leaf.keys, key);
      DescendStep(cmp, root, leaf, before, after, key, i);
      ReachesNext(root, path, leaf, i);
      before, after := before + FlatAll(leaf.kids[..i]), FlatAll(leaf.kids[i + 1..]) + after;
      path, leaf := path + [i], leaf.kids[i];
    }
  }

  /** Following the indices of a path leads to t. */
  ghost predicate Reaches<K(!new)>(root: Tree<K>, path: seq<nat>, t: Tree<K>)
    decreases |path|
  {
    if path == [] then t == root
    else root.Branch? && path[0] < |root.kids| && Reaches(root.kids[path[0]], path[1..], t)
  }

  /** How many keys lie in leaves to the left of a path. */
  ghost function Offset<K>(root: Tree<K>, path: seq<nat>): nat
    decreases |path|
  {
    if path == [] || root.Leaf? || path[0] >= |root.kids| then 0
    else |FlatAll(root.kids[..path[0]])| + Offset(root.kids[path[0]], path[1..])
  }

  lemma {:induction false} ReachesNext<K(!new)>(root: Tree<K>, path: seq<nat>, t: Tree<K>, i: nat)
    requires Reaches(root, path, t) && t.Branch? && i < |t.kids|
    ensures Reaches(root, path + [i], t.kids[i])
    ensures Offset(root, path + [i]) == Offset(root, path) + |FlatAll(t.kids[..i])|
    decreases |path|
  {
    if path == [] {
      assert [i][1..] == [];
    } else {
      assert (path + [i])[1..] == path[1..] + [i];
      ReachesNext(root.kids[path[0]], path[1..], t, i);
    }
  }

  /** A lookup: the leaf reached is the only one that can hold the key, its entry i is the
      smallest one not below the key among all keys of the tree (one past the leaf's last
      entry stands for the first of the next leaf), and `exact` says whether the key is in
      the tree. */
  method Lookup<K(!new)>(cmp: (K, K) -> int, root: Tree<K>, key: K) returns (leaf: Tree<K>, path: seq<nat>, i: nat, exact: bool)
    requires Orders(cmp) && WellFormed(cmp, root, Open, Open)
    ensures leaf.Leaf? && Reaches(root, path, leaf) && i <= |leaf.keys|
    ensures LowerBound(cmp, Flat(root), 0, key, Offset(root, path) + i)
    ensures exact <==> exists x :: 0 <= x < |Flat(root)| && cmp(Flat(root)[x], key) == 0
    ensures exact <==> i < |leaf.keys| && cmp(leaf.keys[i], key) == 0
  {
    hide Orders, LowerBound, Ascending, Reaches, Offset;
    ghost var before, after;
    leaf, path, before, after := SearchRoot(cmp, root, key);
    LeafAscends(cmp, root, leaf, before, after, key);
    hide Descended, Flat;
    i, exact := NodeSearch(cmp, leaf.keys, true, key);
    BoundIn(cmp, leaf.keys, key, i);
    WholeBound(cmp, before, leaf.keys, after, key, i);
  }

  lemma {:induction false} LeafAscends<K(!new)>(cmp: (K, K) -> int, root: Tree<K>, leaf: Tree<K>, before: seq<K>, after: seq<K>, key: K)
    requires leaf.Leaf? && Descended(cmp, root, leaf, before, after, key)
    ensures Ascending(cmp, leaf.keys, 0) && Flat(root) == before + leaf.keys + after
    ensures forall k :: 0 <= k < |before| ==> cmp(before[k], key) < 0
    ensures forall k :: 0 <= k < |after| ==> cmp(after[k], key) > 0
  {
  }

  lemma {:induction false} BoundIn<K(!new)>(cmp: (K, K) -> int, s: seq<K>, key: K, i: nat)
    requires LowerBound(cmp, s, 0, key, i)
    ensures i <= |s|
  {
  }

  lemma {:induction false} WholeBound<K(!new)>(cmp: (K, K) -> int, before: seq<K>, keys: seq<K>, after: seq<K>, key: K, i: nat)
    requires LowerBound(cmp, keys, 0, key, i)
    requires forall k :: 0 <= k < |before| ==> cmp(before[k], key) < 0
    requires forall k :: 0 <= k < |after| ==> cmp(after[k], key) > 0
    requires Orders(cmp) && Ascending(cmp, keys, 0)
    ensures LowerBound(cmp, before + keys + after, 0, key, |before| + i)
    ensures (exists x :: 0 <= x < |before + keys + after| && cmp((before + keys + after)[x], key) == 0)
       <==> i < |keys| && cmp(keys[i], key) == 0
  {
    hide Orders;
    var s := before + keys + after;
    forall k | 0 <= k < |s| ensures k < |before| + i ==> cmp(s[k], key) < 0
                            ensures k >= |before| + i ==> cmp(s[k], key) >= 0 {
    }
    if i < |keys| && cmp(keys[i], key) == 0 {
      assert s[|before| + i] == keys[i];
    }
    forall x | 0 <= x < |s| && cmp(s[x], key) == 0 ensures i < |keys| && cmp(keys[i], key) == 0 {
      var k := x - |before|;
      assert s[x] == keys[k];
      if i < k { Chain(cmp, keys[i], keys[k], key); }
    }
  }
}
