/** The split point of mdb_page_split, and whether both halves find room on their pages. */
module SplitFit {
  import opened Words
  import opened Sequences
  import opened Tiling
  import opened SlottedPage

  // ---- what a split has to produce -------------------------------------------------------------

  /** The first node of a branch page needs no key. */
  function NoKey(n: Node): Node {
    if n.LeafNode? then n else BranchNode(n.pgno, [])
  }

  /** Nodes a .. b-1 on a page of their own. */
  function Part(all: seq<Node>, a: nat, b: nat): (p: seq<Node>)
    requires a <= b <= |all|
    ensures |p| == b - a
  {
    if a == b then [] else [NoKey(all[a])] + all[a + 1..b]
  }

  lemma {:induction false} PartStart(all: seq<Node>, a: nat)
    requires a <= |all|
    ensures Part(all, a, a) == []
  {
  }

  lemma {:induction false} PartNext(all: seq<Node>, a: nat, b: nat)
    requires a <= b < |all|
    ensures Part(all, a, b + 1) == Part(all, a, b) + [if b == a then NoKey(all[b]) else all[b]]
  {
  }

  /** On leaf pages a part is just a slice: left and right together are all nodes. */
  lemma {:induction false} LeafParts(all: seq<Node>, split: nat)
    requires split <= |all| && forall i :: 0 <= i < |all| ==> all[i].LeafNode?
    ensures Part(all, 0, split) == all[..split] && Part(all, split, |all|) == all[split..]
    ensures Part(all, 0, split) + Part(all, split, |all|) == all
  {
    assert all == all[..split] + all[split..];
  }

  // ---- the space nodes need --------------------------------------------------------------------

  /** A node and its slot. */
  function Room(n: Node): nat { Extent(n) + 2 }

  lemma {:induction false} EntryIs(n: Node)
    ensures Room(n) == Even(NODESIZE + |n.key| + |Data(n)|) + 2
  {
    hide Header;
  }

  lemma {:induction false} EntryNoKey(n: Node, other: Node)
    ensures Room(NoKey(n)) <= Room(n)
    ensures n.BranchNode? ==> Room(NoKey(n)) <= Room(other)
  {
    hide Room;
    EntryIs(n);
    EntryIs(NoKey(n));
    EntryIs(other);
  }

  function Need(nodes: seq<Node>): nat {
    if nodes == [] then 0 else Need(nodes[..|nodes| - 1]) + Room(nodes[|nodes| - 1])
  }

  lemma {:induction false} NeedOne(n: Node)
    ensures Need([n]) == Room(n)
  {
    assert [n][..0] == [];
  }

  lemma {:induction false} NeedConcat(a: seq<Node>, b: seq<Node>)
    ensures Need(a + b) == Need(a) + Need(b)
    decreases |b|
  {
    hide Room;
    if b == [] {
      assert a + b == a;
    } else {
      assert (a + b)[..|a + b| - 1] == a + b[..|b| - 1];
      NeedConcat(a, b[..|b| - 1]);
    }
  }

  lemma {:induction false} NeedSnoc(a: seq<Node>, n: Node)
    ensures Need(a + [n]) == Need(a) + Room(n)
  {
    hide Room, Need;
    NeedConcat(a, [n]);
    NeedOne(n);
  }

  lemma {:induction false} NeedNext(all: seq<Node>, i: nat)
    requires i < |all|
    ensures Need(all[..i + 1]) == Need(all[..i]) + Room(all[i])
  {
    hide Room, Need;
    assert all[..i + 1] == all[..i] + [all[i]];
    NeedSnoc(all[..i], all[i]);
  }

  lemma {:induction false} NeedPrev(all: seq<Node>, i: nat)
    requires i < |all|
    ensures Need(all[i..]) == Room(all[i]) + Need(all[i + 1..])
  {
    hide Room, Need;
    assert all[i..] == [all[i]] + all[i + 1..];
    NeedConcat([all[i]], all[i + 1..]);
    NeedOne(all[i]);
  }

  lemma {:induction false} NeedCut(all: seq<Node>, i: nat)
    requires i <= |all|
    ensures Need(all) == Need(all[..i]) + Need(all[i..])
  {
    hide Room, Need;
    assert all == all[..i] + all[i..];
    NeedConcat(all[..i], all[i..]);
  }

  lemma {:induction false} NeedInserted(nodes: seq<Node>, i: nat, n: Node)
    requires i <= |nodes|
    ensures Need(Inserted(nodes, i, n)) == Need(nodes) + Room(n)
  {
    hide Room, Need;
    NeedCut(nodes, i);
    NeedSnoc(nodes[..i], n);
    NeedConcat(nodes[..i] + [n], nodes[i..]);
  }

  /** What nodes need is what mp_lower and mp_upper have moved by. */
  lemma {:induction false} NeedIs(nodes: seq<Node>)
    ensures Need(nodes) == Sum(Extents(nodes)) + 2 * |nodes|
    decreases |nodes|
  {
    hide Extent;
    if nodes == [] {
    } else {
      var front, n := nodes[..|nodes| - 1], nodes[|nodes| - 1];
      NeedIs(front);
      assert Extents(nodes) == Extents(front) + [Extent(n)];
      SumConcat(Extents(front), [Extent(n)]);
    }
  }

  lemma {:induction false} NeedPartGrows(all: seq<Node>, a: nat, b: nat, c: nat)
    requires a <= b <= c <= |all|
    ensures Need(Part(all, a, b)) <= Need(Part(all, a, c))
    decreases c - b
  {
    hide Room, Need, Part;
    if b == c {
    } else {
      PartNext(all, a, c - 1);
      NeedSnoc(Part(all, a, c - 1), if c - 1 == a then NoKey(all[c - 1]) else all[c - 1]);
      NeedPartGrows(all, a, b, c - 1);
    }
  }

  /** A part needs no more than its nodes did together. */
  lemma {:induction false} NeedPart(all: seq<Node>, a: nat, b: nat)
    requires a < b <= |all|
    ensures Need(Part(all, a, b)) == Room(NoKey(all[a])) + Need(all[a + 1..b])
    ensures Need(Part(all, a, b)) <= Need(all[a..b])
  {
    hide Room, Need, NoKey;
    EntryNoKey(all[a], all[a]);
    assert all[a..b] == [all[a]] + all[a + 1..b];
    NeedConcat([all[a]], all[a + 1..b]);
    NeedConcat([NoKey(all[a])], all[a + 1..b]);
    NeedOne(all[a]);
    NeedOne(NoKey(all[a]));
  }

  // ---- the split point ---------------------------------------------------------------------------

  function Half(all: seq<Node>): nat { |all| / 2 }

  /** When the split point is looked for by size instead of by count. */
  predicate BySize(all: seq<Node>, newindx: nat, pmax: nat)
    requires newindx < |all|
  {
    |all| - 1 < 32 || Room(all[newindx]) > pmax / 16 || newindx >= |all| - 1
  }

  /** The search runs from the left if the new node goes there, and for appends. */
  predicate FromLeft(all: seq<Node>, newindx: nat) {
    newindx <= Half(all) || newindx >= |all| - 1
  }

  /** The largest split point a search from the left may give. */
  function LastPoint(all: seq<Node>, newindx: nat, leaf: bool): nat
    requires |all| >= 3
  {
    if newindx >= |all| - 1 then |all| - 2 else Half(all) + if leaf then 1 else 0
  }

  /** By size, a side is filled as far as a page goes, but not beyond the middle, or for an
      append not beyond the last old node. */
  ghost predicate Chosen(all: seq<Node>, newindx: nat, leaf: bool, pmax: nat, split: nat) {
    && |all| >= 3 && newindx < |all| && 1 <= split < |all|
    && if !BySize(all, newindx, pmax) then split == Half(all)
       else if FromLeft(all, newindx) then
         && Need(all[..split]) <= pmax && split <= LastPoint(all, newindx, leaf)
         && (split < LastPoint(all, newindx, leaf) ==> Need(all[..split + 1]) > pmax)
       else
         && Need(all[split..]) <= pmax && split > Half(all)
         && (split > Half(all) + 1 ==> Need(all[split - 1..]) > pmax)
  }

  /** By count the halves differ by at most one node; by size the side searched from goes
      at most one node beyond the middle, and for an append leaves the last old node. */
  lemma {:induction false} AroundMiddle(all: seq<Node>, newindx: nat, leaf: bool, pmax: nat, split: nat)
    requires Chosen(all, newindx, leaf, pmax, split)
    ensures |all| <= 32 || Room(all[newindx]) > pmax / 16 ==> BySize(all, newindx, pmax)
    ensures !BySize(all, newindx, pmax) ==> |all| - 1 <= 2 * split <= |all|
    ensures BySize(all, newindx, pmax) && newindx == |all| - 1 ==> split <= |all| - 2
    ensures BySize(all, newindx, pmax) && 2 * newindx <= |all| - 1 ==> 2 * split <= |all| + 2
    ensures BySize(all, newindx, pmax) && |all| + 2 <= 2 * newindx <= 2 * |all| - 4 ==> 2 * split >= |all| + 1
  {
    hide Need, Room;
  }

  lemma {:induction false} NeedLonger(all: seq<Node>, a: nat, b: nat)
    requires a <= b <= |all|
    ensures Need(all[..a]) <= Need(all[..b]) && Need(all[b..]) <= Need(all[a..])
  {
    hide Need;
    NeedCut(all[..b], a);
    assert all[..b][..a] == all[..a];
    NeedCut(all, a);
    NeedCut(all, b);
  }

  /** There is only one such point. */
  lemma {:induction false} ChosenOnce(all: seq<Node>, newindx: nat, leaf: bool, pmax: nat, a: nat, b: nat)
    requires Chosen(all, newindx, leaf, pmax, a) && Chosen(all, newindx, leaf, pmax, b)
    ensures a == b
  {
    if a < b {
      OnePoint(all, newindx, leaf, pmax, a, b);
    } else if b < a {
      OnePoint(all, newindx, leaf, pmax, b, a);
    }
  }

  lemma {:induction false} OnePoint(all: seq<Node>, newindx: nat, leaf: bool, pmax: nat, a: nat, b: nat)
    requires Chosen(all, newindx, leaf, pmax, a) && Chosen(all, newindx, leaf, pmax, b)
    ensures a >= b
  {
    hide Need, Room;
    if a < b {
      NeedLonger(all, a + 1, b);
      NeedLonger(all, a, b - 1);
    }
  }

  // ---- room on both sides --------------------------------------------------------------------------

  ghost predicate Fits(all: seq<Node>, split: nat, pmax: nat) {
    split <= |all| && Need(Part(all, 0, split)) <= pmax && Need(Part(all, split, |all|)) <= pmax
  }

  /** Whether the nodes moved so far show that the right, or the left, page is too small. */
  lemma {:induction false} RightOver(all: seq<Node>, split: nat, b: nat, pmax: nat)
    requires split <= b <= |all|
    ensures Need(Part(all, split, b)) > pmax ==> !Fits(all, split, pmax)
  {
    NeedPartGrows(all, split, b, |all|);
  }

  lemma {:induction false} LeftOver(all: seq<Node>, split: nat, b: nat, pmax: nat)
    requires b <= split <= |all|
    ensures Need(Part(all, 0, b)) > pmax ==> !Fits(all, split, pmax)
    ensures b == split && Need(Part(all, 0, b)) <= pmax && Need(Part(all, split, |all|)) <= pmax ==> Fits(all, split, pmax)
  {
    NeedPartGrows(all, 0, b, split);
  }

  /** At least two entries fit on a page: me_nodemax sees to it. */
  ghost predicate TwoFit(all: seq<Node>, pmax: nat) {
    forall i :: 0 <= i < |all| ==> Room(all[i]) <= pmax / 2
  }

  ghost predicate SameKind(all: seq<Node>, leaf: bool) {
    forall i :: 0 <= i < |all| ==> all[i].LeafNode? == leaf
  }

  lemma {:induction false} FitsIfHalves(all: seq<Node>, split: nat, pmax: nat)
    requires 1 <= split < |all| && Need(all[..split]) <= pmax && Need(all[split..]) <= pmax
    ensures Fits(all, split, pmax)
  {
    hide Need, Room, Part;
    NeedPart(all, 0, split);
    NeedPart(all, split, |all|);
    assert all[0..split] == all[..split] && all[split..|all|] == all[split..];
  }

  /** The old nodes behind, or before, the new one fit as they did before. */
  lemma {:induction false} OldSide(nodes: seq<Node>, i: nat, n: Node, split: nat)
    requires i <= |nodes| && split <= |nodes| + 1
    ensures i < split ==> Need(Inserted(nodes, i, n)[split..]) <= Need(nodes)
    ensures split <= i ==> Need(Inserted(nodes, i, n)[..split]) <= Need(nodes)
  {
    hide Need;
    var all := Inserted(nodes, i, n);
    if i < split {
      assert all[split..] == nodes[split - 1..];
      NeedCut(nodes, split - 1);
    } else {
      assert all[..split] == nodes[..split];
      NeedCut(nodes, split);
    }
  }

  /** The side that was filled ran over with one node more, so little is left for the other. */
  lemma {:induction false} RunOverLeft(nodes: seq<Node>, i: nat, n: Node, pmax: nat, split: nat)
    requires i <= |nodes| && split <= |nodes| && Need(nodes) <= pmax && TwoFit(Inserted(nodes, i, n), pmax)
    requires Need(Inserted(nodes, i, n)[..split + 1]) > pmax
    ensures Need(Inserted(nodes, i, n)[split..]) <= pmax
  {
    hide Need, Room;
    var all := Inserted(nodes, i, n);
    NeedInserted(nodes, i, n);
    NeedNext(all, split);
    NeedCut(all, split);
    assert all[i] == n;
  }

  lemma {:induction false} RunOverRight(nodes: seq<Node>, i: nat, n: Node, pmax: nat, split: nat)
    requires i <= |nodes| && 1 <= split <= |nodes| + 1 && Need(nodes) <= pmax && TwoFit(Inserted(nodes, i, n), pmax)
    requires Need(Inserted(nodes, i, n)[split - 1..]) > pmax
    ensures Need(Inserted(nodes, i, n)[..split]) <= pmax
  {
    hide Need, Room;
    var all := Inserted(nodes, i, n);
    NeedInserted(nodes, i, n);
    NeedPrev(all, split - 1);
    NeedCut(all, split);
    assert all[i] == n;
  }

  /** An append that ran over nothing: the last old node and the new one. */
  lemma {:induction false} LastTwo(all: seq<Node>, pmax: nat)
    requires |all| >= 2 && TwoFit(all, pmax)
    ensures Need(all[|all| - 2..]) <= pmax
  {
    hide Room, Need;
    NeedPrev(all, |all| - 2);
    NeedPrev(all, |all| - 1);
    assert all[|all|..] == [];
    NeedNone();
  }

  lemma {:induction false} NeedNone()
    ensures Need([]) == 0
  {
  }

  lemma {:induction false} Behind<T>(s: seq<T>, i: nat, x: T)
    requires i <= |s|
    ensures var t := Inserted(s, i, x); |t| == |s| + 1 && t[i] == x && t[i + 1..|t|] == s[i..]
  {
  }

  /** A new branch node that comes first on the right page leaves its key behind. */
  lemma {:induction false} NewFirst(nodes: seq<Node>, n: Node, split: nat)
    requires 1 <= split <= |nodes| && n.BranchNode?
    ensures Need(Part(Inserted(nodes, split, n), split, |nodes| + 1)) <= Need(nodes)
  {
    var all := Inserted(nodes, split, n);
    hide Need, Room, NoKey, Part, Inserted;
    Behind(nodes, split, n);
    EntryNoKey(n, nodes[split - 1]);
    NeedPart(all, split, |all|);
    NeedCut(nodes, split - 1);
    NeedPrev(nodes, split - 1);
  }

  lemma {:induction false} LeftFits(nodes: seq<Node>, i: nat, n: Node, leaf: bool, pmax: nat, split: nat)
    requires |nodes| >= 2 && i <= |nodes| && Need(nodes) <= pmax
    requires TwoFit(Inserted(nodes, i, n), pmax) && SameKind(Inserted(nodes, i, n), leaf)
    requires Chosen(Inserted(nodes, i, n), i, leaf, pmax, split) && BySize(Inserted(nodes, i, n), i, pmax)
    requires FromLeft(Inserted(nodes, i, n), i)
    ensures Fits(Inserted(nodes, i, n), split, pmax)
  {
    hide Need, Room, TwoFit, Part, BySize;
    var all := Inserted(nodes, i, n);
    if split < LastPoint(all, i, leaf) {
      RunOverLeft(nodes, i, n, pmax, split);
      FitsIfHalves(all, split, pmax);
    } else if i >= |nodes| {
      LastTwo(all, pmax);
      FitsIfHalves(all, split, pmax);
    } else if i < split {
      OldSide(nodes, i, n, split);
      FitsIfHalves(all, split, pmax);
    } else {
      assert all[i] == n;
      NewFirst(nodes, n, split);
      NeedPart(all, 0, split);
      assert all[0..split] == all[..split];
    }
  }

  lemma {:induction false} RightFits(nodes: seq<Node>, i: nat, n: Node, leaf: bool, pmax: nat, split: nat)
    requires |nodes| >= 2 && i <= |nodes| && Need(nodes) <= pmax && TwoFit(Inserted(nodes, i, n), pmax)
    requires Chosen(Inserted(nodes, i, n), i, leaf, pmax, split) && BySize(Inserted(nodes, i, n), i, pmax)
    requires !FromLeft(Inserted(nodes, i, n), i)
    ensures Fits(Inserted(nodes, i, n), split, pmax)
  {
    hide Need, Room, TwoFit, Part, BySize;
    var all := Inserted(nodes, i, n);
    if split > Half(all) + 1 {
      RunOverRight(nodes, i, n, pmax, split);
    } else {
      OldSide(nodes, i, n, split);
    }
    FitsIfHalves(all, split, pmax);
  }

  /** A split point found by size never lets mdb_node_add fail. */
  lemma {:induction false} BySizeFits(nodes: seq<Node>, i: nat, n: Node, leaf: bool, pmax: nat, split: nat)
    requires |nodes| >= 2 && i <= |nodes| && Need(nodes) <= pmax
    requires TwoFit(Inserted(nodes, i, n), pmax) && SameKind(Inserted(nodes, i, n), leaf)
    requires Chosen(Inserted(nodes, i, n), i, leaf, pmax, split) && BySize(Inserted(nodes, i, n), i, pmax)
    ensures Fits(Inserted(nodes, i, n), split, pmax)
  {
    hide Need, Room, TwoFit, Part, BySize, Chosen, SameKind, Fits;
    if FromLeft(Inserted(nodes, i, n), i) {
      LeftFits(nodes, i, n, leaf, pmax, split);
    } else {
      RightFits(nodes, i, n, leaf, pmax, split);
    }
  }

  /** There is room for the new node in its half by count. */
  ghost predicate HalfHasRoom(all: seq<Node>, i: nat, pmax: nat) {
    if i < Half(all) then Need(Part(all, 0, Half(all))) <= pmax else Need(Part(all, Half(all), |all|)) <= pmax
  }

  /** Exactly when a split succeeds: it fails if the point is taken by count and the half
      the new node falls into is too large. */
  lemma {:induction false} FitsExactly(nodes: seq<Node>, i: nat, n: Node, leaf: bool, pmax: nat, split: nat)
    requires |nodes| >= 2 && i <= |nodes| && Need(nodes) <= pmax
    requires TwoFit(Inserted(nodes, i, n), pmax) && SameKind(Inserted(nodes, i, n), leaf)
    requires Chosen(Inserted(nodes, i, n), i, leaf, pmax, split)
    ensures Fits(Inserted(nodes, i, n), split, pmax)
            <==> BySize(Inserted(nodes, i, n), i, pmax) || HalfHasRoom(Inserted(nodes, i, n), i, pmax)
  {
    hide Need, Room, TwoFit, Part, SameKind;
    var all := Inserted(nodes, i, n);
    if BySize(all, i, pmax) {
      BySizeFits(nodes, i, n, leaf, pmax, split);
    } else {
      OldSide(nodes, i, n, split);
      NeedPart(all, 0, split);
      NeedPart(all, split, |all|);
      assert all[0..split] == all[..split] && all[split..|all|] == all[split..];
    }
  }

  // ---- a page on which it fails --------------------------------------------------------------------

  function Zeros(k: nat): (s: seq<Byte>)
    ensures |s| == k
  {
    seq(k, _ => 0)
  }

  function Small(k: nat): seq<Node>
    requires k <= 16
  {
    seq(k, i requires 0 <= i < k => LeafNode(0, 0, [2 * i], []))
  }

  function Large(k: nat): seq<Node>
    requires k <= 16
  {
    seq(k, i requires 0 <= i < k => LeafNode(0, 231, [32 + 2 * i], Zeros(231)))
  }

  /** Comes after five of the large ones. */
  function OneMore(): Node { LeafNode(0, 231, [41], Zeros(231)) }

  lemma {:induction false} NeedAlike(nodes: seq<Node>, e: nat)
    requires forall i :: 0 <= i < |nodes| ==> Room(nodes[i]) == e
    ensures Need(nodes) == |nodes| * e
    decreases |nodes|
  {
    hide Room;
    if nodes == [] {
    } else {
      NeedAlike(nodes[..|nodes| - 1], e);
    }
  }

  lemma {:induction false} Uneven()
    ensures Need(Small(16)) == 192 && Need(Large(16)) == 3872 && Room(OneMore()) == 242
    ensures forall i :: 0 <= i < 16 ==> Room(Small(16)[i]) == 12 && Room(Large(16)[i]) == 242
  {
    hide Room;
    EntryIs(OneMore());
    forall i | 0 <= i < 16
      ensures Room(Small(16)[i]) == 12 && Room(Large(16)[i]) == 242
    {
      EntryIs(Small(16)[i]);
      EntryIs(Large(16)[i]);
    }
    NeedAlike(Small(16), 12);
    NeedAlike(Large(16), 242);
  }

  /** Sixteen small nodes, then sixteen large ones, on a page of 4096 bytes: one more large
      one makes the page split by count, and the large half does not fit. */
  lemma {:induction false} SplitCanFail()
    ensures var nodes, n := Small(16) + Large(16), OneMore();
            var all := Inserted(nodes, 21, n);
            && SameKind(all, true) && TwoFit(all, 4080) && Need(nodes) <= 4080
            && Chosen(all, 21, true, 4080, 16) && !Fits(all, 16, 4080)
            && BySize(Inserted(nodes[1..], 20, n), 20, 4080)
  {
    var small, large, n := Small(16), Large(16), OneMore();
    var nodes := small + large;
    var all := Inserted(nodes, 21, n);
    Uneven();
    NeedConcat(small, large);
    NeedInserted(nodes, 21, n);
    NeedCut(all, 16);
    assert all[..16] == small;
    AllTwoFit(all, nodes, n);
    assert all[21] == n;
    hide Need, Room, Small, Large;
    LeafParts(all, 16);
  }

  lemma {:induction false} AllTwoFit(all: seq<Node>, nodes: seq<Node>, n: Node)
    requires nodes == Small(16) + Large(16) && n == OneMore() && all == Inserted(nodes, 21, n)
    ensures SameKind(all, true) && TwoFit(all, 4080)
  {
    Uneven();
    forall i | 0 <= i < |all|
      ensures all[i].LeafNode? && Room(all[i]) <= 2040
    {
      InsertedAt(nodes, 21, n, i);
    }
  }
}
