/** mdb_page_split on pages with nodes: the old nodes and a new one, spread over two pages. */
module PageSplit {
  import opened Words
  import opened LittleEndian
  import opened Sequences
  import opened Tiling
  import opened SlottedPage
  import opened SplitFit

  // ---- finding the nodes ---------------------------------------------------------------------------

  /** Entry i of copy->mp_ptrs is where node i of the enlarged sequence lies in the old
      page, except for the new node. */
  ghost predicate Staged(bytes: seq<Byte>, slots: seq<nat>, all: seq<Node>, newindx: nat, leaf: bool, from: nat) {
    |all| <= |slots| && forall i :: from <= i < |all| && i != newindx ==> StagedAt(bytes, slots[i], all[i], leaf)
  }

  ghost predicate StagedAt(bytes: seq<Byte>, at: nat, n: Node, leaf: bool) {
    Stored(bytes, at, n) && Wf(n, leaf)
  }

  /** The slots of the enlarged sequence, with a gap for the new node. */
  method Stage(mp: Page, copy: Page, newindx: nat)
    requires mp.Valid() && copy.Valid() && copy.nodes == [] && newindx <= |mp.nodes| < copy.ptrs.Length
    requires mp.ptrs != copy.ptrs && mp.bytes as object != copy.ptrs
    modifies copy.ptrs
    ensures copy.Valid() && mp.Valid()
    ensures forall n :: Staged(mp.bytes[..], copy.ptrs[..], Inserted(mp.nodes, newindx, n), newindx, mp.leaf, 0)
  {
    hide PageIs, Staged;
    var nkeys, i, j := mp.NumKeys(), 0, 0;
    assert copy.ptrs[..|copy.nodes|] == [];
    while i < nkeys
      invariant 0 <= i <= nkeys == |mp.nodes| && j == if i <= newindx then i else i + 1
      invariant forall k :: 0 <= k < i ==> copy.ptrs[Later(newindx, k)] == mp.ptrs[k]
    {
      if i == newindx {
        copy.ptrs[j] := 0;
        j := j + 1;
      }
      copy.ptrs[j] := mp.ptrs[i];
      j, i := j + 1, i + 1;
    }
    assert copy.Valid() by { assert copy.ptrs[..|copy.nodes|] == []; }
    forall n ensures Staged(mp.bytes[..], copy.ptrs[..], Inserted(mp.nodes, newindx, n), newindx, mp.leaf, 0) {
      StagedAll(mp.bytes[..], mp.ptrs[..|mp.nodes|], mp.upper, mp.nodes, mp.leaf, copy.ptrs[..], newindx, n);
    }
  }

  lemma {:induction false} StagedAll(bytes: seq<Byte>, ptrs: seq<nat>, upper: nat, nodes: seq<Node>, leaf: bool,
                                     slots: seq<nat>, newindx: nat, n: Node)
    requires PageIs(bytes, ptrs, upper, nodes, leaf) && newindx <= |nodes| < |slots|
    requires forall k :: 0 <= k < |nodes| ==> slots[Later(newindx, k)] == ptrs[k]
    ensures Staged(bytes, slots, Inserted(nodes, newindx, n), newindx, leaf, 0)
  {
    hide Tiled, Stored, Wf;
    var all := Inserted(nodes, newindx, n);
    forall i | 0 <= i < |all| && i != newindx ensures StagedAt(bytes, slots[i], all[i], leaf) {
      InsertedAt(nodes, newindx, n, i);
      var k := Earlier(newindx, i);
      assert slots[Later(newindx, k)] == ptrs[k];
    }
  }

  method EntrySize(mp: Page, at: nat, ghost n: Node) returns (sz: nat)
    requires StagedAt(mp.bytes[..], at, n, mp.leaf)
    ensures sz == Room(n)
  {
    hide LeNum, DataSize, Stored;
    NodeAtIs(mp.bytes[..], at, n, mp.leaf);
    sz := Even(NODESIZE + LeNum(mp.bytes[at + 6..at + 8]) + DataSize(mp.bytes[..], at, mp.leaf)) + 2;
  }

  /** The split point, by count or by size. */
  method SplitPoint(mp: Page, copy: Page, newindx: nat, nsize: nat, ghost all: seq<Node>) returns (split: nat)
    requires |all| >= 3 && newindx < |all| && PAGEHDRSZ <= mp.bytes.Length
    requires Staged(mp.bytes[..], copy.ptrs[..], all, newindx, mp.leaf, 0)
    requires nsize == Room(all[newindx])
    requires forall i :: 0 <= i < |all| ==> Room(all[i]) <= mp.bytes.Length - PAGEHDRSZ
    requires PAGEHDRSZ + 2 * (|all| - 1) == mp.lower
    ensures Chosen(all, newindx, mp.leaf, mp.bytes.Length - PAGEHDRSZ, split)
  {
    hide Room, StagedAt, Need, Chosen, BySize;
    var nkeys, pmax := mp.NumKeys(), mp.bytes.Length - PAGEHDRSZ;
    split := (nkeys + 1) / 2;
    SizeRule(all, newindx, pmax);
    if nkeys < 32 || nsize > pmax / 16 || newindx >= nkeys {
      var psize := 0;
      var i: int, j: int, k: int := 0, 1, if newindx >= nkeys then nkeys else split + 1 + (if mp.leaf then 1 else 0);
      if !(newindx <= split || newindx >= nkeys) {
        i, j, k := nkeys, -1, split - 1;
      }
      NeedNone();
      assert all[..0] == [] && all[nkeys + 1..] == [];
      while i != k
        invariant if j == 1 then FromLeft(all, newindx) && 0 <= i < k == LastPoint(all, newindx, mp.leaf) + 1
                  else j == -1 && !FromLeft(all, newindx) && k == Half(all) - 1 && k < i <= nkeys
        invariant psize == if j == 1 then Need(all[..i]) else Need(all[i + 1..])
        invariant psize <= pmax && split == Half(all)
        decreases if j == 1 then k - i else i - k
      {
        var size := nsize;
        if i != newindx {
          size := EntrySize(mp, copy.ptrs[i], all[i]);
        }
        if j == 1 {
          PointFromLeft(all, newindx, mp.leaf, pmax, i);
        } else {
          PointFromRight(all, newindx, mp.leaf, pmax, i);
        }
        psize := psize + size;
        if psize > pmax || i == k - j {
          split := i + if j < 0 then 1 else 0;
          break;
        }
        i := i + j;
      }
    } else {
      PointByCount(all, newindx, mp.leaf, pmax);
    }
  }

  lemma {:induction false} SizeRule(all: seq<Node>, newindx: nat, pmax: nat)
    requires newindx < |all|
    ensures BySize(all, newindx, pmax) <==> |all| - 1 < 32 || Room(all[newindx]) > pmax / 16 || newindx >= |all| - 1
  {
  }

  /** The search from the left has come to node i. */
  lemma {:induction false} PointFromLeft(all: seq<Node>, newindx: nat, leaf: bool, pmax: nat, i: nat)
    requires |all| >= 3 && newindx < |all| && FromLeft(all, newindx) && i <= LastPoint(all, newindx, leaf)
    requires Need(all[..i]) <= pmax && Room(all[0]) <= pmax && BySize(all, newindx, pmax)
    ensures i < |all| && Need(all[..i + 1]) == Need(all[..i]) + Room(all[i])
    ensures Need(all[..i + 1]) > pmax || i == LastPoint(all, newindx, leaf) ==> Chosen(all, newindx, leaf, pmax, i)
  {
    hide Need, Room, BySize;
    NeedNext(all, i);
    if i == 0 {
      NeedNone();
      assert all[..0] == [];
    }
  }

  lemma {:induction false} PointFromRight(all: seq<Node>, newindx: nat, leaf: bool, pmax: nat, i: nat)
    requires |all| >= 3 && newindx < |all| && !FromLeft(all, newindx) && Half(all) <= i < |all|
    requires Need(all[i + 1..]) <= pmax && Room(all[|all| - 1]) <= pmax && BySize(all, newindx, pmax)
    ensures Need(all[i..]) == Room(all[i]) + Need(all[i + 1..])
    ensures Need(all[i..]) > pmax || i == Half(all) ==> Chosen(all, newindx, leaf, pmax, i + 1)
  {
    hide Need, Room, BySize;
    NeedPrev(all, i);
    if i == |all| - 1 {
      NeedNone();
      assert all[|all|..] == [];
    }
  }

  lemma {:induction false} PointByCount(all: seq<Node>, newindx: nat, leaf: bool, pmax: nat)
    requires |all| >= 3 && newindx < |all| && !BySize(all, newindx, pmax)
    ensures Chosen(all, newindx, leaf, pmax, |all| / 2)
  {
  }

  // ---- moving the nodes --------------------------------------------------------------------------

  lemma {:induction false} InsertedLast<T>(s: seq<T>, x: T)
    ensures Inserted(s, |s|, x) == s + [x]
  {
  }

  /** The node that goes onto a page as its j-th: entry i, or the new one. */
  method Entry(mp: Page, copy: Page, i: nat, j: nat, newindx: nat, added: Node, nodeMax: nat, ov: nat, ghost all: seq<Node>)
    returns (want: Node)
    requires i < |all| && newindx < |all| && all[newindx] == AsStored(added, nodeMax, ov)
    requires Staged(mp.bytes[..], copy.ptrs[..], all, newindx, mp.leaf, i)
    requires Wf(added, mp.leaf) && Wf(all[newindx], mp.leaf)
    requires forall k :: 0 <= k < |all| && k != newindx ==> AsStored(all[k], nodeMax, ov) == all[k]
    ensures Wf(want, mp.leaf) && Wf(AsStored(want, nodeMax, ov), mp.leaf)
    ensures AsStored(want, nodeMax, ov) == if j == 0 then NoKey(all[i]) else all[i]
  {
    hide LeNum, Stored;
    if i == newindx {
      want := added;
    } else {
      var at := copy.ptrs[i];
      assert StagedAt(mp.bytes[..], copy.ptrs[..][i], all[i], mp.leaf);
      NodeAtIs(mp.bytes[..], at, all[i], mp.leaf);
      want := NodeAt(mp.bytes[..], at, mp.leaf);
    }
    if !mp.leaf && j == 0 {
      want := BranchNode(want.pgno, []);
    }
  }

  /** mdb_node_add at the end of a page. */
  method AddLast(page: Page, want: Node, nodeMax: nat, ov: nat) returns (ok: bool)
    requires page.Valid() && Wf(want, page.leaf) && Wf(AsStored(want, nodeMax, ov), page.leaf)
    modifies page, page.bytes, page.ptrs
    ensures page.Valid()
    ensures ok <==> Need(old(page.nodes) + [AsStored(want, nodeMax, ov)]) <= page.bytes.Length - PAGEHDRSZ
    ensures ok ==> page.nodes == old(page.nodes) + [AsStored(want, nodeMax, ov)]
    ensures ok ==> page.ptrs[|page.nodes| - 1] == page.upper
    ensures forall k :: |page.nodes| <= k < page.ptrs.Length ==> page.ptrs[k] == old(page.ptrs[k])
  {
    hide PageIs, Wf, AsStored, Need, Extent;
    NeedOnPage(page.bytes[..], page.ptrs[..|page.nodes|], page.upper, page.nodes, page.leaf);
    NeedSnoc(page.nodes, AsStored(want, nodeMax, ov));
    InsertedLast(page.nodes, AsStored(want, nodeMax, ov));
    ok := page.NodeAdd(page.NumKeys(), want, nodeMax, ov);
  }

  lemma {:induction false} NeedOnPage(bytes: seq<Byte>, ptrs: seq<nat>, upper: nat, nodes: seq<Node>, leaf: bool)
    requires PageIs(bytes, ptrs, upper, nodes, leaf)
    ensures Need(nodes) == |bytes| - upper + 2 * |nodes|
  {
    NeedIs(nodes);
  }

  /** What the loop needs to know throughout about the old page and the new node. */
  ghost predicate Ready(leaf: bool, newindx: nat, added: Node, nodeMax: nat, ov: nat, all: seq<Node>) {
    && newindx < |all| && all[newindx] == AsStored(added, nodeMax, ov)
    && Wf(added, leaf) && Wf(all[newindx], leaf)
    && forall k :: 0 <= k < |all| && k != newindx ==> AsStored(all[k], nodeMax, ov) == all[k]
  }

  ghost predicate Apart(mp: Page, rp: Page, copy: Page) {
    && mp != rp && mp != copy && rp != copy
    && mp.bytes != rp.bytes && mp.bytes != copy.bytes && rp.bytes != copy.bytes
    && mp.ptrs != rp.ptrs && mp.ptrs != copy.ptrs && rp.ptrs != copy.ptrs
    && mp.bytes as object != rp.ptrs && mp.bytes as object != copy.ptrs
    && rp.bytes as object != mp.ptrs && rp.bytes as object != copy.ptrs
    && copy.bytes as object != mp.ptrs && copy.bytes as object != rp.ptrs
  }

  /** One turn: entry i becomes the next node of the page being filled. */
  method MoveRight(mp: Page, rp: Page, copy: Page, i: nat, split: nat, newindx: nat, added: Node, nodeMax: nat, ov: nat,
                   ghost all: seq<Node>) returns (ok: bool)
    requires Apart(mp, rp, copy) && rp.Valid() && rp.leaf == mp.leaf && Ready(mp.leaf, newindx, added, nodeMax, ov, all)
    requires Staged(mp.bytes[..], copy.ptrs[..], all, newindx, mp.leaf, 0)
    requires split <= i < |all| && rp.nodes == Part(all, split, i)
    modifies rp, rp.bytes, rp.ptrs
    ensures rp.Valid() && (ok ==> rp.nodes == Part(all, split, i + 1))
    ensures ok <==> Need(Part(all, split, i + 1)) <= rp.bytes.Length - PAGEHDRSZ
  {
    hide Part, PageIs, Wf, AsStored, Need;
    var want := Entry(mp, copy, i, i - split, newindx, added, nodeMax, ov, all);
    ok := AddLast(rp, want, nodeMax, ov);
    PartNext(all, split, i);
  }

  method MoveLeft(mp: Page, rp: Page, copy: Page, i: nat, newindx: nat, added: Node, nodeMax: nat, ov: nat,
                  ghost all: seq<Node>) returns (ok: bool)
    requires Apart(mp, rp, copy) && copy.Valid() && copy.leaf == mp.leaf && Ready(mp.leaf, newindx, added, nodeMax, ov, all)
    requires Staged(mp.bytes[..], copy.ptrs[..], all, newindx, mp.leaf, i)
    requires i < |all| && copy.nodes == Part(all, 0, i)
    modifies copy, copy.bytes, copy.ptrs
    ensures copy.Valid()
    ensures ok ==> copy.nodes == Part(all, 0, i + 1) && copy.ptrs[i] == copy.upper
    ensures ok ==> Staged(mp.bytes[..], copy.ptrs[..], all, newindx, mp.leaf, i + 1)
    ensures ok <==> Need(Part(all, 0, i + 1)) <= copy.bytes.Length - PAGEHDRSZ
  {
    hide Part, PageIs, Wf, AsStored, StagedAt, Need;
    var want := Entry(mp, copy, i, i, newindx, added, nodeMax, ov, all);
    ok := AddLast(copy, want, nodeMax, ov);
    PartNext(all, 0, i);
  }

  /** The nodes move: from the split point to the end onto rp, then from the start onto copy,
      whose slots are still being read while they are overwritten. */
  method Distribute(mp: Page, rp: Page, copy: Page, split: nat, newindx: nat, added: Node, nodeMax: nat, ov: nat,
                    ghost all: seq<Node>) returns (ok: bool, ki: nat)
    requires Apart(mp, rp, copy) && rp.Valid() && copy.Valid() && rp.leaf == mp.leaf == copy.leaf
    requires Ready(mp.leaf, newindx, added, nodeMax, ov, all) && rp.nodes == [] && copy.nodes == []
    requires Staged(mp.bytes[..], copy.ptrs[..], all, newindx, mp.leaf, 0) && 1 <= split < |all| && newindx < |all|
    requires PAGEHDRSZ + 2 * (|all| - 1) == mp.lower && rp.bytes.Length == copy.bytes.Length
    modifies rp, rp.bytes, rp.ptrs, copy, copy.bytes, copy.ptrs
    ensures rp.Valid() && copy.Valid()
    ensures ok <==> Fits(all, split, rp.bytes.Length - PAGEHDRSZ)
    ensures ok ==> rp.nodes == Part(all, split, |all|) && copy.nodes == Part(all, 0, split)
    ensures ok ==> copy.ptrs[split - 1] == copy.upper
    ensures ok ==> ki == if newindx < split then newindx else newindx - split
  {
    hide PageIs, Ready, Staged, Part, Need, Fits;
    PartStart(all, split);
    PartStart(all, 0);
    var nkeys, i, j, left := mp.NumKeys(), split, 0, false;
    ki := 0;
    while true
      invariant rp.Valid() && copy.Valid()
      invariant if left then 0 <= i < split && j == i else split <= i < |all| && j == i - split
      invariant rp.nodes == Part(all, split, if left then |all| else i)
      invariant copy.nodes == Part(all, 0, if left then i else 0)
      invariant Staged(mp.bytes[..], copy.ptrs[..], all, newindx, mp.leaf, if left then i else 0)
      invariant newindx >= split && (left || newindx < i) ==> ki == newindx - split
      invariant newindx < split && left && newindx < i ==> ki == newindx
      invariant left ==> Need(Part(all, split, |all|)) <= rp.bytes.Length - PAGEHDRSZ
      decreases if left then split - i else split + |all| - i
    {
      if i == newindx { ki := j; }
      if left {
        ok := MoveLeft(mp, rp, copy, i, newindx, added, nodeMax, ov, all);
        LeftOver(all, split, i + 1, rp.bytes.Length - PAGEHDRSZ);
      } else {
        ok := MoveRight(mp, rp, copy, i, split, newindx, added, nodeMax, ov, all);
        RightOver(all, split, i + 1, rp.bytes.Length - PAGEHDRSZ);
      }
      if !ok { return; }
      if i == nkeys {
        i, j, left := 0, 0, true;
      } else {
        i, j := i + 1, j + 1;
      }
      if i == split { break; }
    }
  }

  // ---- the split -----------------------------------------------------------------------------------

  /** Only the bytes from mp_upper on matter. */
  lemma {:induction false} SameTail(before: seq<Byte>, after: seq<Byte>, ptrs: seq<nat>, upper: nat, nodes: seq<Node>, leaf: bool)
    requires PageIs(before, ptrs, upper, nodes, leaf) && |after| == |before|
    requires forall x :: upper <= x < |before| ==> after[x] == before[x]
    ensures PageIs(after, ptrs, upper, nodes, leaf)
  {
    hide Tiled, Stored, Wf;
    forall e | 0 <= e < |nodes| ensures Stored(after, ptrs[e], nodes[e]) {
      KeptOnAdd(before, after, ptrs, upper, nodes, leaf, e);
    }
  }

  /** The left half, gathered in copy, becomes the contents of mp. */
  method Adopt(mp: Page, copy: Page)
    requires mp.Valid() && copy.Valid() && mp.leaf == copy.leaf && mp.bytes.Length == copy.bytes.Length
    requires mp.bytes != copy.bytes && mp.ptrs != copy.ptrs && mp != copy
    requires mp.bytes as object != copy.ptrs && copy.bytes as object != mp.ptrs
    requires copy.nodes != [] && copy.ptrs[|copy.nodes| - 1] == copy.upper
    modifies mp, mp.bytes, mp.ptrs
    ensures mp.Valid() && mp.nodes == copy.nodes
  {
    hide PageIs;
    var nkeys := copy.NumKeys();
    ghost var was := copy.bytes[..];
    for i := 0 to nkeys
      modifies mp.ptrs
      invariant forall k :: 0 <= k < i ==> mp.ptrs[k] == copy.ptrs[k]
    {
      mp.ptrs[i] := copy.ptrs[i];
    }
    mp.lower, mp.upper := copy.lower, copy.upper;
    var from := copy.ptrs[nkeys - 1];
    for x := from to copy.bytes.Length
      modifies mp.bytes
      invariant forall y :: from <= y < x ==> mp.bytes[y] == copy.bytes[y]
    {
      mp.bytes[x] := copy.bytes[x];
    }
    mp.nodes := copy.nodes;
    assert mp.ptrs[..nkeys] == copy.ptrs[..nkeys];
    SameTail(was, mp.bytes[..], copy.ptrs[..nkeys], copy.upper, copy.nodes, copy.leaf);
  }

  /** The outcome: left nodes, then right nodes, are the old ones with the new one at
      newindx; the separator is the first right key; (onRight, ki) is the new node. */
  ghost predicate IsSplit(all: seq<Node>, newindx: nat, left: seq<Node>, right: seq<Node>, sep: seq<Byte>, onRight: bool, ki: nat) {
    var split := |left|;
    && 1 <= split < |all|
    && left == Part(all, 0, split) && right == Part(all, split, |all|)
    && sep == all[split].key
    && onRight == (newindx >= split) && ki == if onRight then newindx - split else newindx
  }

  lemma {:induction false} Halved(all: seq<Node>, newindx: nat, split: nat, ki: nat)
    requires 1 <= split < |all| && ki == if newindx < split then newindx else newindx - split
    ensures |Part(all, 0, split)| == split
    ensures IsSplit(all, newindx, Part(all, 0, split), Part(all, split, |all|), all[split].key, newindx >= split, ki)
  {
  }

  function Children(nodes: seq<Node>): (c: seq<nat>)
    requires forall i :: 0 <= i < |nodes| ==> nodes[i].BranchNode?
    ensures |c| == |nodes|
  {
    seq(|nodes|, i requires 0 <= i < |nodes| => nodes[i].pgno)
  }

  /** No child page is lost: those of the left page and then of the right page are those of
      all nodes.  Every key but the first of each page is where it was, and the first are
      empty. */
  lemma {:induction false} BranchSplit(all: seq<Node>, newindx: nat, left: seq<Node>, right: seq<Node>,
                                       sep: seq<Byte>, onRight: bool, ki: nat)
    requires IsSplit(all, newindx, left, right, sep, onRight, ki) && newindx < |all|
    requires forall i :: 0 <= i < |all| ==> all[i].BranchNode?
    ensures forall i :: 0 <= i < |left| ==> left[i].BranchNode?
    ensures forall i :: 0 <= i < |right| ==> right[i].BranchNode?
    ensures |left| >= 1 && |right| >= 1 && Children(left) + Children(right) == Children(all)
    ensures left[0].key == [] && forall i :: 1 <= i < |left| ==> left[i].key == all[i].key
    ensures right[0].key == [] && forall i :: 1 <= i < |right| ==> right[i].key == all[|left| + i].key
    ensures sep == all[|left|].key && right[0].pgno == all[|left|].pgno
    ensures ki < |if onRight then right else left| && (if onRight then right else left)[ki].pgno == all[newindx].pgno
  {
    forall i | 0 <= i < |right| ensures right[i].BranchNode? && right[i].pgno == all[|left| + i].pgno {
    }
    forall i | 0 <= i < |left| ensures left[i].BranchNode? && left[i].pgno == all[i].pgno {
    }
  }

  /** The cursor denotes the new node (up to the key a first branch node does not need). */
  lemma {:induction false} CursorOnNew(all: seq<Node>, newindx: nat, left: seq<Node>, right: seq<Node>,
                                       sep: seq<Byte>, onRight: bool, ki: nat)
    requires IsSplit(all, newindx, left, right, sep, onRight, ki) && newindx < |all|
    ensures ki < |if onRight then right else left|
    ensures var n := (if onRight then right else left)[ki]; n == if ki == 0 then NoKey(all[newindx]) else all[newindx]
  {
  }

  method Separator(mp: Page, copy: Page, split: nat, newindx: nat, added: Node, nodeMax: nat, ov: nat, ghost all: seq<Node>)
    returns (sep: seq<Byte>)
    requires split < |all| && Ready(mp.leaf, newindx, added, nodeMax, ov, all)
    requires Staged(mp.bytes[..], copy.ptrs[..], all, newindx, mp.leaf, 0)
    ensures sep == all[split].key
  {
    hide LeNum, Stored, Wf;
    if split == newindx {
      sep := added.key;
    } else {
      var at := copy.ptrs[split];
      assert StagedAt(mp.bytes[..], copy.ptrs[..][split], all[split], mp.leaf);
      NodeAtIs(mp.bytes[..], at, all[split], mp.leaf);
      sep := NodeAt(mp.bytes[..], at, mp.leaf).key;
    }
  }

  /** MDB_APPEND: the right page gets the new node alone. */
  method SplitAppend(mp: Page, added: Node, nodeMax: nat, ov: nat) returns (ok: bool, rp: Page, sep: seq<Byte>)
    requires mp.Valid() && mp.leaf && mp.nodes != [] && Wf(added, true) && Wf(AsStored(added, nodeMax, ov), true)
    ensures fresh(rp) && fresh(rp.bytes) && fresh(rp.ptrs) && rp.Valid() && rp.leaf
    ensures ok <==> Room(AsStored(added, nodeMax, ov)) <= mp.bytes.Length - PAGEHDRSZ
    ensures ok ==> IsSplit(Inserted(mp.nodes, |mp.nodes|, AsStored(added, nodeMax, ov)), |mp.nodes|,
                           mp.nodes, rp.nodes, sep, true, 0)
  {
    hide PageIs, Need, Room;
    rp := new Page(mp.leaf, mp.bytes.Length);
    ok := AddLast(rp, added, nodeMax, ov);
    NeedOne(AsStored(added, nodeMax, ov));
    assert [] + [AsStored(added, nodeMax, ov)] == [AsStored(added, nodeMax, ov)];
    sep := added.key;
    AppendParts(mp.bytes[..], mp.ptrs[..|mp.nodes|], mp.upper, mp.nodes, AsStored(added, nodeMax, ov));
  }

  lemma {:induction false} AppendParts(bytes: seq<Byte>, ptrs: seq<nat>, upper: nat, nodes: seq<Node>, n: Node)
    requires PageIs(bytes, ptrs, upper, nodes, true) && n.LeafNode?
    ensures var all := Inserted(nodes, |nodes|, n);
            all == nodes + [n] && Part(all, 0, |nodes|) == nodes && Part(all, |nodes|, |all|) == [n]
  {
    var all := Inserted(nodes, |nodes|, n);
    assert forall i :: 0 <= i < |nodes| ==> Wf(nodes[i], true);
    LeafParts(all, |nodes|);
  }

  /** Success, exactly: the split point is looked for by size, or the half that gets the new
      node has room for it. */
  ghost predicate SplitsWhen(all: seq<Node>, newindx: nat, pmax: nat, ok: bool)
    requires newindx < |all|
  {
    TwoFit(all, pmax) ==> (ok <==> BySize(all, newindx, pmax) || HalfHasRoom(all, newindx, pmax))
  }

  method Prepare(mp: Page, copy: Page, newindx: nat, added: Node, nodeMax: nat, ov: nat, ghost all: seq<Node>)
    returns (split: nat, sep: seq<Byte>)
    requires mp.Valid() && copy.Valid() && copy.nodes == [] && copy.ptrs.Length == mp.bytes.Length / 2
    requires mp.ptrs != copy.ptrs && mp.bytes as object != copy.ptrs
    requires |mp.nodes| >= 2 && newindx <= |mp.nodes| && all == Inserted(mp.nodes, newindx, AsStored(added, nodeMax, ov))
    requires Wf(added, mp.leaf) && Wf(AsStored(added, nodeMax, ov), mp.leaf)
    requires Room(AsStored(added, nodeMax, ov)) <= mp.bytes.Length - PAGEHDRSZ
    requires forall k :: 0 <= k < |mp.nodes| ==> AsStored(mp.nodes[k], nodeMax, ov) == mp.nodes[k]
    modifies copy.ptrs
    ensures mp.Valid() && copy.Valid() && Ready(mp.leaf, newindx, added, nodeMax, ov, all)
    ensures Staged(mp.bytes[..], copy.ptrs[..], all, newindx, mp.leaf, 0)
    ensures Chosen(all, newindx, mp.leaf, mp.bytes.Length - PAGEHDRSZ, split)
    ensures 1 <= split < |all| && sep == all[split].key
    ensures SplitsWhen(all, newindx, mp.bytes.Length - PAGEHDRSZ, Fits(all, split, mp.bytes.Length - PAGEHDRSZ))
  {
    hide PageIs, Wf, AsStored, Extent, Staged, Ready, Need, SplitsWhen, Fits;
    Stage(mp, copy, newindx);
    ReadyAll(mp.nodes, mp.leaf, newindx, added, nodeMax, ov);
    FitAll(mp.bytes[..], mp.ptrs[..|mp.nodes|], mp.upper, mp.nodes, mp.leaf, newindx, AsStored(added, nodeMax, ov));
    split := SplitPoint(mp, copy, newindx, Extent(AsStored(added, nodeMax, ov)) + 2, all);
    sep := Separator(mp, copy, split, newindx, added, nodeMax, ov, all);
    FitsWhen(mp.bytes[..], mp.ptrs[..|mp.nodes|], mp.upper, mp.nodes, mp.leaf, newindx, AsStored(added, nodeMax, ov), split);
  }

  lemma {:induction false} FitsWhen(bytes: seq<Byte>, ptrs: seq<nat>, upper: nat, nodes: seq<Node>, leaf: bool,
                                    newindx: nat, n: Node, split: nat)
    requires PageIs(bytes, ptrs, upper, nodes, leaf) && newindx <= |nodes| && |nodes| >= 2 && Wf(n, leaf)
    requires PAGEHDRSZ + 2 * |nodes| <= upper <= |bytes|
    requires Chosen(Inserted(nodes, newindx, n), newindx, leaf, |bytes| - PAGEHDRSZ, split)
    ensures var all, pmax := Inserted(nodes, newindx, n), |bytes| - PAGEHDRSZ;
            SplitsWhen(all, newindx, pmax, Fits(all, split, pmax))
  {
    var all, pmax := Inserted(nodes, newindx, n), |bytes| - PAGEHDRSZ;
    NeedOnPage(bytes, ptrs, upper, nodes, leaf);
    hide Tiled, Stored, Need, TwoFit, Chosen, Fits, BySize, HalfHasRoom;
    forall i | 0 <= i < |all|
      ensures all[i].LeafNode? == leaf
    {
      InsertedAt(nodes, newindx, n, i);
      assert i != newindx ==> Wf(all[i], leaf);
    }
    if TwoFit(all, pmax) {
      FitsExactly(nodes, newindx, n, leaf, pmax, split);
    }
  }

  lemma {:induction false} ReadyAll(nodes: seq<Node>, leaf: bool, newindx: nat, added: Node, nodeMax: nat, ov: nat)
    requires newindx <= |nodes| && Wf(added, leaf) && Wf(AsStored(added, nodeMax, ov), leaf)
    requires forall k :: 0 <= k < |nodes| ==> AsStored(nodes[k], nodeMax, ov) == nodes[k]
    ensures Ready(leaf, newindx, added, nodeMax, ov, Inserted(nodes, newindx, AsStored(added, nodeMax, ov)))
  {
    hide Wf, AsStored;
    var n := AsStored(added, nodeMax, ov);
    var all := Inserted(nodes, newindx, n);
    InsertedAt(nodes, newindx, n, newindx);
    forall k | 0 <= k < |all| && k != newindx ensures AsStored(all[k], nodeMax, ov) == all[k] {
      InsertedAt(nodes, newindx, n, k);
    }
  }

  /** No node is larger than an empty page. */
  lemma {:induction false} FitAll(bytes: seq<Byte>, ptrs: seq<nat>, upper: nat, nodes: seq<Node>, leaf: bool, newindx: nat, n: Node)
    requires PageIs(bytes, ptrs, upper, nodes, leaf) && newindx <= |nodes| && PAGEHDRSZ + 2 * |nodes| <= upper
    requires Extent(n) + 2 <= |bytes| - PAGEHDRSZ
    ensures forall i :: 0 <= i < |Inserted(nodes, newindx, n)| ==> Extent(Inserted(nodes, newindx, n)[i]) + 2 <= |bytes| - PAGEHDRSZ
  {
    hide Wf, Extent, Tiled;
    var all := Inserted(nodes, newindx, n);
    forall i | 0 <= i < |all| ensures Extent(all[i]) + 2 <= |bytes| - PAGEHDRSZ {
      InsertedAt(nodes, newindx, n, i);
      if i != newindx { Within(ptrs, nodes, upper, |bytes|, Earlier(newindx, i)); }
    }
  }

  /** Both pages are there; copy is the temporary one. */
  method SplitInto(mp: Page, rp: Page, copy: Page, newindx: nat, added: Node, nodeMax: nat, ov: nat)
    returns (ok: bool, sep: seq<Byte>, onRight: bool, ki: nat)
    requires mp.Valid() && |mp.nodes| >= 2 && newindx <= |mp.nodes|
    requires Wf(added, mp.leaf) && Wf(AsStored(added, nodeMax, ov), mp.leaf)
    requires Room(AsStored(added, nodeMax, ov)) <= mp.bytes.Length - PAGEHDRSZ
    requires forall k :: 0 <= k < |mp.nodes| ==> AsStored(mp.nodes[k], nodeMax, ov) == mp.nodes[k]
    requires Apart(mp, rp, copy) && rp.Valid() && copy.Valid() && rp.nodes == [] && copy.nodes == []
    requires rp.leaf == mp.leaf == copy.leaf && copy.ptrs.Length == mp.bytes.Length / 2
    requires rp.bytes.Length == mp.bytes.Length == copy.bytes.Length
    modifies mp, mp.bytes, mp.ptrs, rp, rp.bytes, rp.ptrs, copy, copy.bytes, copy.ptrs
    ensures mp.Valid() && rp.Valid()
    ensures !ok ==> mp.nodes == old(mp.nodes)
    ensures var all, pmax := Inserted(old(mp.nodes), newindx, AsStored(added, nodeMax, ov)), mp.bytes.Length - PAGEHDRSZ;
            && (ok ==> IsSplit(all, newindx, mp.nodes, rp.nodes, sep, onRight, ki))
            && (ok ==> Chosen(all, newindx, mp.leaf, pmax, |mp.nodes|))
            && SplitsWhen(all, newindx, pmax, ok)
  {
    hide PageIs, Wf, AsStored, Room, Staged, Ready, Part, IsSplit, Need, Chosen, Fits, SplitsWhen;
    ghost var all := Inserted(mp.nodes, newindx, AsStored(added, nodeMax, ov));
    assert |all| == |mp.nodes| + 1;
    hide Inserted;
    var split;
    split, sep := Prepare(mp, copy, newindx, added, nodeMax, ov, all);
    onRight := newindx >= split;
    ok, ki := Distribute(mp, rp, copy, split, newindx, added, nodeMax, ov, all);
    if ok {
      Halved(all, newindx, split, ki);
      Adopt(mp, copy);
    }
  }

  /** mdb_page_split: when it succeeds the content is preserved; when a node does not fit,
      the old page is as before.  It succeeds whenever the split point was found by size. */
  method Split(mp: Page, newindx: nat, added: Node, nodeMax: nat, ov: nat)
    returns (ok: bool, rp: Page, sep: seq<Byte>, onRight: bool, ki: nat)
    requires mp.Valid() && |mp.nodes| >= 2 && newindx <= |mp.nodes|
    requires Wf(added, mp.leaf) && Wf(AsStored(added, nodeMax, ov), mp.leaf)
    requires Room(AsStored(added, nodeMax, ov)) <= mp.bytes.Length - PAGEHDRSZ
    requires forall k :: 0 <= k < |mp.nodes| ==> AsStored(mp.nodes[k], nodeMax, ov) == mp.nodes[k]
    modifies mp, mp.bytes, mp.ptrs
    ensures mp.Valid() && rp.Valid() && fresh(rp) && fresh(rp.bytes) && fresh(rp.ptrs) && rp.leaf == mp.leaf
    ensures !ok ==> mp.nodes == old(mp.nodes)
    ensures var all, pmax := Inserted(old(mp.nodes), newindx, AsStored(added, nodeMax, ov)), mp.bytes.Length - PAGEHDRSZ;
            && (ok ==> IsSplit(all, newindx, mp.nodes, rp.nodes, sep, onRight, ki))
            && (ok ==> Chosen(all, newindx, mp.leaf, pmax, |mp.nodes|))
            && SplitsWhen(all, newindx, pmax, ok)
  {
    hide PageIs, Wf, AsStored, Room, Inserted, IsSplit, Chosen, SplitsWhen;
    rp := new Page(mp.leaf, mp.bytes.Length);
    var copy := new Page(mp.leaf, mp.bytes.Length);
    ok, sep, onRight, ki := SplitInto(mp, rp, copy, newindx, added, nodeMax, ov);
  }
}
