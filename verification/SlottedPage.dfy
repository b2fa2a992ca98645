/** Branch and leaf pages: mdb_node_add and mdb_node_del. */
module SlottedPage {
  import opened Words
  import opened LittleEndian
  import opened Sequences
  import opened Tiling
  import Memory

  const NODESIZE: nat := 8

  function Even(n: nat): nat { n + n % 2 }

  // ---- nodes -----------------------------------------------------------------------------

  /** A node as stored.  With F_BIGDATA (the lowest flag) the data part is the number of an
      overflow page, and dsize the size of what is there. */
  datatype Node =
    | LeafNode(flags: nat, dsize: nat, key: seq<Byte>, data: seq<Byte>)
    | BranchNode(pgno: nat, key: seq<Byte>)

  predicate Big(n: Node) { n.LeafNode? && n.flags % 2 == 1 }

  predicate Wf(n: Node, leaf: bool) {
    && n.LeafNode? == leaf
    && |n.key| < 0x1_0000
    && (leaf ==> n.flags < 0x1_0000 && n.dsize < 0x1_0000_0000 && |n.data| == if Big(n) then 8 else n.dsize)
    && (!leaf ==> n.pgno < 0x1_0000_0000_0000)
  }

  function Data(n: Node): seq<Byte> {
    if n.LeafNode? then n.data else []
  }

  /** mn_lo, mn_hi, mn_flags, mn_ksize. */
  function Header(n: Node): (h: seq<Byte>)
    ensures |h| == NODESIZE
  {
    (if n.LeafNode? then LeBytes(n.dsize, 4) + LeBytes(n.flags, 2) else LeBytes(n.pgno, 6)) + LeBytes(|n.key|, 2)
  }

  function Image(n: Node): (b: seq<Byte>)
    ensures |b| == NODESIZE + |n.key| + |Data(n)|
  {
    Header(n) + n.key + Data(n)
  }

  /** What a node takes up on the page. */
  function Extent(n: Node): nat {
    Even(|Image(n)|)
  }

  /** The sizes read back from a node header are those of the node. */
  lemma {:induction false} HeaderReads(n: Node, leaf: bool)
    requires Wf(n, leaf)
    ensures LeNum(Header(n)[6..8]) == |n.key|
    ensures leaf ==> LeNum(Header(n)[..4]) == n.dsize && LeNum(Header(n)[4..6]) == n.flags
    ensures !leaf ==> LeNum(Header(n)[..6]) == n.pgno
  {
    var h := Header(n);
    Powers();
    hide LeNum, LeBytes;
    LeBytesRoundTrip(|n.key|, 2);
    assert h[6..8] == LeBytes(|n.key|, 2);
    if leaf {
      LeBytesRoundTrip(n.dsize, 4);
      LeBytesRoundTrip(n.flags, 2);
      assert h[..4] == LeBytes(n.dsize, 4) && h[4..6] == LeBytes(n.flags, 2);
    } else {
      LeBytesRoundTrip(n.pgno, 6);
      assert h[..6] == LeBytes(n.pgno, 6);
    }
  }

  lemma Powers()
    ensures Pow2(16) == 0x1_0000 && Pow2(32) == 0x1_0000_0000 && Pow2(48) == 0x1_0000_0000_0000
  {
    Pow2Add8(0);
    Pow2Add8(8);
    Pow2Add8(16);
    Pow2Add8(24);
    Pow2Add8(32);
    Pow2Add8(40);
  }

  /** The bytes at an offset determine the node there. */
  lemma {:induction false} ImageDetermines(a: Node, b: Node, leaf: bool, bytes: seq<Byte>, at: nat)
    requires Wf(a, leaf) && Wf(b, leaf) && Stored(bytes, at, a) && Stored(bytes, at, b)
    ensures a == b
  {
    HeaderReads(a, leaf);
    HeaderReads(b, leaf);
    hide LeNum, Header, Image;
    StoredParts(bytes, at, a);
    StoredParts(bytes, at, b);
  }

  lemma {:induction false} StoredParts(bytes: seq<Byte>, at: nat, n: Node)
    requires Stored(bytes, at, n)
    ensures at + 8 + |n.key| + |Data(n)| <= |bytes|
    ensures bytes[at..at + 8] == Header(n)
    ensures bytes[at + 8..at + 8 + |n.key|] == n.key
    ensures bytes[at + 8 + |n.key|..at + 8 + |n.key| + |Data(n)|] == Data(n)
  {
    hide Header;
    var b := bytes[at..at + |Image(n)|];
    assert b[..8] == Header(n) && b[8..8 + |n.key|] == n.key && b[8 + |n.key|..] == Data(n);
    SubSlice(bytes, at, |Image(n)|, 0, 8);
    SubSlice(bytes, at, |Image(n)|, 8, 8 + |n.key|);
    SubSlice(bytes, at, |Image(n)|, 8 + |n.key|, |Image(n)|);
  }

  lemma {:induction false} SubSlice(s: seq<Byte>, at: nat, len: nat, a: nat, b: nat)
    requires at + len <= |s| && a <= b <= len
    ensures s[at..at + len][a..b] == s[at + a..at + b]
  {
    var x, y := s[at..at + len][a..b], s[at + a..at + b];
    assert |x| == |y| && forall k :: 0 <= k < |x| ==> x[k] == y[k];
  }

  ghost predicate Stored(bytes: seq<Byte>, at: nat, n: Node) {
    at + |Image(n)| <= |bytes| && bytes[at..at + |Image(n)|] == Image(n)
  }

  /** Reading a node back: header, key, data. */
  function NodeAt(bytes: seq<Byte>, at: nat, leaf: bool): Node
    requires at + 8 <= |bytes| && at + 8 + DataSize(bytes, at, leaf) + LeNum(bytes[at + 6..at + 8]) <= |bytes|
  {
    var ksize := LeNum(bytes[at + 6..at + 8]);
    var key := bytes[at + 8..at + 8 + ksize];
    if leaf then
      LeafNode(LeNum(bytes[at + 4..at + 6]), LeNum(bytes[at..at + 4]), key,
               bytes[at + 8 + ksize..at + 8 + ksize + DataSize(bytes, at, leaf)])
    else
      BranchNode(LeNum(bytes[at..at + 6]), key)
  }

  /** NODEDSZ, or the size of a page number for data on an overflow page. */
  function DataSize(bytes: seq<Byte>, at: nat, leaf: bool): nat
    requires at + 8 <= |bytes|
  {
    if !leaf then 0 else if LeNum(bytes[at + 4..at + 6]) % 2 == 1 then 8 else LeNum(bytes[at..at + 4])
  }

  lemma {:induction false} NodeAtIs(bytes: seq<Byte>, at: nat, n: Node, leaf: bool)
    requires Stored(bytes, at, n) && Wf(n, leaf)
    ensures at + 8 <= |bytes| && DataSize(bytes, at, leaf) == |Data(n)| && LeNum(bytes[at + 6..at + 8]) == |n.key|
    ensures at + 8 + |Data(n)| + |n.key| <= |bytes| && NodeAt(bytes, at, leaf) == n
  {
    hide Header, LeNum, Image, Stored;
    StoredParts(bytes, at, n);
    HeaderReads(n, leaf);
    SubSlice(bytes, at, 8, 6, 8);
    SubSlice(bytes, at, 8, 0, 4);
    SubSlice(bytes, at, 8, 4, 6);
    SubSlice(bytes, at, 8, 0, 6);
  }

  // ---- a page as a value -------------------------------------------------------------------

  function Extents(nodes: seq<Node>): (s: seq<nat>)
    ensures |s| == |nodes|
  {
    seq(|nodes|, i requires 0 <= i < |nodes| => Extent(nodes[i]))
  }

  ghost predicate Holds(bytes: seq<Byte>, ptrs: seq<nat>, nodes: seq<Node>) {
    |ptrs| == |nodes| && forall i :: 0 <= i < |nodes| ==> Stored(bytes, ptrs[i], nodes[i])
  }

  /** The nodes tile [upper, |bytes|) and their bytes are there. */
  ghost predicate PageIs(bytes: seq<Byte>, ptrs: seq<nat>, upper: nat, nodes: seq<Node>, leaf: bool) {
    && Tiled(ptrs, Extents(nodes), upper, |bytes|)
    && Holds(bytes, ptrs, nodes)
    && forall i :: 0 <= i < |nodes| ==> Wf(nodes[i], leaf)
  }

  lemma {:induction false} ExtentsInserted(nodes: seq<Node>, i: nat, n: Node)
    requires i <= |nodes|
    ensures Extents(Inserted(nodes, i, n)) == Inserted(Extents(nodes), i, Extent(n))
  {
    hide Extent;
  }

  lemma {:induction false} ExtentsRemoved(nodes: seq<Node>, i: nat)
    requires i < |nodes|
    ensures Extents(Removed(nodes, i)) == Removed(Extents(nodes), i)
  {
    hide Extent;
  }

  /** A node written below mp_upper, its slot opened at index i. */
  lemma {:induction false} PageAdd(before: seq<Byte>, after: seq<Byte>, ptrs: seq<nat>, upper: nat, nodes: seq<Node>,
                                   leaf: bool, i: nat, ofs: nat, n: Node)
    requires PageIs(before, ptrs, upper, nodes, leaf) && Wf(n, leaf) && i <= |nodes| && ofs + Extent(n) == upper
    requires |after| == |before| && Stored(after, ofs, n)
    requires forall x :: upper <= x < |before| ==> after[x] == before[x]
    ensures PageIs(after, Inserted(ptrs, i, ofs), ofs, Inserted(nodes, i, n), leaf)
  {
    var p, q := Inserted(ptrs, i, ofs), Inserted(nodes, i, n);
    ExtentsInserted(nodes, i, n);
    TiledAdd(ptrs, Extents(nodes), upper, |before|, i, ofs, Extent(n));
    InsertedAt(ptrs, i, ofs, 0);
    InsertedAt(nodes, i, n, 0);
    forall k | 0 <= k < |q| ensures Stored(after, p[k], q[k]) && Wf(q[k], leaf) {
      hide Image, Tiled, Inserted, Stored, Extent;
      InsertedAt(ptrs, i, ofs, k);
      InsertedAt(nodes, i, n, k);
      if k != i { KeptOnAdd(before, after, ptrs, upper, nodes, leaf, Earlier(i, k)); }
    }
    hide Tiled, Stored, Inserted;
  }

  lemma {:induction false} KeptOnAdd(before: seq<Byte>, after: seq<Byte>, ptrs: seq<nat>, upper: nat, nodes: seq<Node>,
                                     leaf: bool, e: nat)
    requires PageIs(before, ptrs, upper, nodes, leaf) && e < |nodes| && |after| == |before|
    requires forall x :: upper <= x < |before| ==> after[x] == before[x]
    ensures Stored(after, ptrs[e], nodes[e])
  {
    hide Image, Tiled, Stored, Extent;
    Within(ptrs, nodes, upper, |before|, e);
    StoredSame(before, after, ptrs[e], 0, nodes[e]);
  }

  lemma {:induction false} Within(ptrs: seq<nat>, nodes: seq<Node>, upper: nat, end: nat, k: nat)
    requires Tiled(ptrs, Extents(nodes), upper, end) && k < |nodes|
    ensures upper <= ptrs[k] && ptrs[k] + Extent(nodes[k]) <= end && 0 < |Image(nodes[k])| <= Extent(nodes[k])
  {
    assert Extents(nodes)[k] == Extent(nodes[k]);
  }

  /** The bytes of a node in another place, or in the same. */
  lemma {:induction false} StoredSame(before: seq<Byte>, after: seq<Byte>, at: nat, d: nat, n: Node)
    requires Stored(before, at, n) && at + d + |Image(n)| <= |after|
    requires forall x :: at <= x < at + |Image(n)| ==> after[x + d] == before[x]
    ensures Stored(after, at + d, n)
  {
    hide Image;
    var a, b := after[at + d..at + d + |Image(n)|], before[at..at + |Image(n)|];
    forall x | 0 <= x < |b| ensures a[x] == b[x] {
      assert before[at + x] == after[at + x + d];
    }
    assert a == b;
  }

  /** Node i removed: what lies between mp_upper and it moves up by its size. */
  ghost predicate Moved(before: seq<Byte>, after: seq<Byte>, upper: nat, ptr: nat, sz: nat) {
    && |after| == |before| && upper <= ptr && ptr + sz <= |before|
    && forall x :: upper + sz <= x < |before| ==> after[x] == if x < ptr + sz then before[x - sz] else before[x]
  }

  lemma {:induction false} PageDel(before: seq<Byte>, after: seq<Byte>, ptrs: seq<nat>, upper: nat, nodes: seq<Node>,
                                   leaf: bool, i: nat)
    requires PageIs(before, ptrs, upper, nodes, leaf) && i < |nodes|
    requires Moved(before, after, upper, ptrs[i], Extent(nodes[i]))
    ensures PageIs(after, Closed(ptrs, i, Extent(nodes[i])), upper + Extent(nodes[i]), Removed(nodes, i), leaf)
  {
    var sz := Extent(nodes[i]);
    var p, q := Closed(ptrs, i, sz), Removed(nodes, i);
    ExtentsRemoved(nodes, i);
    TiledDel(ptrs, Extents(nodes), upper, |before|, i);
    DelSize(ptrs, nodes, i, sz);
    hide Image, Tiled, Closed, Removed, Stored, Extent, Extents, Wf;
    forall k | 0 <= k < |q| ensures Stored(after, p[k], q[k]) && Wf(q[k], leaf) {
      NodeKept(before, after, ptrs, upper, nodes, leaf, i, k);
    }
  }

  lemma {:induction false} NodeKept(before: seq<Byte>, after: seq<Byte>, ptrs: seq<nat>, upper: nat, nodes: seq<Node>,
                                    leaf: bool, i: nat, k: nat)
    requires PageIs(before, ptrs, upper, nodes, leaf) && i < |nodes| && k < |nodes| - 1
    requires Moved(before, after, upper, ptrs[i], Extent(nodes[i]))
    ensures var p, q := Closed(ptrs, i, Extent(nodes[i])), Removed(nodes, i);
            k < |p| == |q| && Stored(after, p[k], q[k]) && Wf(q[k], leaf)
  {
    hide Image, Tiled, Closed, Removed, Stored, Extent, Moved, Wf;
    DelSize(ptrs, nodes, i, Extent(nodes[i]));
    ClosedAt(ptrs, i, Extent(nodes[i]), k);
    RemovedAt(nodes, i, k);
    KeptOnDel(before, after, ptrs, upper, nodes, leaf, i, Later(i, k));
  }

  lemma {:induction false} KeptOnDel(before: seq<Byte>, after: seq<Byte>, ptrs: seq<nat>, upper: nat, nodes: seq<Node>,
                                     leaf: bool, i: nat, e: nat)
    requires PageIs(before, ptrs, upper, nodes, leaf) && i < |nodes| && e < |nodes| && e != i
    requires Moved(before, after, upper, ptrs[i], Extent(nodes[i]))
    ensures Stored(after, ShiftedOne(ptrs[e], ptrs[i], Extent(nodes[i])), nodes[e])
  {
    hide Image, Tiled, Stored, Extent;
    Within(ptrs, nodes, upper, |before|, e);
    Beside(ptrs, nodes, upper, |before|, e, i);
    var d := if ptrs[e] < ptrs[i] then Extent(nodes[i]) else 0;
    forall x | ptrs[e] <= x < ptrs[e] + |Image(nodes[e])| ensures after[x + d] == before[x] {
      var y := x + d;
      assert upper + Extent(nodes[i]) <= y < |before|;
      assert after[y] == if y < ptrs[i] + Extent(nodes[i]) then before[y - Extent(nodes[i])] else before[y];
    }
    StoredSame(before, after, ptrs[e], d, nodes[e]);
  }

  lemma {:induction false} DelSize(ptrs: seq<nat>, nodes: seq<Node>, i: nat, sz: nat)
    requires i < |ptrs| == |nodes|
    ensures |Closed(ptrs, i, sz)| == |Removed(nodes, i)| == |ptrs| - 1
  {
  }

  lemma {:induction false} Beside(ptrs: seq<nat>, nodes: seq<Node>, upper: nat, end: nat, j: nat, k: nat)
    requires Tiled(ptrs, Extents(nodes), upper, end) && j < |nodes| && k < |nodes| && j != k
    ensures ptrs[j] + Extent(nodes[j]) <= ptrs[k] || ptrs[k] + Extent(nodes[k]) <= ptrs[j]
  {
    assert Disjoint(ptrs, Extents(nodes), j, k);
    assert Extents(nodes)[j] == Extent(nodes[j]) && Extents(nodes)[k] == Extent(nodes[k]);
  }

  // ---- the page in place -------------------------------------------------------------------

  /** The node as mdb_node_add stores it: data that would make the node exceed me_nodemax
      goes to the overflow page `ov`, and its number takes the data's place. */
  function AsStored(n: Node, nodeMax: nat, ov: nat): Node {
    if n.LeafNode? && !Big(n) && NODESIZE + |n.key| + n.dsize > nodeMax then
      LeafNode(n.flags + 1, n.dsize, n.key, LeBytes(ov, 8))
    else n
  }

  /** What mdb_node_read finds: the size of the data, and the data itself or the number of
      the page where it starts. */
  lemma {:induction false} StoredReads(n: Node, nodeMax: nat, ov: nat)
    requires Wf(n, true) && !Big(n) && Wf(AsStored(n, nodeMax, ov), true) && ov < Pow2(64)
    ensures var m := AsStored(n, nodeMax, ov);
            var h := Header(m);
            && m.LeafNode? && m.key == n.key && LeNum(h[6..8]) == |n.key| && LeNum(h[..4]) == |n.data|
            && if NODESIZE + |n.key| + |n.data| <= nodeMax then LeNum(h[4..6]) % 2 == 0 && Data(m) == n.data
               else LeNum(h[4..6]) % 2 == 1 && |Data(m)| == 8 && LeNum(Data(m)) == ov
  {
    hide LeNum, LeBytes, Header;
    HeaderReads(AsStored(n, nodeMax, ov), true);
    LeBytesRoundTrip(ov, 8);
  }

  class Page {
    const leaf: bool
    const bytes: array<Byte>
    const ptrs: array<nat>             // mp_ptrs
    var lower: nat
    var upper: nat
    /** What the page stands for. */
    ghost var nodes: seq<Node>

    ghost predicate Valid()
      reads this, bytes, ptrs
    {
      && bytes as object != ptrs && bytes.Length % 2 == 0
      && PAGEHDRSZ + 2 * |nodes| == lower <= upper <= bytes.Length && |nodes| <= ptrs.Length
      && bytes.Length <= PAGEHDRSZ + 2 * ptrs.Length
      && PageIs(bytes[..], ptrs[..|nodes|], upper, nodes, leaf)
    }

    /** NUMKEYS */
    function NumKeys(): nat
      reads this
      requires PAGEHDRSZ <= lower
    {
      (lower - PAGEHDRSZ) / 2
    }

    constructor (leaf: bool, psize: nat)
      requires psize % 2 == 0 && psize >= PAGEHDRSZ
      ensures Valid() && nodes == [] && this.leaf == leaf && fresh(bytes) && fresh(ptrs)
      ensures bytes.Length == psize && ptrs.Length == psize / 2
    {
      this.leaf := leaf;
      bytes := new Byte[psize];
      ptrs := new nat[psize / 2];
      lower, upper := PAGEHDRSZ, psize;
      nodes := [];
    }

    /** SIZELEFT: exactly what the nodes and their slots leave of the page. */
    method SizeLeft() returns (room: nat)
      requires Valid()
      ensures room == bytes.Length - PAGEHDRSZ - Sum(Extents(nodes)) - 2 * |nodes|
    {
      room := upper - lower;
    }

    method OpenSlot(indx: nat)
      requires indx <= |nodes| < ptrs.Length && PAGEHDRSZ + 2 * |nodes| == lower
      modifies ptrs
      ensures forall k :: 0 <= k < indx ==> ptrs[k] == old(ptrs[k])
      ensures forall k :: indx < k <= |nodes| ==> ptrs[k] == old(ptrs[k - 1])
      ensures forall k :: |nodes| < k < ptrs.Length ==> ptrs[k] == old(ptrs[k])
    {
      var i := NumKeys();
      while i > indx
        invariant indx <= i <= |nodes|
        invariant forall k :: 0 <= k <= i ==> k < |nodes| ==> ptrs[k] == old(ptrs[k])
        invariant forall k :: i < k <= |nodes| ==> ptrs[k] == old(ptrs[k - 1])
        invariant forall k :: |nodes| < k < ptrs.Length ==> ptrs[k] == old(ptrs[k])
      {
        ptrs[i] := ptrs[i - 1];
        i := i - 1;
      }
    }

    method InsertPtr(indx: nat, ofs: nat)
      requires indx <= |nodes| < ptrs.Length && PAGEHDRSZ + 2 * |nodes| == lower
      modifies ptrs
      ensures ptrs[..|nodes| + 1] == Inserted(old(ptrs[..|nodes|]), indx, ofs) && ptrs[indx] == ofs
      ensures forall k :: |nodes| < k < ptrs.Length ==> ptrs[k] == old(ptrs[k])
    {
      OpenSlot(indx);
      ptrs[indx] := ofs;
    }

    method WriteNode(at: nat, n: Node)
      requires at + |Image(n)| <= bytes.Length
      modifies bytes
      ensures Stored(bytes[..], at, n)
      ensures forall x :: 0 <= x < at || at + |Image(n)| <= x < bytes.Length ==> bytes[x] == old(bytes[x])
    {
      hide Header;
      Memory.Copy(bytes, at, Header(n));
      Memory.Copy(bytes, at + NODESIZE, n.key);
      Memory.Copy(bytes, at + NODESIZE + |n.key|, Data(n));
      assert bytes[at + NODESIZE..at + NODESIZE + |n.key|] == n.key;
      assert bytes[at..at + NODESIZE] == Header(n);
      Glued(bytes[..], at, n);
    }

    /** mdb_node_add: a sequence insert, or MDB_PAGE_FULL and nothing changes. */
    method NodeAdd(indx: nat, want: Node, nodeMax: nat, ov: nat) returns (ok: bool)
      requires Valid() && indx <= |nodes| && Wf(want, leaf) && Wf(AsStored(want, nodeMax, ov), leaf)
      modifies this, bytes, ptrs
      ensures Valid()
      ensures ok <==> Extent(AsStored(want, nodeMax, ov)) + 2 <= old(upper) - old(lower)
      ensures ok ==> nodes == Inserted(old(nodes), indx, AsStored(want, nodeMax, ov)) && ptrs[indx] == upper
      ensures forall k :: |nodes| <= k < ptrs.Length ==> ptrs[k] == old(ptrs[k])
      ensures !ok ==> nodes == old(nodes) && bytes[..] == old(bytes[..]) && upper == old(upper) && lower == old(lower)
    {
      hide Image, PageIs, Wf, AsStored, Inserted, Extent, Extents, Stored, Tiled;
      var n := AsStored(want, nodeMax, ov);
      var room: int := upper - lower - 2;
      var nodeSize := Extent(n);
      if nodeSize > room { return false; }
      ExtentCovers(n);
      var ofs: nat := upper - nodeSize;
      ghost var before, was := bytes[..], ptrs[..|nodes|];
      InsertPtr(indx, ofs);
      WriteNode(ofs, n);
      PageAdd(before, bytes[..], was, upper, nodes, leaf, indx, ofs, n);
      InsertedAt(nodes, indx, n, indx);
      ghost var now := ptrs[..|nodes| + 1];
      upper, lower := ofs, lower + 2;
      nodes := Inserted(nodes, indx, n);
      assert now == ptrs[..|nodes|];
      return true;
    }

    /** The size of a node from its header. */
    method ExtentAt(indx: nat) returns (sz: nat)
      requires Valid() && indx < |nodes|
      ensures sz == Extent(nodes[indx])
    {
      hide LeNum, DataSize, PageIs;
      var ptr := ptrs[indx];
      AtIndex(bytes[..], ptrs[..|nodes|], upper, nodes, leaf, indx);
      sz := Even(NODESIZE + LeNum(bytes[ptr + 6..ptr + 8]) + DataSize(bytes[..], ptr, leaf));
    }

    method ClosePtrs(indx: nat, sz: nat)
      requires indx < |nodes| <= ptrs.Length && PAGEHDRSZ + 2 * |nodes| == lower
      modifies ptrs
      ensures ptrs[..|nodes| - 1] == Closed(old(ptrs[..|nodes|]), indx, sz)
    {
      hide Closing, Closed;
      var ptr, i, j := ptrs[indx], 0, 0;
      var numKeys := NumKeys();
      ghost var was := ptrs[..];
      ClosingStart(was, numKeys, indx, sz);
      while i < numKeys
        invariant 0 <= j <= i <= numKeys && Closing(ptrs[..], was, numKeys, indx, sz, i, j)
      {
        ghost var s := ptrs[..];
        if i != indx {
          ClosingStep(s, was, numKeys, indx, sz, i, j);
          var p := ptrs[i];
          ptrs[j] := p;
          if p < ptr {
            ptrs[j] := ptrs[j] + sz;
          }
          assert ptrs[..] == s[j := ShiftedOne(s[i], ptr, sz)];
          j := j + 1;
        } else {
          ClosingSkip(s, was, numKeys, indx, sz, j);
        }
        i := i + 1;
      }
      ClosingEnd(ptrs[..], was, numKeys, indx, sz, j);
      assert was[..numKeys] == old(ptrs[..|nodes|]);
    }

    /** mdb_node_del: a sequence removal; the space is given back at mp_upper. */
    method NodeDel(indx: nat)
      requires Valid() && indx < |nodes|
      modifies this, bytes, ptrs
      ensures Valid() && nodes == Removed(old(nodes), indx)
    {
      hide Image, PageIs, Removed, Closed, Extent, Extents, Moved, Tiled;
      var sz := ExtentAt(indx);
      var ptr := ptrs[indx];
      PtrInside(bytes[..], ptrs[..|nodes|], upper, nodes, leaf, indx);
      ghost var before, was := bytes[..], ptrs[..|nodes|];
      ClosePtrs(indx, sz);
      Memory.Move(bytes, upper + sz, upper, ptr - upper);
      MovedUp(before, bytes[..], upper, ptr, sz);
      PageDel(before, bytes[..], was, upper, nodes, leaf, indx);
      DelSize(was, nodes, indx, sz);
      ghost var now := ptrs[..|nodes| - 1];
      upper, lower := upper + sz, lower - 2;
      nodes := Removed(nodes, indx);
      assert now == ptrs[..|nodes|];
    }
  }

  lemma {:induction false} AtIndex(bytes: seq<Byte>, ptrs: seq<nat>, upper: nat, nodes: seq<Node>, leaf: bool, i: nat)
    requires PageIs(bytes, ptrs, upper, nodes, leaf) && i < |nodes|
    ensures |ptrs| == |nodes| && ptrs[i] + 8 <= |bytes| && LeNum(bytes[ptrs[i] + 6..ptrs[i] + 8]) == |nodes[i].key|
    ensures DataSize(bytes, ptrs[i], leaf) == |Data(nodes[i])|
    ensures ptrs[i] + 8 + |Data(nodes[i])| + |nodes[i].key| <= |bytes| && NodeAt(bytes, ptrs[i], leaf) == nodes[i]
  {
    hide LeNum, Image, DataSize, NodeAt;
    assert Stored(bytes, ptrs[i], nodes[i]) && Wf(nodes[i], leaf);
    NodeAtIs(bytes, ptrs[i], nodes[i], leaf);
  }

  lemma {:induction false} MovedUp(before: seq<Byte>, after: seq<Byte>, upper: nat, ptr: nat, sz: nat)
    requires |after| == |before| && upper <= ptr && ptr + sz <= |before|
    requires after[upper + sz..ptr + sz] == before[upper..ptr]
    requires forall x :: ptr + sz <= x < |before| ==> after[x] == before[x]
    ensures Moved(before, after, upper, ptr, sz)
  {
    forall x | upper + sz <= x < ptr + sz ensures after[x] == before[x - sz] {
      assert after[x] == after[upper + sz..ptr + sz][x - (upper + sz)];
      assert before[x - sz] == before[upper..ptr][x - sz - upper];
    }
  }

  /** Slots up to i have been looked at; those kept are in the first j. */
  ghost predicate Closing(s: seq<nat>, was: seq<nat>, n: nat, indx: nat, sz: nat, i: nat, j: nat) {
    && |s| == |was| && indx < n <= |s| && i <= n && j == (if i <= indx then i else i - 1)
    && (forall k :: 0 <= k < j ==> s[k] == ShiftedOne(was[Later(indx, k)], was[indx], sz))
    && (forall k :: i <= k < n ==> s[k] == was[k])
  }

  lemma {:induction false} ClosingStart(was: seq<nat>, n: nat, indx: nat, sz: nat)
    requires indx < n <= |was|
    ensures Closing(was, was, n, indx, sz, 0, 0)
  {
  }

  lemma {:induction false} ClosingSkip(s: seq<nat>, was: seq<nat>, n: nat, indx: nat, sz: nat, j: nat)
    requires Closing(s, was, n, indx, sz, indx, j)
    ensures Closing(s, was, n, indx, sz, indx + 1, j)
  {
  }

  lemma {:induction false} ClosingStep(s: seq<nat>, was: seq<nat>, n: nat, indx: nat, sz: nat, i: nat, j: nat)
    requires Closing(s, was, n, indx, sz, i, j) && i < n && i != indx
    ensures Closing(s[j := ShiftedOne(s[i], was[indx], sz)], was, n, indx, sz, i + 1, j + 1)
  {
    assert Later(indx, j) == i;
  }

  lemma {:induction false} ClosingEnd(s: seq<nat>, was: seq<nat>, n: nat, indx: nat, sz: nat, j: nat)
    requires Closing(s, was, n, indx, sz, n, j)
    ensures 0 < n <= |s| == |was| && indx < n && s[..n - 1] == Closed(was[..n], indx, sz)
  {
    ClosedIs(was[..n], s[..n - 1], indx, sz);
  }

  lemma {:induction false} ClosedIs(was: seq<nat>, now: seq<nat>, i: nat, sz: nat)
    requires i < |was| && |now| == |was| - 1
    requires forall k :: 0 <= k < |now| ==> now[k] == ShiftedOne(was[Later(i, k)], was[i], sz)
    ensures now == Closed(was, i, sz)
  {
    var c := Closed(was, i, sz);
    assert |c| == |now|;
    forall k | 0 <= k < |now| ensures now[k] == c[k] {
      ClosedAt(was, i, sz, k);
    }
  }

  lemma {:induction false} PtrInside(bytes: seq<Byte>, ptrs: seq<nat>, upper: nat, nodes: seq<Node>, leaf: bool, i: nat)
    requires PageIs(bytes, ptrs, upper, nodes, leaf) && i < |nodes|
    ensures |ptrs| == |nodes| && upper <= ptrs[i] && ptrs[i] + Extent(nodes[i]) <= |bytes|
  {
    Within(ptrs, nodes, upper, |bytes|, i);
  }

  lemma {:induction false} ExtentCovers(n: Node)
    ensures |Image(n)| <= Extent(n)
  {
  }

  lemma {:induction false} Glued(bytes: seq<Byte>, at: nat, n: Node)
    requires at + |Image(n)| <= |bytes|
    requires bytes[at..at + 8] == Header(n)
    requires bytes[at + 8..at + 8 + |n.key|] == n.key
    requires bytes[at + 8 + |n.key|..at + 8 + |n.key| + |Data(n)|] == Data(n)
    ensures Stored(bytes, at, n)
  {
    hide Header;
    var a, b, c := bytes[at..at + 8], bytes[at + 8..at + 8 + |n.key|], bytes[at + 8 + |n.key|..at + 8 + |n.key| + |Data(n)|];
    assert bytes[at..at + |Image(n)|] == a + b + c;
  }
}
