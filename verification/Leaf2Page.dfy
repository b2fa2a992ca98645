/** P_LEAF2 pages: keys of one size, packed behind the page header in order. */
module Leaf2Page {
  import opened Words
  import opened Sequences
  import opened Tiling
  import Memory

  type Key = seq<Byte>

  ghost predicate Sized(keys: seq<Key>, ksize: nat) {
    forall i :: 0 <= i < |keys| ==> |keys[i]| == ksize
  }

  function Flat(keys: seq<Key>): seq<Byte> {
    if keys == [] then [] else keys[0] + Flat(keys[1..])
  }

  lemma {:induction false} FlatConcat(a: seq<Key>, b: seq<Key>)
    ensures Flat(a + b) == Flat(a) + Flat(b)
    decreases |a|
  {
    if a == [] {
      assert a + b == b;
    } else {
      assert (a + b)[1..] == a[1..] + b;
      FlatConcat(a[1..], b);
    }
  }

  lemma {:induction false} FlatSize(keys: seq<Key>, ksize: nat)
    requires Sized(keys, ksize)
    ensures |Flat(keys)| == |keys| * ksize
    decreases |keys|
  {
    if keys == [] {
    } else {
      FlatSize(keys[1..], ksize);
      assert |keys| * ksize == ksize + (|keys| - 1) * ksize;
    }
  }

  /** Slices of keys are slices of bytes. */
  lemma {:induction false} FlatSlice(keys: seq<Key>, ksize: nat, i: nat, j: nat)
    requires Sized(keys, ksize) && i <= j <= |keys|
    ensures i * ksize <= j * ksize <= |Flat(keys)| == |keys| * ksize
    ensures Flat(keys)[i * ksize..j * ksize] == Flat(keys[i..j])
  {
    var a, b, c := keys[..i], keys[i..j], keys[j..];
    assert keys == a + b + c;
    FlatConcat(a, b);
    FlatConcat(a + b, c);
    FlatSize(a, ksize);
    FlatSize(a + b, ksize);
    FlatSize(keys, ksize);
    assert |a + b| == j;
    Sliced(Flat(a), Flat(b), Flat(c));
  }

  lemma {:induction false} Sliced(a: seq<Byte>, b: seq<Byte>, c: seq<Byte>)
    ensures (a + b + c)[|a|..|a + b|] == b
  {
  }

  lemma {:induction false} FlatInserted(keys: seq<Key>, ksize: nat, i: nat, at: nat, key: Key)
    requires Sized(keys, ksize) && |key| == ksize && i <= |keys| && at == i * ksize
    ensures at <= |Flat(keys)| == |keys| * ksize
    ensures Flat(Inserted(keys, i, key)) == Flat(keys)[..at] + key + Flat(keys)[at..]
    ensures Sized(Inserted(keys, i, key), ksize) && |Inserted(keys, i, key)| == |keys| + 1
  {
    FlatSlice(keys, ksize, 0, i);
    FlatSlice(keys, ksize, i, |keys|);
    FlatConcat(keys[..i], [key]);
    FlatConcat(keys[..i] + [key], keys[i..]);
    assert Flat([key]) == key by { assert [key][1..] == []; }
    assert keys[0..i] == keys[..i] && keys[i..|keys|] == keys[i..];
    assert 0 * ksize == 0;
  }

  lemma {:induction false} FlatRemoved(keys: seq<Key>, ksize: nat, i: nat, at: nat)
    requires Sized(keys, ksize) && i < |keys| && at == i * ksize
    ensures at + ksize <= |Flat(keys)| == |keys| * ksize
    ensures Flat(Removed(keys, i)) == Flat(keys)[..at] + Flat(keys)[at + ksize..]
    ensures Sized(Removed(keys, i), ksize) && |Removed(keys, i)| == |keys| - 1
  {
    assert at + ksize == (i + 1) * ksize;
    FlatSlice(keys, ksize, 0, i);
    FlatSlice(keys, ksize, i + 1, |keys|);
    FlatConcat(keys[..i], keys[i + 1..]);
    assert keys[0..i] == keys[..i] && keys[i + 1..|keys|] == keys[i + 1..];
    assert 0 * ksize == 0;
  }

  class Leaf2 {
    const ksize: nat
    const bytes: array<Byte>
    var lower: int
    var upper: int
    /** What the page stands for. */
    ghost var keys: seq<Key>

    /** The keys lie behind the header; mp_lower and mp_upper only count. */
    ghost predicate Valid()
      reads this, bytes
    {
      && ksize > 0 && Sized(keys, ksize)
      && PAGEHDRSZ + |Flat(keys)| <= bytes.Length
      && bytes[PAGEHDRSZ..PAGEHDRSZ + |Flat(keys)|] == Flat(keys)
      && lower == PAGEHDRSZ + 2 * |keys|
      && upper - lower == bytes.Length - PAGEHDRSZ - |Flat(keys)|
    }

    function NumKeys(): int
      reads this
    {
      (lower - PAGEHDRSZ) / 2
    }

    constructor (ksize: nat, psize: nat)
      requires ksize > 0 && psize >= PAGEHDRSZ
      ensures Valid() && keys == [] && this.ksize == ksize && fresh(bytes) && bytes.Length == psize
    {
      this.ksize := ksize;
      bytes := new Byte[psize];
      lower, upper := PAGEHDRSZ, psize;
      keys := [];
    }

    /** SIZELEFT is exact. */
    method SizeLeft() returns (room: int)
      requires Valid()
      ensures room == bytes.Length - PAGEHDRSZ - |keys| * ksize
    {
      FlatSize(keys, ksize);
      room := upper - lower;
    }

    method OpenGap(at: nat, total: nat, len: nat)
      requires at <= total && PAGEHDRSZ + total + len <= bytes.Length
      modifies bytes
      ensures bytes[PAGEHDRSZ + at + len..PAGEHDRSZ + total + len] == old(bytes[PAGEHDRSZ + at..PAGEHDRSZ + total])
      ensures forall x :: 0 <= x < PAGEHDRSZ + at ==> bytes[x] == old(bytes[x])
    {
      if total > at {
        Memory.Move(bytes, PAGEHDRSZ + at + len, PAGEHDRSZ + at, total - at);
      }
    }

    /** Open a gap in the `total` bytes behind the header and fill it. */
    method InsertBytes(at: nat, total: nat, s: seq<Byte>)
      requires at <= total && PAGEHDRSZ + total + |s| <= bytes.Length
      modifies bytes
      ensures bytes[PAGEHDRSZ..PAGEHDRSZ + total + |s|]
           == old(bytes[PAGEHDRSZ..PAGEHDRSZ + at]) + s + old(bytes[PAGEHDRSZ + at..PAGEHDRSZ + total])
    {
      ghost var before := bytes[..];
      OpenGap(at, total, |s|);
      ghost var mid := bytes[..];
      Memory.Copy(bytes, PAGEHDRSZ + at, s);
      GapFilled(before, mid, bytes[..], PAGEHDRSZ + at, PAGEHDRSZ + total, s);
    }

    /** Close the gap that removing `len` bytes leaves. */
    method RemoveBytes(at: nat, total: nat, len: nat)
      requires at + len <= total && PAGEHDRSZ + total <= bytes.Length
      modifies bytes
      ensures bytes[PAGEHDRSZ..PAGEHDRSZ + total - len]
           == old(bytes[PAGEHDRSZ..PAGEHDRSZ + at]) + old(bytes[PAGEHDRSZ + at + len..PAGEHDRSZ + total])
    {
      if total > at + len {
        Memory.Move(bytes, PAGEHDRSZ + at, PAGEHDRSZ + at + len, total - at - len);
      }
      ThreeParts(bytes[..], PAGEHDRSZ, PAGEHDRSZ + at, PAGEHDRSZ + at, PAGEHDRSZ + total - len);
      assert bytes[PAGEHDRSZ..PAGEHDRSZ + at] == old(bytes[PAGEHDRSZ..PAGEHDRSZ + at]);
    }

    method Grow(at: nat, total: nat, key: Key, ghost after: seq<Key>)
      requires Valid() && |key| == ksize && PAGEHDRSZ + total + ksize <= bytes.Length
      requires at <= total == |Flat(keys)| && |after| == |keys| + 1 && Sized(after, ksize)
      requires Flat(after) == Flat(keys)[..at] + key + Flat(keys)[at..]
      modifies this, bytes
      ensures Valid() && keys == after
    {
      hide Flat, Sized;
      Cut(bytes[..], Flat(keys), at);
      InsertBytes(at, total, key);
      keys := after;
      lower, upper := lower + 2, upper - (ksize - 2);
    }

    /** mdb_node_add; the callers have checked that there is room. */
    method NodeAdd(indx: nat, key: Key)
      requires Valid() && indx <= |keys| && |key| == ksize && PAGEHDRSZ + |keys| * ksize + ksize <= bytes.Length
      modifies this, bytes
      ensures Valid() && keys == Inserted(old(keys), indx, key)
    {
      hide Flat, Inserted, Sized;
      FlatInserted(keys, ksize, indx, indx * ksize, key);
      Grow(indx * ksize, NumKeys() * ksize, key, Inserted(keys, indx, key));
    }

    method Shrink(at: nat, total: nat, ghost after: seq<Key>)
      requires Valid() && at + ksize <= total == |Flat(keys)| && |after| == |keys| - 1 && Sized(after, ksize)
      requires Flat(after) == Flat(keys)[..at] + Flat(keys)[at + ksize..]
      modifies this, bytes
      ensures Valid() && keys == after
    {
      hide Flat, Sized;
      Cut(bytes[..], Flat(keys), at);
      Cut(bytes[..], Flat(keys), at + ksize);
      RemoveBytes(at, total, ksize);
      keys := after;
      lower, upper := lower - 2, upper + (ksize - 2);
    }

    /** mdb_node_del */
    method NodeDel(indx: nat)
      requires Valid() && indx < |keys|
      modifies this, bytes
      ensures Valid() && keys == Removed(old(keys), indx)
    {
      hide Flat, Removed, Sized;
      FlatRemoved(keys, ksize, indx, indx * ksize);
      Shrink(indx * ksize, NumKeys() * ksize, Removed(keys, indx));
    }
  }

  lemma {:induction false} GapFilled(before: seq<Byte>, mid: seq<Byte>, after: seq<Byte>, at: nat, end: nat, s: seq<Byte>)
    requires |before| == |mid| == |after| && PAGEHDRSZ <= at <= end && end + |s| <= |after|
    requires mid[at + |s|..end + |s|] == before[at..end]
    requires forall x :: PAGEHDRSZ <= x < at ==> mid[x] == before[x]
    requires after[at..at + |s|] == s
    requires forall x :: 0 <= x < at || at + |s| <= x < |after| ==> after[x] == mid[x]
    ensures after[PAGEHDRSZ..end + |s|] == before[PAGEHDRSZ..at] + s + before[at..end]
  {
    ThreeParts(after, PAGEHDRSZ, at, at + |s|, end + |s|);
    assert after[PAGEHDRSZ..at] == before[PAGEHDRSZ..at];
    assert after[at + |s|..end + |s|] == mid[at + |s|..end + |s|];
  }

  lemma {:induction false} ThreeParts(s: seq<Byte>, a: nat, b: nat, c: nat, d: nat)
    requires a <= b <= c <= d <= |s|
    ensures s[a..d] == s[a..b] + s[b..c] + s[c..d]
  {
  }

  lemma {:induction false} Cut(bytes: seq<Byte>, f: seq<Byte>, at: nat)
    requires at <= |f| && PAGEHDRSZ + |f| <= |bytes| && bytes[PAGEHDRSZ..PAGEHDRSZ + |f|] == f
    ensures bytes[PAGEHDRSZ + at..PAGEHDRSZ + |f|] == f[at..]
    ensures bytes[PAGEHDRSZ..PAGEHDRSZ + at] == f[..at]
  {
  }

  // ---- the LEAF2 branch of mdb_page_split ----------------------------------------------------------

  /** Left keys, then right keys, are the old ones with the new one at newindx; the
      separator is the first right key; (onRight, ki) is the new key. */
  ghost predicate IsSplit(all: seq<Key>, newindx: nat, left: seq<Key>, right: seq<Key>, sep: Key, onRight: bool, ki: nat) {
    && all == left + right && right != [] && left != []
    && sep == right[0]
    && onRight == (newindx >= |left|) && ki == if onRight then newindx - |left| else newindx
  }

  /** The keys from the split point on leave mp. */
  method Keep(mp: Leaf2, moved: nat, rsize: nat, ghost left: seq<Key>)
    requires mp.Valid() && Sized(left, mp.ksize) && |left| + moved == |mp.keys|
    requires rsize <= |Flat(mp.keys)| && Flat(left) == Flat(mp.keys)[..|Flat(mp.keys)| - rsize]
    modifies mp
    ensures mp.Valid() && mp.keys == left
  {
    hide Flat, Sized;
    Cut(mp.bytes[..], Flat(mp.keys), |Flat(mp.keys)| - rsize);
    var lsize := moved * 2;
    mp.lower, mp.upper := mp.lower - lsize, mp.upper + (rsize - lsize);
    mp.keys := left;
  }

  method Put(bytes: array<Byte>, a: seq<Byte>, b: seq<Byte>, c: seq<Byte>)
    requires PAGEHDRSZ + |a + b + c| <= bytes.Length
    modifies bytes
    ensures bytes[PAGEHDRSZ..PAGEHDRSZ + |a + b + c|] == a + b + c
  {
    Memory.Copy(bytes, PAGEHDRSZ, a);
    ghost var x := bytes[..];
    Memory.Copy(bytes, PAGEHDRSZ + |a|, b);
    ghost var y := bytes[..];
    Memory.Copy(bytes, PAGEHDRSZ + |a| + |b|, c);
    ThreePut(x, y, bytes[..], a, b, c);
  }

  lemma {:induction false} ThreePut(x: seq<Byte>, y: seq<Byte>, z: seq<Byte>, a: seq<Byte>, b: seq<Byte>, c: seq<Byte>)
    requires PAGEHDRSZ + |a + b + c| <= |x| == |y| == |z|
    requires x[PAGEHDRSZ..PAGEHDRSZ + |a|] == a
    requires y == x[..PAGEHDRSZ + |a|] + b + x[PAGEHDRSZ + |a| + |b|..]
    requires z == y[..PAGEHDRSZ + |a| + |b|] + c + y[PAGEHDRSZ + |a| + |b| + |c|..]
    ensures z[PAGEHDRSZ..PAGEHDRSZ + |a + b + c|] == a + b + c
  {
    var m, n := PAGEHDRSZ + |a|, PAGEHDRSZ + |a| + |b|;
    assert y[..n] == x[..m] + b;
    assert z[..n + |c|] == x[..m] + b + c;
    assert z[PAGEHDRSZ..n + |c|] == z[..n + |c|][PAGEHDRSZ..];
    assert (x[..m] + b + c)[PAGEHDRSZ..] == x[..m][PAGEHDRSZ..] + b + c;
    assert x[..m][PAGEHDRSZ..] == a;
  }

  /** Bytes put behind the header of an empty page, in three pieces, are its keys. */
  method Receive(rp: Leaf2, count: nat, a: seq<Byte>, b: seq<Byte>, c: seq<Byte>, ghost right: seq<Key>)
    requires rp.Valid() && rp.keys == [] && Sized(right, rp.ksize) && |right| == count
    requires Flat(right) == a + b + c && PAGEHDRSZ + |a + b + c| <= rp.bytes.Length
    modifies rp, rp.bytes
    ensures rp.Valid() && rp.keys == right
  {
    assert Flat([]) == [];
    hide Flat, Sized;
    Put(rp.bytes, a, b, c);
    rp.lower, rp.upper := rp.lower + 2 * count, rp.upper - (|a + b + c| - 2 * count);
    rp.keys := right;
  }

  lemma {:induction false} HalveFlat(keys: seq<Key>, ksize: nat, split: nat, from: nat, rsize: nat)
    requires Sized(keys, ksize) && split <= |keys| && from == split * ksize && rsize == (|keys| - split) * ksize
    ensures |Flat(keys)| == from + rsize
    ensures Sized(keys[..split], ksize) && Sized(keys[split..], ksize)
    ensures Flat(keys[..split]) == Flat(keys)[..from] && Flat(keys[split..]) == Flat(keys)[from..]
  {
    FlatSlice(keys, ksize, 0, split);
    FlatSlice(keys, ksize, split, |keys|);
    FlatSize(keys[split..], ksize);
    assert keys[0..split] == keys[..split] && keys[split..|keys|] == keys[split..];
    assert 0 * ksize == 0;
  }

  /** The first key is the first ksize bytes. */
  lemma {:induction false} FirstKey(keys: seq<Key>, ksize: nat)
    requires Sized(keys, ksize) && keys != []
    ensures ksize <= |Flat(keys)| && Flat(keys)[..ksize] == keys[0]
  {
  }

  /** The new key goes to the left page. */
  method SplitLeft(mp: Leaf2, rp: Leaf2, split: nat, from: nat, rsize: nat, newindx: nat, key: Key) returns (sep: Key)
    requires mp.Valid() && rp.Valid() && rp.keys == [] && mp.ksize == rp.ksize && mp.bytes.Length == rp.bytes.Length
    requires mp != rp && mp.bytes != rp.bytes && newindx < split < |mp.keys| && |key| == mp.ksize
    requires from == split * mp.ksize && rsize == (|mp.keys| - split) * mp.ksize
    modifies mp, mp.bytes, rp, rp.bytes
    ensures mp.Valid() && rp.Valid()
    ensures IsSplit(Inserted(old(mp.keys), newindx, key), newindx, mp.keys, rp.keys, sep, false, newindx)
  {
    hide Flat, Sized, Inserted;
    ghost var keys := mp.keys;
    RoomLeft(keys, mp.ksize, split);
    SplitOff(mp, rp, split, from, rsize);
    sep := First(rp);
    mp.NodeAdd(newindx, key);
    InsertedFront(keys, split, newindx, key);
  }

  lemma {:induction false} InsertedFront(keys: seq<Key>, split: nat, i: nat, key: Key)
    requires i < split < |keys|
    ensures Inserted(keys, i, key) == Inserted(keys[..split], i, key) + keys[split..]
    ensures |Inserted(keys[..split], i, key)| == split + 1
  {
  }

  method First(page: Leaf2) returns (key: Key)
    requires page.Valid() && page.keys != []
    ensures key == page.keys[0]
  {
    hide Flat, Sized;
    FirstKey(page.keys, page.ksize);
    Cut(page.bytes[..], Flat(page.keys), page.ksize);
    key := page.bytes[PAGEHDRSZ..PAGEHDRSZ + page.ksize];
  }

  /** The keys from the split point on move to an empty page. */
  method SplitOff(mp: Leaf2, rp: Leaf2, split: nat, from: nat, rsize: nat)
    requires mp.Valid() && rp.Valid() && rp.keys == [] && mp.ksize == rp.ksize && mp.bytes.Length == rp.bytes.Length
    requires mp != rp && mp.bytes != rp.bytes && split < |mp.keys|
    requires from == split * mp.ksize && rsize == (|mp.keys| - split) * mp.ksize
    modifies mp, rp, rp.bytes
    ensures mp.Valid() && rp.Valid() && mp.keys == old(mp.keys)[..split] && rp.keys == old(mp.keys)[split..]
  {
    HalveFlat(mp.keys, mp.ksize, split, from, rsize);
    hide Flat, Sized;
    ghost var keys := mp.keys;
    Cut(mp.bytes[..], Flat(keys), from);
    var moved := mp.NumKeys() - split;
    var s := mp.bytes[PAGEHDRSZ + from..PAGEHDRSZ + from + rsize];
    assert s + [] + [] == s;
    Receive(rp, moved, s, [], [], keys[split..]);
    Keep(mp, moved, rsize, keys[..split]);
  }

  lemma {:induction false} RoomLeft(keys: seq<Key>, ksize: nat, split: nat)
    requires Sized(keys, ksize) && split < |keys|
    ensures split * ksize + ksize <= |Flat(keys)|
  {
    FlatSize(keys, ksize);
    FlatSlice(keys, ksize, split + 1, |keys|);
    assert (split + 1) * ksize == split * ksize + ksize;
  }

  /** The new key goes to the right page, x keys into it. */
  method SplitRight(mp: Leaf2, rp: Leaf2, split: nat, from: nat, rsize: nat, x: nat, key: Key) returns (sep: Key)
    requires mp.Valid() && rp.Valid() && rp.keys == [] && mp.ksize == rp.ksize && mp.bytes.Length == rp.bytes.Length
    requires mp != rp && mp.bytes != rp.bytes && 0 < split && split + x <= |mp.keys| && |key| == mp.ksize
    requires from == split * mp.ksize && rsize == (|mp.keys| - split) * mp.ksize && mp.ksize <= from
    modifies mp, rp, rp.bytes
    ensures mp.Valid() && rp.Valid()
    ensures IsSplit(Inserted(old(mp.keys), split + x, key), split + x, mp.keys, rp.keys, sep, true, x)
  {
    hide Flat, Sized, Inserted;
    ghost var keys := mp.keys;
    HalveFlat(keys, mp.ksize, split, from, rsize);
    Cut(mp.bytes[..], Flat(keys), from);
    var moved := mp.NumKeys() - split;
    var s := mp.bytes[PAGEHDRSZ + from..PAGEHDRSZ + from + rsize];
    InsertedTail(keys, split, x, key);
    sep := ReceiveWith(rp, moved, s, x, key, keys[split..]);
    Keep(mp, moved, rsize, keys[..split]);
  }

  /** The moved keys go to the right page with the new one among them. */
  method ReceiveWith(rp: Leaf2, moved: nat, s: seq<Byte>, x: nat, key: Key, ghost tail: seq<Key>) returns (sep: Key)
    requires rp.Valid() && rp.keys == [] && Sized(tail, rp.ksize) && |tail| == moved && x <= moved && |key| == rp.ksize
    requires s == Flat(tail) && PAGEHDRSZ + |s| + |key| <= rp.bytes.Length
    modifies rp, rp.bytes
    ensures rp.Valid() && rp.keys == Inserted(tail, x, key)
    ensures sep == if x == 0 then key else tail[0]
  {
    hide Flat, Sized, Inserted;
    var at := x * rp.ksize;
    FlatInserted(tail, rp.ksize, x, at, key);
    if x == 0 {
      sep := key;
    } else {
      FirstKey(tail, rp.ksize);
      sep := s[..rp.ksize];
    }
    Receive(rp, moved + 1, s[..at], key, s[at..], Inserted(tail, x, key));
  }

  lemma {:induction false} InsertedTail(keys: seq<Key>, split: nat, x: nat, key: Key)
    requires split + x <= |keys|
    ensures Inserted(keys, split + x, key) == keys[..split] + Inserted(keys[split..], x, key)
    ensures |Inserted(keys[split..], x, key)| == |keys| - split + 1
    ensures Inserted(keys[split..], x, key)[0] == if x == 0 then key else keys[split]
  {
  }

  method Split(mp: Leaf2, newindx: nat, key: Key) returns (rp: Leaf2, sep: Key, onRight: bool, ki: nat)
    requires mp.Valid() && |mp.keys| >= 2 && newindx <= |mp.keys| && |key| == mp.ksize
    modifies mp, mp.bytes
    ensures mp.Valid() && rp.Valid() && fresh(rp) && fresh(rp.bytes)
    ensures IsSplit(Inserted(old(mp.keys), newindx, key), newindx, mp.keys, rp.keys, sep, onRight, ki)
  {
    hide Flat, Sized, IsSplit;
    var nkeys := mp.NumKeys();
    var split := (nkeys + 1) / 2;
    rp := new Leaf2(mp.ksize, mp.bytes.Length);
    var from, rsize := split * mp.ksize, (nkeys - split) * mp.ksize;
    assert mp.ksize <= from && rsize >= 0 by { MulUp(split, mp.ksize); MulUp(nkeys - split, mp.ksize); }
    if newindx < split {
      sep := SplitLeft(mp, rp, split, from, rsize, newindx, key);
      onRight, ki := false, newindx;
    } else {
      sep := SplitRight(mp, rp, split, from, rsize, newindx - split, key);
      onRight, ki := true, newindx - split;
    }
  }

  lemma MulUp(n: nat, k: nat)
    ensures n * k >= 0 && (n >= 1 ==> n * k >= k)
  {
  }
}
