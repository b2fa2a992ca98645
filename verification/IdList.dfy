/** ID lists (midl.c): slot 0 holds the number of ids, the ids follow in descending
    order, and the array may have room for more. */
module IdList {

  const MAX_ID: nat := 0xFFFF_FFFF_FFFF_FFFF

  /** MDB_ID is an unsigned 64-bit integer. */
  type Id = x: int | 0 <= x <= MAX_ID witness 0

  /** (MDB_ID)-1, the sentinel that mdb_midl_xmerge puts in slot 0. */
  const TOP: Id := MAX_ID

  const IDL_UM_MAX: nat := 0x1_FFFF

  predicate Valid(a: array<Id>)
    reads a
  {
    0 < a.Length && a[0] < a.Length
  }

  function Ids(a: array<Id>): (s: seq<Id>)
    requires Valid(a)
    reads a
    ensures |s| == a[0]
  {
    a[1..1 + a[0]]
  }

  function Len(a: array<Id>): nat
    requires 0 < a.Length
    reads a
  {
    a[0]
  }

  /** ids[-1]: how many ids fit. */
  function Room(a: array<Id>): nat
    requires 0 < a.Length
  {
    a.Length - 1
  }

  predicate Descending(s: seq<Id>) {
    forall i, j :: 0 <= i < j < |s| ==> s[i] >= s[j]
  }

  predicate StrictlyDescending(s: seq<Id>) {
    forall i, j :: 0 <= i < j < |s| ==> s[i] > s[j]
  }

  /** mdb_midl_search: the position of `id`, or else the first position whose id is
      smaller (one past the end when there is none). */
  method Search(ids: array<Id>, id: Id) returns (x: nat)
    requires Valid(ids) && Descending(Ids(ids))
    ensures 1 <= x <= Len(ids) + 1
    ensures x <= Len(ids) && ids[x] == id <==> id in Ids(ids)
    ensures forall k :: 1 <= k < x ==> ids[k] >= id
    ensures forall k :: x <= k <= Len(ids) ==> ids[k] <= id
    ensures id !in Ids(ids) ==> (forall k :: 1 <= k < x ==> ids[k] > id) && forall k :: x <= k <= Len(ids) ==> ids[k] < id
  {
    var base := 0;
    var cursor := 1;
    var val := 0;
    var n: int := ids[0];
    assert forall k :: 1 <= k <= ids[0] ==> ids[k] == Ids(ids)[k - 1];
    while 0 < n
      invariant 0 <= n && 0 <= base && base + n <= ids[0]
      invariant 1 <= cursor <= ids[0] + 1
      invariant forall k :: 1 <= k <= base ==> ids[k] > id
      invariant forall k :: base + n < k <= ids[0] ==> ids[k] < id
      invariant val == 0 ==> base == 0 && n == ids[0] && cursor == 1
      invariant val > 0 ==> cursor == base
      invariant val < 0 ==> cursor == base + n + 1
      decreases n
    {
      var pivot := n / 2;
      cursor := base + pivot + 1;
      val := if ids[cursor] < id then -1 else if ids[cursor] > id then 1 else 0;
      if val < 0 {
        n := pivot;
      } else if val > 0 {
        base := cursor;
        n := n - (pivot + 1);
      } else {
        return cursor;
      }
    }
    if val > 0 {
      cursor := cursor + 1;
    }
    return cursor;
  }

  method Resize(ids: array<Id>, room: nat) returns (r: array<Id>)
    requires Valid(ids) && ids[0] <= room
    ensures fresh(r) && Valid(r) && Room(r) == room && Ids(r) == Ids(ids)
  {
    r := new Id[room + 1];
    r[0] := ids[0];
    for k: int := 1 to Len(ids) + 1
      invariant r[0] == ids[0]
      invariant r[1..k] == ids[1..k]
    {
      r[k] := ids[k];
    }
  }

  /** mdb_midl_need: make room for num more ids. */
  method Need(ids: array<Id>, num: nat) returns (r: array<Id>)
    requires Valid(ids)
    ensures Valid(r) && Ids(r) == Ids(ids) && Room(r) >= Len(ids) + num
    ensures r == ids || fresh(r)
  {
    var total := num + ids[0];
    if total > Room(ids) {
      var size := total + total / 4 + (256 + 2);
      size := size - size % 256;
      r := Resize(ids, size - 2);
    } else {
      r := ids;
    }
  }

  /** mdb_midl_append */
  method Append(ids: array<Id>, id: Id) returns (r: array<Id>)
    requires Valid(ids) && ids[0] < MAX_ID
    modifies ids
    ensures Valid(r) && Ids(r) == old(Ids(ids)) + [id]
    ensures r == ids || fresh(r)
  {
    r := ids;
    if ids[0] >= Room(ids) {
      r := Resize(ids, Room(ids) + IDL_UM_MAX);
    }
    ghost var before := Ids(r);
    r[0] := r[0] + 1;
    r[r[0]] := id;
    assert Ids(r) == before + [id];
  }

  /** mdb_midl_append_list */
  method AppendList(ids: array<Id>, app: array<Id>) returns (r: array<Id>)
    requires ids != app && Valid(ids) && Valid(app) && ids[0] + app[0] <= MAX_ID
    modifies ids
    ensures Valid(r) && r != app && Ids(r) == old(Ids(ids)) + Ids(app)
    ensures r == ids || fresh(r)
  {
    r := ids;
    if ids[0] + app[0] >= Room(ids) {
      r := Resize(ids, Room(ids) + app[0]);
    }
    JoinIn(r, app);
  }

  method JoinIn(r: array<Id>, app: array<Id>)
    requires r != app && Valid(r) && Valid(app) && r[0] + app[0] < r.Length && r[0] + app[0] <= MAX_ID
    modifies r
    ensures Valid(r) && Ids(r) == old(Ids(r)) + Ids(app)
  {
    ghost var v, w := r[..], app[..];
    CopyIn(r, app);
    r[0] := r[0] + app[0];
    Joined(v, r[..], w, v[0], w[0]);
  }

  /** The ids of app behind those of r. */
  method CopyIn(r: array<Id>, app: array<Id>)
    requires r != app && Valid(r) && Valid(app) && r[0] + app[0] < r.Length
    modifies r
    ensures Valid(r) && r[0] == old(r[0]) && forall q :: 0 <= q <= r[0] ==> r[q] == old(r[q])
    ensures forall q: int :: r[0] < q <= r[0] as int + app[0] as int ==> r[q] == app[q - r[0]]
  {
    var len: int, more: int := r[0], app[0];
    for k := 0 to more
      invariant forall q :: 0 <= q <= len ==> r[q] == old(r[q])
      invariant forall q :: len < q <= len + k ==> r[q] == app[q - len]
    {
      r[len + 1 + k] := app[1 + k];
    }
  }

  lemma {:induction false} Joined(v: seq<Id>, u: seq<Id>, w: seq<Id>, len: nat, more: nat)
    requires len + more < |u| == |v| && more < |w|
    requires forall k :: 1 <= k <= len ==> u[k] == v[k]
    requires forall k :: len < k <= len + more ==> u[k] == w[k - len]
    ensures u[1..1 + len + more] == v[1..1 + len] + w[1..1 + more]
  {
    var t := u[1..1 + len + more];
    assert t[..len] == v[1..1 + len];
    assert t[len..] == w[1..1 + more];
    assert t == t[..len] + t[len..];
  }

  /** lo+n-1, ..., lo+1, lo */
  function DescRun(lo: nat, n: nat): (s: seq<Id>)
    requires lo + n <= MAX_ID + 1
    ensures |s| == n
    ensures forall k :: 0 <= k < n ==> s[k] == lo + n - 1 - k
  {
    seq(n, k requires 0 <= k < n => lo + n - 1 - k)
  }

  /** mdb_midl_append_range: the pages id .. id+n-1, highest first. */
  method AppendRange(ids: array<Id>, id: Id, n: nat) returns (r: array<Id>)
    requires Valid(ids) && id + n <= MAX_ID && ids[0] + n <= MAX_ID
    modifies ids
    ensures Valid(r) && Ids(r) == old(Ids(ids)) + DescRun(id, n)
    ensures r == ids || fresh(r)
  {
    r := ids;
    var len := ids[0];
    if len + n > Room(ids) {
      // the array grows by n | MDB_IDL_UM_MAX, which is at least n
      var num := n - n % (IDL_UM_MAX + 1) + IDL_UM_MAX;
      r := Resize(ids, Room(ids) + num);
    }
    ghost var v := r[..];
    r[0] := len + n;
    CountDown(r, len, id, n);
    Appended(v, r[..], len, id, n);
  }

  /** The run goes behind position len, lowest page last. */
  method CountDown(r: array<Id>, len: nat, id: Id, n: nat)
    requires len + n < r.Length && id + n <= MAX_ID
    modifies r
    ensures forall k :: 0 <= k <= len ==> r[k] == old(r[k])
    ensures forall k :: len < k <= len + n ==> r[k] == id + (len + n - k)
  {
    var left, next := n, id;
    while left > 0
      invariant 0 <= left <= n && next == id + (n - left)
      invariant forall k :: 0 <= k <= len ==> r[k] == old(r[k])
      invariant forall k :: len + left < k <= len + n ==> r[k] == id + (len + n - k)
    {
      r[len + left] := next;
      left, next := left - 1, next + 1;
    }
  }

  lemma {:induction false} Appended(v: seq<Id>, u: seq<Id>, len: nat, id: nat, n: nat)
    requires len + n < |u| == |v| && id + n <= MAX_ID
    requires forall k :: 1 <= k <= len ==> u[k] == v[k]
    requires forall k :: len < k <= len + n ==> u[k] == id + (len + n - k)
    ensures u[1..1 + len + n] == v[1..1 + len] + DescRun(id, n)
  {
    var t := u[1..1 + len + n];
    assert t[..len] == v[1..1 + len];
    assert t[len..] == DescRun(id, n);
    assert t == t[..len] + t[len..];
  }

  // ---- merging -------------------------------------------------------------

  /** Merging two descending lists from the small end, in front of `done`; ids of `b`
      go behind equal ids of `a`. */
  function MergedOnto(a: seq<Id>, b: seq<Id>, done: seq<Id>): (s: seq<Id>)
    ensures |s| == |a| + |b| + |done|
    decreases |a| + |b|
  {
    if b == [] then a + done
    else
      var m := b[|b| - 1];
      if a != [] && a[|a| - 1] < m then MergedOnto(a[..|a| - 1], b, [a[|a| - 1]] + done)
      else MergedOnto(a, b[..|b| - 1], [m] + done)
  }

  function Merged(a: seq<Id>, b: seq<Id>): seq<Id> {
    MergedOnto(a, b, [])
  }

  lemma {:induction false} MergedOntoMultiset(a: seq<Id>, b: seq<Id>, done: seq<Id>)
    ensures multiset(MergedOnto(a, b, done)) == multiset(a) + multiset(b) + multiset(done)
    decreases |a| + |b|
  {
    if b == [] {
    } else {
      var m, b' := b[|b| - 1], b[..|b| - 1];
      assert b == b' + [m];
      if a != [] && a[|a| - 1] < m {
        var x, a' := a[|a| - 1], a[..|a| - 1];
        assert a == a' + [x];
        assert MergedOnto(a, b, done) == MergedOnto(a', b, [x] + done);
        hide MergedOnto;
        MergedOntoMultiset(a', b, [x] + done);
      } else {
        assert MergedOnto(a, b, done) == MergedOnto(a, b', [m] + done);
        hide MergedOnto;
        MergedOntoMultiset(a, b', [m] + done);
      }
    }
  }

  lemma {:induction false} MergedOntoDescending(a: seq<Id>, b: seq<Id>, done: seq<Id>)
    requires Descending(a) && Descending(b) && Descending(done)
    requires done != [] ==> forall i :: 0 <= i < |a| ==> a[i] >= done[0]
    requires done != [] ==> forall i :: 0 <= i < |b| ==> b[i] >= done[0]
    ensures Descending(MergedOnto(a, b, done))
    decreases |a| + |b|
  {
    if b == [] {
    } else {
      var m := b[|b| - 1];
      if a != [] && a[|a| - 1] < m {
        MergedOntoDescending(a[..|a| - 1], b, [a[|a| - 1]] + done);
      } else {
        MergedOntoDescending(a, b[..|b| - 1], [m] + done);
      }
    }
  }

  lemma {:induction false} MergedMultiset(a: seq<Id>, b: seq<Id>)
    ensures multiset(Merged(a, b)) == multiset(a) + multiset(b)
  {
    MergedOntoMultiset(a, b, []);
  }

  lemma {:induction false} MergedDescending(a: seq<Id>, b: seq<Id>)
    requires Descending(a) && Descending(b)
    ensures Descending(Merged(a, b))
  {
    MergedOntoDescending(a, b, []);
  }

  /** Disjoint strictly descending lists merge into a strictly descending one. */
  lemma {:induction false} MergedStrict(a: seq<Id>, b: seq<Id>)
    requires StrictlyDescending(a) && StrictlyDescending(b)
    requires forall x :: x in a ==> x !in b
    ensures StrictlyDescending(Merged(a, b))
  {
    var s := Merged(a, b);
    MergedDescending(a, b);
    MergedMultiset(a, b);
    forall i, j | 0 <= i < j < |s|
      ensures s[i] > s[j]
    {
      if s[i] == s[j] {
        OnceInUnion(a, b, s[i]);
        TwiceIn(s, i, j);
      }
    }
  }

  lemma {:induction false} OnceIn(s: seq<Id>, x: Id)
    requires StrictlyDescending(s)
    ensures multiset(s)[x] <= 1
    decreases |s|
  {
    if s == [] {
    } else {
      OnceIn(s[1..], x);
      assert s == [s[0]] + s[1..];
      assert s[0] !in s[1..];
      assert s[0] !in multiset(s[1..]);
    }
  }

  lemma {:induction false} OnceInUnion(a: seq<Id>, b: seq<Id>, x: Id)
    requires StrictlyDescending(a) && StrictlyDescending(b)
    requires forall y :: y in a ==> y !in b
    ensures (multiset(a) + multiset(b))[x] <= 1
  {
    OnceIn(a, x);
    OnceIn(b, x);
    if x in a {
      assert x !in multiset(b);
    } else {
      assert x !in multiset(a);
    }
  }

  lemma {:induction false} TwiceIn(s: seq<Id>, i: nat, j: nat)
    requires i < j < |s| && s[i] == s[j]
    ensures multiset(s)[s[i]] >= 2
  {
    assert s == s[..j] + [s[j]] + s[j + 1..];
    assert s[i] in s[..j];
  }

  /** What one round leaves: ids below `id` moved from the end of s[..j0+1] to the end
      of s[..k0+1], with `id` in front of them. */
  ghost predicate Placed(s: seq<Id>, t: seq<Id>, id: Id, j0: nat, k0: nat, j: nat, k: nat) {
    && |t| == |s| && j <= j0 < k0 < |s| && k0 - k == j0 - j
    && (j == 0 || s[j] >= id)
    && (forall q :: j < q <= j0 ==> s[q] < id)
    && (forall q :: 0 <= q < k || k0 < q < |s| ==> t[q] == s[q])
    && t[k] == id
    && (forall q :: k < q <= k0 ==> t[q] == s[q - (k0 - j0)])
  }

  /** One round of mdb_midl_xmerge; the TOP in slot 0 stops the scan. */
  method PlaceId(idl: array<Id>, mergeId: Id, j0: nat, k0: nat) returns (j: nat, k: nat)
    requires j0 < k0 < idl.Length && idl[0] == TOP
    modifies idl
    ensures Placed(old(idl[..]), idl[..], mergeId, j0, k0, j, k)
  {
    j, k := j0, k0;
    var oldId := idl[j];
    while oldId < mergeId
      invariant 0 <= j <= j0 && k0 - k == j0 - j && oldId == idl[j]
      invariant forall q :: j < q <= j0 ==> old(idl[q]) < mergeId
      invariant forall q :: 0 <= q <= k || k0 < q < idl.Length ==> idl[q] == old(idl[q])
      invariant forall q :: k < q <= k0 ==> idl[q] == old(idl[q - (k0 - j0)])
      decreases j
    {
      idl[k] := oldId;
      k := k - 1;
      j := j - 1;
      oldId := idl[j];
    }
    idl[k] := mergeId;
  }

  /** The array between rounds: ids of `a` still to go in front, the end of the result
      m in place behind them, and nothing changed beyond it. */
  ghost predicate Merging(s: seq<Id>, first: seq<Id>, m: seq<Id>, a: seq<Id>, b: seq<Id>, i: nat, j: nat) {
    && i <= |b| && j <= |a| && |m| == |a| + |b| < |s| == |first|
    && s[0] == TOP
    && (forall q :: 1 <= q <= j ==> s[q] == a[q - 1])
    && (forall q :: i + j < q <= |m| ==> s[q] == m[q - 1])
    && (forall q :: |m| < q < |s| ==> s[q] == first[q])
    && MergedOnto(a[..j], b[..i], m[i + j..]) == m
  }

  lemma {:induction false} MergingStep(s: seq<Id>, t: seq<Id>, first: seq<Id>, m: seq<Id>, a: seq<Id>, b: seq<Id>,
                                       i: nat, j: nat, j': nat, k': nat)
    requires 0 < i && Merging(s, first, m, a, b, i, j)
    requires Placed(s, t, b[i - 1], j, i + j, j', k')
    ensures k' == i + j'
    ensures Merging(t, first, m, a, b, i - 1, j')
  {
    assert forall q :: j' <= q < j ==> s[q + 1] == a[q];
    MergeStep(m, a, b, i, j, j');
    forall q | i - 1 + j' < q <= |m|
      ensures t[q] == m[q - 1]
    {
      if k' < q <= i + j {
        assert t[q] == s[q - i] == a[q - i - 1];
      }
    }
  }

  lemma {:induction false} MergingStart(first: seq<Id>, m: seq<Id>, a: seq<Id>, b: seq<Id>)
    requires |a| + |b| < |first| && first[1..1 + |a|] == a && m == Merged(a, b)
    ensures Merging(first[0 := TOP], first, m, a, b, |b|, |a|)
  {
    assert a[..|a|] == a && b[..|b|] == b && m[|a| + |b|..] == [];
    assert forall q :: 1 <= q <= |a| ==> first[q] == a[q - 1];
  }

  lemma {:induction false} MergingEnd(s: seq<Id>, first: seq<Id>, m: seq<Id>, a: seq<Id>, b: seq<Id>, j: nat)
    requires Merging(s, first, m, a, b, 0, j)
    ensures |m| < |s| == |first| && s[1..1 + |m|] == m && |m| == |a| + |b|
    ensures forall q :: |m| < q < |s| ==> s[q] == first[q]
  {
    assert m == a[..j] + m[j..];
    forall q | 1 <= q <= |m|
      ensures s[q] == m[q - 1]
    {
    }
  }

  lemma {:induction false} MergingNow(s: seq<Id>, first: seq<Id>, m: seq<Id>, a: seq<Id>, b: seq<Id>, i: nat, j: nat)
    requires Merging(s, first, m, a, b, i, j)
    ensures i <= |b| && j <= |a| && |m| == |a| + |b| && |s| == |first|
    ensures forall q :: |m| < q < |s| ==> s[q] == first[q]
  {
  }

  method MergeRound(idl: array<Id>, mergeId: Id, i: nat, j: nat,
                    ghost first: seq<Id>, ghost m: seq<Id>, ghost a: seq<Id>, ghost b: seq<Id>)
    returns (j': nat)
    requires 0 < i && Merging(idl[..], first, m, a, b, i, j) && mergeId == b[i - 1]
    modifies idl
    ensures Merging(idl[..], first, m, a, b, i - 1, j')
  {
    ghost var s := idl[..];
    var k';
    j', k' := PlaceId(idl, mergeId, j, i + j);
    MergingStep(s, idl[..], first, m, a, b, i, j, j', k');
  }

  /** mdb_midl_xmerge: merge the list at merge[base] into idl, in place.  The list may
      lie in the unused part of idl itself, behind what the merge will fill. */
  method XMerge(idl: array<Id>, merge: array<Id>, base: nat)
    requires Valid(idl)
    requires base < merge.Length && base + merge[base] < merge.Length
    requires idl[0] + merge[base] < idl.Length && idl[0] + merge[base] <= MAX_ID
    requires idl == merge ==> idl[0] + merge[base] < base
    modifies idl
    ensures Valid(idl)
    ensures Ids(idl) == Merged(old(Ids(idl)), old(merge[base + 1..base + 1 + merge[base]]))
    ensures forall k :: old(idl[0] + merge[base]) < k < idl.Length ==> idl[k] == old(idl[k])
  {
    ghost var first := idl[..];
    ghost var a, b := Ids(idl), merge[base + 1..base + 1 + merge[base]];
    ghost var m := Merged(a, b);
    var i: int, j: int := merge[base], idl[0];
    var total := i + j;
    idl[0] := TOP;
    MergingStart(first, m, a, b);
    assert idl[..] == first[0 := TOP];
    hide Merging, Merged;
    while i > 0
      invariant 0 <= i && 0 <= j
      invariant Merging(idl[..], first, m, a, b, i, j)
      invariant idl != merge ==> merge[..] == old(merge[..])
    {
      MergingNow(idl[..], first, m, a, b, i, j);
      var mergeId := merge[base + i];
      assert mergeId == b[i - 1] by {
        if idl == merge { assert idl[..][base + i] == first[base + i]; }
        else { assert merge[..][base + i] == old(merge[..])[base + i]; }
      }
      j := MergeRound(idl, mergeId, i, j, first, m, a, b);
      i := i - 1;
    }
    MergingEnd(idl[..], first, m, a, b, j);
    ghost var last := idl[..];
    idl[0] := total;
    assert idl[..] == last[0 := total];
    assert last[0 := total][1..1 + |m|] == last[1..1 + |m|];
  }

  /** What is merged already stays at the end. */
  lemma {:induction false} OntoSuffix(a: seq<Id>, b: seq<Id>, done: seq<Id>)
    ensures MergedOnto(a, b, done)[|a| + |b|..] == done
    decreases |a| + |b|
  {
    if b == [] {
    } else {
      var m := b[|b| - 1];
      if a != [] && a[|a| - 1] < m {
        OntoSuffix(a[..|a| - 1], b, [a[|a| - 1]] + done);
      } else {
        OntoSuffix(a, b[..|b| - 1], [m] + done);
      }
    }
  }

  /** One round of the outer loop: the ids of `a` from j' on, then one id of `b`. */
  lemma {:induction false} MergeStep(m: seq<Id>, a: seq<Id>, b: seq<Id>, i: nat, j: nat, j': nat)
    requires 0 < i <= |b| && j' <= j <= |a| && i + j <= |m|
    requires MergedOnto(a[..j], b[..i], m[i + j..]) == m
    requires forall q :: j' <= q < j ==> a[q] < b[i - 1]
    requires j' == 0 || a[j' - 1] >= b[i - 1]
    ensures MergedOnto(a[..j'], b[..i - 1], m[i - 1 + j'..]) == m
    ensures m[i - 1 + j'] == b[i - 1]
    ensures forall q :: i + j' <= q < i + j ==> m[q] == a[q - i]
  {
    hide MergedOnto;
    assert |a[..j']| == j' && |b[..i]| == i && b[..i][i - 1] == b[i - 1];
    assert j' > 0 ==> a[..j'][j' - 1] == a[j' - 1];
    OntoLefts(m, a, j', j, b[..i]);
    OntoRight(m, a[..j'], b, i);
  }

  /** The smallest ids come from the first list. */
  lemma {:induction false} OntoLefts(m: seq<Id>, a: seq<Id>, j': nat, j: nat, b: seq<Id>)
    requires |m| >= j + |b| && j' <= j <= |a| && b != []
    requires forall q :: j' <= q < j ==> a[q] < b[|b| - 1]
    requires m == MergedOnto(a[..j], b, m[j + |b|..])
    ensures m == MergedOnto(a[..j'], b, m[j' + |b|..])
    ensures forall q :: j' + |b| <= q < j + |b| ==> m[q] == a[q - |b|]
    decreases j - j'
  {
    if j' < j {
      var k := j + |b|;
      assert a[..j][..j - 1] == a[..j - 1];
      OntoSuffix(a[..j - 1], b, [a[j - 1]] + m[k..]);
      assert m[k - 1..] == [a[j - 1]] + m[k..];
      OntoLefts(m, a, j', j - 1, b);
    }
  }

  /** The smallest id comes from the second list. */
  lemma {:induction false} OntoRight(m: seq<Id>, a: seq<Id>, b: seq<Id>, i: nat)
    requires 0 < i <= |b| && (a == [] || a[|a| - 1] >= b[i - 1]) && |a| + i <= |m|
    requires m == MergedOnto(a, b[..i], m[|a| + i..])
    ensures m == MergedOnto(a, b[..i - 1], m[|a| + i - 1..])
    ensures m[|a| + i - 1] == b[i - 1]
  {
    var d, b' := m[|a| + i..], b[..i - 1];
    assert m == MergedOnto(a, b', [b[i - 1]] + d) by {
      assert b[..i][..i - 1] == b';
      OneRight(a, b[..i], d);
    }
    assert m[|a| + i - 1..] == [b[i - 1]] + d by {
      OntoSuffix(a, b', [b[i - 1]] + d);
    }
  }

  lemma {:induction false} OneRight(a: seq<Id>, b: seq<Id>, done: seq<Id>)
    requires b != [] && (a == [] || a[|a| - 1] >= b[|b| - 1])
    ensures MergedOnto(a, b, done) == MergedOnto(a, b[..|b| - 1], [b[|b| - 1]] + done)
  {
  }
}
