/** Dirty lists (MDB_ID2L): slot 0 holds the number of entries in its mid, then page
    number and page pointer, ascending by page number. */
module DirtyList {
  import opened IdList
  import opened Sequences

  /** ptr stands for the address of the page in memory. */
  datatype Entry = Entry(mid: Id, ptr: int)

  predicate Valid2(a: array<Entry>)
    reads a
  {
    0 < a.Length && a[0].mid < a.Length
  }

  function Count(a: array<Entry>): nat
    requires 0 < a.Length
    reads a
  {
    a[0].mid
  }

  function Entries(a: array<Entry>): (s: seq<Entry>)
    requires Valid2(a)
    reads a
    ensures |s| == Count(a)
  {
    a[1..1 + Count(a)]
  }

  predicate Ascending(s: seq<Entry>) {
    forall i, j :: 0 <= i < j < |s| ==> s[i].mid < s[j].mid
  }

  function Mids(s: seq<Entry>): set<Id> {
    set e | e in s :: e.mid
  }

  lemma {:induction false} MidsAt(s: seq<Entry>, id: int)
    ensures id in Mids(s) <==> exists k :: 0 <= k < |s| && s[k].mid == id
  {
    if id in Mids(s) {
      var e :| e in s && e.mid == id;
    }
    if k :| 0 <= k < |s| && s[k].mid == id {
      assert s[k] in s;
    }
  }

  /** mdb_mid2l_search: the first position whose page number is at least id. */
  method Search2(ids: array<Entry>, id: int) returns (x: nat)
    requires Valid2(ids) && Ascending(Entries(ids))
    ensures 1 <= x <= Count(ids) + 1
    ensures forall k :: 1 <= k < x ==> ids[k].mid < id
    ensures forall k :: x <= k <= Count(ids) ==> id <= ids[k].mid
    ensures x <= Count(ids) && ids[x].mid == id <==> id in Mids(Entries(ids))
  {
    x := Seek(ids, id);
    SoughtMids(Entries(ids), id, x - 1);
  }

  lemma {:induction false} SoughtMids(s: seq<Entry>, id: int, x: nat)
    requires Ascending(s) && x <= |s|
    requires forall k :: 0 <= k < x ==> s[k].mid < id
    requires forall k :: x <= k < |s| ==> id <= s[k].mid
    ensures x < |s| && s[x].mid == id <==> id in Mids(s)
  {
    MidsAt(s, id);
    if k :| 0 <= k < |s| && s[k].mid == id {
      assert s[x].mid <= s[k].mid;
    }
  }

  method Seek(ids: array<Entry>, id: int) returns (x: nat)
    requires Valid2(ids) && Ascending(Entries(ids))
    ensures 1 <= x <= Count(ids) + 1
    ensures forall k :: 1 <= k < x ==> ids[k].mid < id
    ensures forall k :: x <= k <= Count(ids) ==> id <= ids[k].mid
  {
    var base := 0;
    var cursor := 1;
    var val := 0;
    var n: int := ids[0].mid;
    ghost var s := Entries(ids);
    assert forall k :: 1 <= k <= Count(ids) ==> ids[k] == s[k - 1];
    while 0 < n
      invariant 0 <= n && 0 <= base && base + n <= Count(ids)
      invariant 1 <= cursor <= Count(ids) + 1
      invariant forall k :: 1 <= k <= base ==> ids[k].mid < id
      invariant forall k :: base + n < k <= Count(ids) ==> id < ids[k].mid
      invariant val == 0 ==> base == 0 && n == Count(ids) && cursor == 1
      invariant val > 0 ==> cursor == base
      invariant val < 0 ==> cursor == base + n + 1
      decreases n
    {
      var pivot := n / 2;
      cursor := base + pivot + 1;
      val := if id < ids[cursor].mid then -1 else if id > ids[cursor].mid then 1 else 0;
      if val < 0 {
        n := pivot;
      } else if val > 0 {
        base := cursor;
        n := n - (pivot + 1);
      } else {
        assert s[cursor - 1].mid == id;
        return cursor;
      }
    }
    if val > 0 {
      cursor := cursor + 1;
    }
    return cursor;
  }

  /** mdb_mid2l_insert: 0, or -1 for a page already listed, or -2 for a full list. */
  method Insert2(ids: array<Entry>, id: Entry) returns (rc: int)
    requires Valid2(ids) && Ascending(Entries(ids)) && ids.Length == IDL_UM_MAX + 1
    modifies ids
    ensures Valid2(ids) && Ascending(Entries(ids))
    ensures rc == -1 <==> id.mid in Mids(old(Entries(ids)))
    ensures rc == -2 <==> id.mid !in Mids(old(Entries(ids))) && old(Count(ids)) == IDL_UM_MAX
    ensures rc == 0 || rc == -1 || rc == -2
    ensures rc != 0 ==> ids[..] == old(ids[..])
    ensures rc == 0 ==> exists x :: 0 <= x <= old(Count(ids)) && Entries(ids) == Inserted(old(Entries(ids)), x, id)
  {
    ghost var was := Entries(ids);
    var x := Search2(ids, id.mid);
    hide Mids, Ascending, Inserted;
    if x <= ids[0].mid && ids[x].mid == id.mid {
      return -1;
    }
    if ids[0].mid >= IDL_UM_MAX {
      return -2;
    }
    assert forall k :: 0 <= k < |was| ==> was[k] == ids[k + 1];
    InsertedAscending(was, x - 1, id);
    ShiftIn(ids, x, id);
    assert Entries(ids) == Inserted(was, x - 1, id);
    return 0;
  }

  /** Move the entries from x on up by one and store id at x. */
  method ShiftIn(ids: array<Entry>, x: nat, id: Entry)
    requires Valid2(ids) && 1 <= x <= Count(ids) + 1 < ids.Length <= IDL_UM_MAX + 1
    modifies ids
    ensures Valid2(ids) && Entries(ids) == Inserted(old(Entries(ids)), x - 1, id)
  {
    ghost var v := ids[..];
    var n: int := ids[0].mid;
    ids[0] := ids[0].(mid := n + 1);
    ShiftUp(ids, x, n);
    ids[x] := id;
    Shifted(v, ids[..], n, x, id);
  }

  method ShiftUp(ids: array<Entry>, x: nat, n: nat)
    requires 1 <= x <= n + 1 < ids.Length
    modifies ids
    ensures forall k :: 0 <= k < x ==> ids[k] == old(ids[k])
    ensures forall k :: x < k <= n + 1 ==> ids[k] == old(ids[k - 1])
  {
    var i := n + 1;
    while i > x
      invariant x <= i <= n + 1
      invariant forall k :: 0 <= k < i ==> ids[k] == old(ids[k])
      invariant forall k :: i < k <= n + 1 ==> ids[k] == old(ids[k - 1])
    {
      ids[i] := ids[i - 1];
      i := i - 1;
    }
  }

  lemma {:induction false} Shifted(v: seq<Entry>, u: seq<Entry>, n: nat, x: nat, id: Entry)
    requires 1 <= x <= n + 1 < |u| == |v| && u[x] == id
    requires forall k :: 1 <= k < x ==> u[k] == v[k]
    requires forall k :: x < k <= n + 1 ==> u[k] == v[k - 1]
    ensures u[1..n + 2] == Inserted(v[1..n + 1], x - 1, id)
  {
    var s, t := v[1..n + 1], u[1..n + 2];
    var r := Inserted(s, x - 1, id);
    forall k | 0 <= k < |t| ensures t[k] == r[k] {
      assert t[k] == u[k + 1];
      if k < x - 1 {
        assert r[k] == s[k] == v[k + 1];
      } else if k >= x {
        assert r[k] == s[k - 1] == v[k];
      }
    }
  }

  lemma {:induction false} InsertedAscending(s: seq<Entry>, x: nat, e: Entry)
    requires Ascending(s) && x <= |s|
    requires forall k :: 0 <= k < x ==> s[k].mid < e.mid
    requires forall k :: x <= k < |s| ==> e.mid < s[k].mid
    ensures Ascending(Inserted(s, x, e))
  {
  }
}
