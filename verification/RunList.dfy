/** Runs of consecutive pages in me_pghead: finding and taking one (mdb_page_alloc) and
    giving one back (mdb_ovpage_free). */
module RunList {
  import opened IdList

  /** All of p, p+1, ..., p+n-1 are free. */
  ghost predicate HasRun(s: seq<Id>, p: int, n: nat) {
    forall k :: p <= k < p + n ==> At(s, k)
  }

  ghost predicate At(s: seq<Id>, x: int) {
    exists i :: 0 <= i < |s| && s[i] == x
  }

  /** In a strictly descending list, ids differ by at least their distance. */
  lemma {:induction false} Gap(s: seq<Id>, i: nat, j: nat)
    requires StrictlyDescending(s) && i <= j < |s|
    ensures s[i] - s[j] >= j - i
    decreases j - i
  {
    if i < j {
      Gap(s, i + 1, j);
    }
  }

  lemma {:induction false} Ordered(s: seq<Id>, c: nat, d: nat)
    requires StrictlyDescending(s) && c < |s| && d < |s|
    ensures if c <= d then s[c] - s[d] >= d - c else s[c] < s[d]
  {
    if c <= d { Gap(s, c, d); }
  }

  /** The single end-point test: the ids between are consecutive as well. */
  lemma {:induction false} EndPoints(s: seq<Id>, e: nat, n: nat)
    requires StrictlyDescending(s) && 0 < n <= e + 1 <= |s|
    requires s[e + 1 - n] == s[e] + (n - 1)
    ensures s[e] + n <= MAX_ID + 1
    ensures s[e + 1 - n..e + 1] == DescRun(s[e], n)
  {
    var r := s[e + 1 - n..e + 1];
    forall k | 0 <= k < n ensures r[k] == s[e] + n - 1 - k {
      Gap(s, e + 1 - n, e + 1 - n + k);
      Gap(s, e + 1 - n + k, e);
    }
    assert r == DescRun(s[e], n);
  }

  /** Conversely a run that is free passes the test where its lowest page is. */
  lemma {:induction false} RunIndex(s: seq<Id>, p: int, n: nat, e: nat, k: nat)
    requires StrictlyDescending(s) && HasRun(s, p, n) && e < |s| && s[e] == p && k < n
    ensures k <= e && s[e - k] == p + k
    decreases k
  {
    if k == 0 {
    } else {
      RunIndex(s, p, n, e, k - 1);
      assert At(s, p + k);
      var c :| 0 <= c < |s| && s[c] == p + k;
      Ordered(s, c, e - (k - 1));
    }
  }

  lemma {:induction false} NoRun(s: seq<Id>, n: nat)
    requires StrictlyDescending(s) && 0 < n
    requires forall e :: 0 <= e ==> !Passes(s, e, n)
    ensures forall p :: !HasRun(s, p, n)
  {
    forall p ensures !HasRun(s, p, n) {
      if HasRun(s, p, n) { RunPasses(s, p, n); }
    }
  }

  lemma {:induction false} RunPasses(s: seq<Id>, p: int, n: nat)
    requires StrictlyDescending(s) && 0 < n && HasRun(s, p, n)
    ensures exists e :: 0 <= e && Passes(s, e, n) && s[e] == p
  {
    assert At(s, p);
    var e :| 0 <= e < |s| && s[e] == p;
    RunIndex(s, p, n, e, n - 1);
    assert Passes(s, e, n);
  }

  /** Index e (from 0) ends a run as far as the end-point test can see. */
  predicate Passes(s: seq<Id>, e: int, n: nat) {
    0 < n <= e + 1 <= |s| && s[e + 1 - n] == s[e] + (n - 1)
  }

  /** The loop of mdb_page_alloc over the end points, from the smallest id up. */
  method FindEnd(mop: array<Id>, num: nat) returns (i: nat)
    requires Valid(mop) && 0 < num
    ensures i != 0 ==> Passes(Ids(mop), i - 1, num)
    ensures forall e :: i <= e ==> !Passes(Ids(mop), e, num)
  {
    var n2, mopLen := num - 1, Len(mop);
    ghost var s := Ids(mop);
    if mopLen > n2 {
      i := mopLen;
      while true
        invariant n2 < i <= mopLen
        invariant forall e :: i <= e ==> !Passes(s, e, num)
        decreases i
      {
        assert mop[i] == s[i - 1] && mop[i - n2] == s[i - 1 - n2];
        if mop[i - n2] == mop[i] + n2 { return; }
        i := i - 1;
        if i <= n2 { break; }
      }
    }
    return 0;
  }

  /** The search in mdb_page_alloc: the end of the lowest run of `num` free pages, or 0
      exactly when there is none. */
  method FindRun(mop: array<Id>, num: nat) returns (i: nat)
    requires Valid(mop) && StrictlyDescending(Ids(mop)) && 0 < num
    ensures i != 0 ==> num <= i <= Len(mop) && Ids(mop)[i - 1] + num <= MAX_ID + 1
    ensures i != 0 ==> Ids(mop)[i - num..i] == DescRun(Ids(mop)[i - 1], num)
    ensures i == 0 <==> forall p :: !HasRun(Ids(mop), p, num)
    ensures i != 0 ==> forall p :: HasRun(Ids(mop), p, num) ==> Ids(mop)[i - 1] <= p
  {
    i := FindEnd(mop, num);
    ghost var s := Ids(mop);
    hide HasRun, StrictlyDescending;
    if i == 0 {
      NoRun(s, num);
    } else {
      EndPoints(s, i - 1, num);
      Lowest(s, num, i);
    }
  }

  /** Pages at the tail are preferred. */
  lemma {:induction false} Lowest(s: seq<Id>, n: nat, i: nat)
    requires StrictlyDescending(s) && 0 < n <= i <= |s| && s[i - 1] + n <= MAX_ID + 1
    requires s[i - n..i] == DescRun(s[i - 1], n)
    requires forall e :: i <= e ==> !Passes(s, e, n)
    ensures forall p :: HasRun(s, p, n) ==> s[i - 1] <= p
    ensures HasRun(s, s[i - 1], n)
  {
    forall p | HasRun(s, p, n) ensures s[i - 1] <= p {
      RunPasses(s, p, n);
      var e :| 0 <= e && Passes(s, e, n) && s[e] == p;
    }
    var p := s[i - 1];
    forall k | p <= k < p + n ensures At(s, k) {
      assert s[i - n..i][n - 1 - (k - p)] == k;
      assert s[i - 1 - (k - p)] == k;
    }
  }

  // ---- taking a run out ----------------------------------------------------------------

  function Without(s: seq<Id>, i: nat, n: nat): seq<Id>
    requires n <= i <= |s|
  {
    s[..i - n] + s[i..]
  }

  /** Moving the stragglers down deletes exactly the run. */
  method RemoveRun(mop: array<Id>, i0: nat, num: nat)
    requires Valid(mop) && num <= i0 <= Len(mop)
    modifies mop
    ensures Valid(mop) && Ids(mop) == Without(old(Ids(mop)), i0, num)
  {
    ghost var v, len := mop[..], Len(mop);
    var mopLen := Len(mop) - num;
    mop[0] := mopLen;
    MoveDown(mop, i0, num, mopLen);
    MovedDown(v, mop[..], i0, len, num);
  }

  method MoveDown(mop: array<Id>, i0: nat, num: nat, mopLen: nat)
    requires num <= i0 <= mopLen + num < mop.Length
    modifies mop
    ensures forall q :: 0 <= q <= i0 - num ==> mop[q] == old(mop[q])
    ensures forall q :: i0 - num < q <= mopLen ==> mop[q] == old(mop[q + num])
  {
    var i, j := i0, i0 - num;
    while j < mopLen
      invariant i - j == num && i0 - num <= j <= mopLen
      invariant forall q :: 0 <= q <= i0 - num ==> mop[q] == old(mop[q])
      invariant forall q :: i0 - num < q <= j ==> mop[q] == old(mop[q + num])
      invariant forall q :: j < q <= mopLen + num ==> mop[q] == old(mop[q])
    {
      j, i := j + 1, i + 1;
      mop[j] := mop[i];
    }
  }

  lemma {:induction false} MovedDown(v: seq<Id>, u: seq<Id>, i: nat, len: nat, n: nat)
    requires n <= i <= len < |u| == |v|
    requires forall q :: 1 <= q <= i - n ==> u[q] == v[q]
    requires forall q :: i - n < q <= len - n ==> u[q] == v[q + n]
    ensures u[1..1 + len - n] == Without(v[1..1 + len], i, n)
  {
    var t, s := u[1..1 + len - n], v[1..1 + len];
    forall k | 0 <= k < len - n ensures t[k] == Without(s, i, n)[k] {
      if k < i - n {
        assert u[k + 1] == v[k + 1];
      } else {
        assert u[k + 1] == v[k + 1 + n];
      }
    }
  }

  // ---- putting a run back ----------------------------------------------------------------

  /** How many ids at the front are not below pg. */
  function Above(s: seq<Id>, pg: int): (k: nat)
    ensures k <= |s|
    ensures k < |s| ==> s[k] < pg
    ensures forall i :: 0 <= i < k ==> s[i] >= pg
  {
    if s == [] || s[0] < pg then 0 else 1 + Above(s[1..], pg)
  }

  function RunInserted(s: seq<Id>, pg: nat, n: nat): seq<Id>
    requires pg + n <= MAX_ID + 1
  {
    s[..Above(s, pg)] + DescRun(pg, n) + s[Above(s, pg)..]
  }

  /** Above is where the scan from the end stops. */
  lemma {:induction false} AboveIs(s: seq<Id>, pg: int, k: nat)
    requires StrictlyDescending(s) && k <= |s|
    requires k > 0 ==> s[k - 1] >= pg
    requires forall i :: k <= i < |s| ==> s[i] < pg
    ensures Above(s, pg) == k
    decreases k
  {
    if k == 0 {
    } else {
      assert s[0] >= s[k - 1];
      AboveIs(s[1..], pg, k - 1);
    }
  }

  /** Ids below pg move up by n; i is where they began. */
  method ShiftUp(mop: array<Id>, pg: Id, n: nat) returns (i: nat)
    requires Valid(mop) && StrictlyDescending(Ids(mop)) && Len(mop) + n <= Room(mop)
    modifies mop
    ensures i == Above(old(Ids(mop)), pg) && mop[0] == old(mop[0])
    ensures forall q :: 1 <= q <= i ==> mop[q] == old(mop[q])
    ensures forall q :: i + n < q <= Len(mop) + n ==> mop[q] == old(mop[q - n])
  {
    var len := Len(mop);
    i := ShiftWhile(mop, pg, len, n);
    ScanEnd(old(mop[..]), len, pg, i);
  }

  method ShiftWhile(mop: array<Id>, pg: Id, len: nat, n: nat) returns (i: nat)
    requires len + n < mop.Length
    modifies mop
    ensures i <= len && (i > 0 ==> old(mop[i]) >= pg) && forall q :: i < q <= len ==> old(mop[q]) < pg
    ensures forall q :: 0 <= q <= i ==> mop[q] == old(mop[q])
    ensures forall q :: i + n < q <= len + n ==> mop[q] == old(mop[q - n])
  {
    i := len;
    var j := len + n;
    while i > 0 && mop[i] < pg
      invariant 0 <= i <= len && j == i + n
      invariant forall q :: 0 <= q <= i ==> mop[q] == old(mop[q])
      invariant forall q :: i + n < q <= len + n ==> mop[q] == old(mop[q - n])
      invariant forall q :: i < q <= len ==> old(mop[q]) < pg
    {
      mop[j] := mop[i];
      i, j := i - 1, j - 1;
    }
  }

  lemma {:induction false} ScanEnd(v: seq<Id>, len: nat, pg: int, i: nat)
    requires i <= len < |v| && StrictlyDescending(v[1..1 + len])
    requires i > 0 ==> v[i] >= pg
    requires forall q :: i < q <= len ==> v[q] < pg
    ensures Above(v[1..1 + len], pg) == i
  {
    var s := v[1..1 + len];
    assert forall q :: 0 <= q < len ==> s[q] == v[q + 1];
    AboveIs(s, pg, i);
  }

  /** The run goes into the gap, lowest page last. */
  method FillRun(mop: array<Id>, pg0: Id, i: nat, n: nat)
    requires i + n < mop.Length && pg0 + n <= MAX_ID
    modifies mop
    ensures forall q :: i < q <= i + n ==> mop[q] == pg0 + (i + n - q)
    ensures forall q :: 0 <= q <= i || i + n < q < mop.Length ==> mop[q] == old(mop[q])
  {
    var pg: int, j := pg0, i + n;
    while j > i
      invariant i <= j <= i + n && pg == pg0 + (i + n - j)
      invariant forall q :: j < q <= i + n ==> mop[q] == pg0 + (i + n - q)
      invariant forall q :: 0 <= q <= j || i + n < q < mop.Length ==> mop[q] == old(mop[q])
    {
      mop[j] := pg;
      j, pg := j - 1, pg + 1;
    }
  }

  /** The insertion in mdb_ovpage_free, in place. */
  method InsertRun(mop: array<Id>, pg: Id, n: nat)
    requires Valid(mop) && StrictlyDescending(Ids(mop)) && Len(mop) + n <= Room(mop)
    requires pg + n <= MAX_ID && Len(mop) + n <= MAX_ID
    modifies mop
    ensures Valid(mop) && Ids(mop) == RunInserted(old(Ids(mop)), pg, n)
  {
    hide StrictlyDescending, Above, DescRun;
    ghost var v := mop[..];
    ghost var len := Len(mop);
    var i := ShiftUp(mop, pg, n);
    FillRun(mop, pg, i, n);
    mop[0] := mop[0] + n;
    Gathered(v, mop[..], pg, i, len, n);
  }

  lemma {:induction false} Gathered(v: seq<Id>, u: seq<Id>, pg: nat, i: nat, len: nat, n: nat)
    requires i <= len && len + n < |u| == |v| && pg + n <= MAX_ID
    requires forall q :: 1 <= q <= i ==> u[q] == v[q]
    requires forall q :: i < q <= i + n ==> u[q] == pg + (i + n - q)
    requires forall q :: i + n < q <= len + n ==> u[q] == v[q - n]
    ensures u[1..1 + len + n] == v[1..1 + len][..i] + DescRun(pg, n) + v[1..1 + len][i..]
  {
    var a, r, b := u[1..1 + i], u[1 + i..1 + i + n], u[1 + i + n..1 + len + n];
    assert a == v[1..1 + len][..i];
    assert r == DescRun(pg, n);
    assert b == v[1..1 + len][i..];
    assert u[1..1 + len + n] == a + r + b;
  }

  /** Inserting a run of pages that are not free keeps the order and adds exactly them. */
  lemma {:induction false} RunInsertedIs(s: seq<Id>, pg: nat, n: nat)
    requires StrictlyDescending(s) && pg + n <= MAX_ID + 1
    requires forall i :: 0 <= i < |s| ==> !(pg <= s[i] < pg + n)
    ensures StrictlyDescending(RunInserted(s, pg, n))
    ensures forall x :: At(RunInserted(s, pg, n), x) <==> At(s, x) || pg <= x < pg + n
  {
    var k := Above(s, pg);
    Spliced(s[..k], DescRun(pg, n), s[k..]);
    forall x ensures At(RunInserted(s, pg, n), x) <==> At(s, x) || pg <= x < pg + n {
      AtConcat(s[..k], DescRun(pg, n), s[k..], x);
      AtConcat(s[..k], [], s[k..], x);
      assert s == s[..k] + [] + s[k..];
      AtRun(pg, n, x);
    }
  }

  /** Three descending pieces, each above the next. */
  lemma {:induction false} Spliced(a: seq<Id>, r: seq<Id>, b: seq<Id>)
    requires StrictlyDescending(a) && StrictlyDescending(r) && StrictlyDescending(b)
    requires forall i, j :: 0 <= i < |a| && 0 <= j < |r| ==> a[i] > r[j]
    requires forall i, j :: 0 <= i < |r| && 0 <= j < |b| ==> r[i] > b[j]
    requires forall i, j :: 0 <= i < |a| && 0 <= j < |b| ==> a[i] > b[j]
    ensures StrictlyDescending(a + r + b)
  {
  }

  lemma {:induction false} AtConcat(a: seq<Id>, r: seq<Id>, b: seq<Id>, x: int)
    ensures At(a + r + b, x) <==> At(a, x) || At(r, x) || At(b, x)
  {
    var t := a + r + b;
    if At(a, x) {
      var i :| 0 <= i < |a| && a[i] == x;
      assert t[i] == x;
    } else if At(r, x) {
      var i :| 0 <= i < |r| && r[i] == x;
      assert t[|a| + i] == x;
    } else if At(b, x) {
      var i :| 0 <= i < |b| && b[i] == x;
      assert t[|a| + |r| + i] == x;
    } else {
      forall i | 0 <= i < |t| ensures t[i] != x {
      }
    }
  }

  lemma {:induction false} AtRun(pg: nat, n: nat, x: int)
    requires pg + n <= MAX_ID + 1
    ensures At(DescRun(pg, n), x) <==> pg <= x < pg + n
  {
    if pg <= x < pg + n {
      assert DescRun(pg, n)[pg + n - 1 - x] == x;
    }
  }

  /** Taking a run and giving it back restores the list. */
  lemma {:induction false} InsertedBack(s: seq<Id>, i: nat, n: nat)
    requires StrictlyDescending(s) && 0 < n <= i <= |s| && s[i - 1] + n <= MAX_ID + 1
    requires s[i - n..i] == DescRun(s[i - 1], n)
    ensures RunInserted(Without(s, i, n), s[i - 1], n) == s
  {
    var t := Without(s, i, n);
    AboveIs(t, s[i - 1], i - n);
    assert s == s[..i - n] + s[i - n..i] + s[i..];
  }

  /** Giving a run back and taking it again restores the list. */
  lemma {:induction false} RemovedAgain(s: seq<Id>, pg: nat, n: nat)
    requires StrictlyDescending(s) && pg + n <= MAX_ID + 1
    ensures Without(RunInserted(s, pg, n), Above(s, pg) + n, n) == s
  {
  }

  /** Taking a run removes exactly its pages. */
  lemma {:induction false} WithoutIs(s: seq<Id>, i: nat, n: nat)
    requires StrictlyDescending(s) && 0 < n <= i <= |s| && s[i - 1] + n <= MAX_ID + 1
    requires s[i - n..i] == DescRun(s[i - 1], n)
    ensures StrictlyDescending(Without(s, i, n))
    ensures forall x :: At(Without(s, i, n), x) <==> At(s, x) && !(s[i - 1] <= x < s[i - 1] + n)
  {
    var p := s[i - 1];
    var a, r, b := s[..i - n], s[i - n..i], s[i..];
    assert s == a + r + b;
    assert a + b == a + [] + b;
    forall x ensures At(Without(s, i, n), x) <==> At(s, x) && !(p <= x < p + n) {
      AtConcat(a, r, b, x);
      AtConcat(a, [], b, x);
      AtRun(p, n, x);
      assert r[0] == s[i - n] == DescRun(p, n)[0];
      if At(a, x) || At(b, x) { Apart(s, i, n, x); }
    }
  }

  /** What is outside the run is not one of its pages. */
  lemma {:induction false} Apart(s: seq<Id>, i: nat, n: nat, x: int)
    requires StrictlyDescending(s) && 0 < n <= i <= |s| && s[i - n] == s[i - 1] + (n - 1)
    requires At(s[..i - n], x) || At(s[i..], x)
    ensures !(s[i - 1] <= x < s[i - 1] + n)
  {
  }
}
