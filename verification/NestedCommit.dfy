/** Committing a nested transaction: its dirty list is merged in place into the
    parent's, and the spill lists are adjusted (mdb_txn_commit). */
module NestedCommit {
  import opened IdList
  import opened DirtyList
  import opened SpillList

  // ---- the parent's spill list loses the child's dirty pages ----------------

  ghost predicate Hit(v: int, e: seq<Entry>) {
    exists k :: 0 <= k < |e| && e[k].mid * 2 == v
  }

  /** The live entries of s that are not pages of e. */
  ghost function Keep(s: seq<Id>, e: seq<Entry>): seq<Id> {
    if s == [] then []
    else
      var v := s[|s| - 1];
      Keep(s[..|s| - 1], e) + if Even(v) && !Hit(v, e) then [v] else []
  }

  lemma {:induction false} KeepIn(s: seq<Id>, e: seq<Entry>, v: Id)
    ensures v in Keep(s, e) <==> v in s && Even(v) && !Hit(v, e)
    decreases |s|
  {
    if s == [] {
    } else {
      KeepIn(s[..|s| - 1], e, v);
      assert s == s[..|s| - 1] + [s[|s| - 1]];
    }
  }

  lemma {:induction false} KeepLast(s: seq<Id>, e: seq<Entry>)
    requires s != [] && SpillOrder(s) && SpillOrder(Keep(s[..|s| - 1], e))
    ensures SpillOrder(Keep(s[..|s| - 1], e) + [s[|s| - 1]])
  {
    var rest, v := Keep(s[..|s| - 1], e), s[|s| - 1];
    forall x, y | x in rest && y in [v] ensures x >= y && (Even(x) ==> x != y) {
      KeepIn(s[..|s| - 1], e, x);
      var k :| 0 <= k < |s| - 1 && s[..|s| - 1][k] == x;
      assert s[k] == x;
    }
    OrderJoined(rest, [v]);
  }

  lemma {:induction false} KeepOrder(s: seq<Id>, e: seq<Entry>)
    requires SpillOrder(s)
    ensures SpillOrder(Keep(s, e))
    decreases |s|
  {
    if s == [] {
    } else {
      var rest := Keep(s[..|s| - 1], e);
      KeepOrder(s[..|s| - 1], e);
      if Keep(s, e) != rest { KeepLast(s, e); }
    }
  }

  /** Skip the entries below pn; the sentinel in slot 0 stops the scan. */
  method StepDown(pspill: array<Id>, x0: nat, pn: Id) returns (x: nat)
    requires x0 < pspill.Length && pspill[0] == TOP
    ensures x <= x0 && pspill[x] >= pn
    ensures forall q :: x < q <= x0 ==> pspill[q] < pn
  {
    x := x0;
    while pn > pspill[x]
      invariant x <= x0
      invariant forall q :: x < q <= x0 ==> pspill[q] < pn
      decreases x
    {
      x := x - 1;
    }
  }

  /** The first i pages of e have been looked for in first[1..n+1]; those found are
      overwritten with 1, all of them behind y. */
  ghost predicate Marked(s: seq<Id>, first: seq<Id>, n: nat, e: seq<Entry>, i: nat, x: nat, y: nat) {
    && |s| == |first| && x <= y <= n < |s| && i <= |e|
    && s[0] == TOP
    && (forall q :: 1 <= q <= n ==> s[q] == if q > y && Hit(first[q], e[..i]) then 1 else first[q])
    && (forall q :: 1 <= q <= y ==> !Hit(first[q], e[..i]))
    && (forall q, k :: x < q <= n && i <= k < |e| ==> first[q] < e[k].mid * 2)
  }

  lemma {:induction false} MarkStep(s: seq<Id>, first: seq<Id>, n: nat, e: seq<Entry>, i: nat, x: nat, y: nat, x': nat)
    requires Marked(s, first, n, e, i, x, y) && i < |e|
    requires Ascending(e) && SpillOrder(first[1..n + 1])
    requires x' <= x && s[x'] >= e[i].mid * 2
    requires forall q :: x' < q <= x ==> s[q] < e[i].mid * 2
    ensures s[x'] == e[i].mid * 2 ==> 0 < x' && Marked(s[x' := 1], first, n, e, i + 1, x' - 1, x' - 1)
    ensures s[x'] != e[i].mid * 2 ==> Marked(s, first, n, e, i + 1, x', y)
  {
    var pn := e[i].mid * 2;
    OrderAt(first, n);
    assert 0 < x' ==> s[x'] == first[x'];
    forall q | 1 <= q <= n
      ensures Hit(first[q], e[..i + 1]) <==> Hit(first[q], e[..i]) || first[q] == pn
    {
      HitMore(first[q], e, i);
    }
    assert forall q :: x' < q <= n ==> first[q] < pn;
    assert forall q :: 1 <= q < x' ==> first[q] >= first[x'] && first[q] != pn;
  }

  /** The order of a list, by its positions in the array. */
  lemma {:induction false} OrderAt(first: seq<Id>, n: nat)
    requires n < |first| && SpillOrder(first[1..n + 1])
    ensures forall q, r :: 1 <= q < r <= n ==> first[q] >= first[r] && (Even(first[q]) ==> first[q] != first[r])
  {
    forall q, r | 1 <= q < r <= n ensures first[q] >= first[r] && (Even(first[q]) ==> first[q] != first[r]) {
      assert first[1..n + 1][q - 1] == first[q] && first[1..n + 1][r - 1] == first[r];
    }
  }

  lemma {:induction false} HitMore(v: int, e: seq<Entry>, i: nat)
    requires i < |e|
    ensures Hit(v, e[..i + 1]) <==> Hit(v, e[..i]) || v == e[i].mid * 2
  {
    if Hit(v, e[..i + 1]) {
      var k :| 0 <= k < i + 1 && e[..i + 1][k].mid * 2 == v;
      if k < i { assert e[..i][k].mid * 2 == v; }
    }
    if Hit(v, e[..i]) {
      var k :| 0 <= k < i && e[..i][k].mid * 2 == v;
      assert e[..i + 1][k].mid * 2 == v;
    }
    if v == e[i].mid * 2 {
      assert e[..i + 1][i].mid * 2 == v;
    }
  }

  method MarkOne(pspill: array<Id>, pn: Id, x: nat, y: nat,
                 ghost first: seq<Id>, ghost n: nat, ghost e: seq<Entry>, ghost i: nat)
    returns (x': nat, y': nat)
    requires Marked(pspill[..], first, n, e, i, x, y) && i < |e| && pn == e[i].mid * 2
    requires Ascending(e) && SpillOrder(first[1..n + 1])
    modifies pspill
    ensures Marked(pspill[..], first, n, e, i + 1, x', y')
  {
    ghost var s := pspill[..];
    x' := StepDown(pspill, x, pn);
    y' := y;
    MarkStep(s, first, n, e, i, x, y, x');
    if pn == pspill[x'] {
      pspill[x'] := 1;
      assert pspill[..] == s[x' := 1];
      x' := x' - 1;
      y' := x';
    }
  }

  /** Each page of src that is in the spill list is overwritten with an odd number. */
  method MarkDeleted(pspill: array<Id>, src: array<Entry>) returns (y: nat, ghost x: nat)
    requires Valid(pspill) && SpillOrder(Ids(pspill))
    requires Valid2(src) && Ascending(Entries(src)) && forall k :: 1 <= k <= Count(src) ==> src[k].mid * 2 < MAX_ID
    modifies pspill
    ensures Marked(pspill[..], old(pspill[..]), old(Len(pspill)), Entries(src), Count(src), x, y)
  {
    ghost var first, e, n := pspill[..], Entries(src), Len(pspill);
    var at: nat := pspill[0];
    y := at;
    pspill[0] := TOP;
    var i, len := 0, Count(src);
    MarkStart(first, n, e);
    assert pspill[..] == first[0 := TOP];
    while i < len
      invariant 0 <= i <= len
      invariant Marked(pspill[..], first, n, e, i, at, y)
    {
      assert src[i + 1] == e[i];
      at, y := MarkOne(pspill, src[i + 1].mid * 2, at, y, first, n, e, i);
      i := i + 1;
    }
    x := at;
    assert e[..len] == e;
  }

  lemma {:induction false} MarkStart(first: seq<Id>, n: nat, e: seq<Entry>)
    requires n < |first|
    ensures Marked(first[0 := TOP], first, n, e, 0, n, n)
  {
    assert e[..0] == [];
    assert forall v :: !Hit(v, []);
  }

  /** Between steps of the squash: entries up to x were looked at, what stays is in
      [1, y]. */
  ghost predicate Squashing(s: seq<Id>, first: seq<Id>, n: nat, e: seq<Entry>, y0: nat, x: nat, y: nat) {
    && |s| == |first| && y0 <= y <= x <= n < |s|
    && s[1..y + 1] == first[1..y0 + 1] + Keep(first[y0 + 1..x + 1], e)
    && (forall q :: x < q <= n ==> s[q] == if Hit(first[q], e) then 1 else first[q])
  }

  lemma {:induction false} SquashStep(s: seq<Id>, first: seq<Id>, n: nat, e: seq<Entry>, y0: nat, x: nat, y: nat)
    requires Squashing(s, first, n, e, y0, x, y) && x < n
    ensures !Even(s[x + 1]) ==> Squashing(s, first, n, e, y0, x + 1, y)
    ensures Even(s[x + 1]) ==> Squashing(s[y + 1 := s[x + 1]], first, n, e, y0, x + 1, y + 1)
  {
    var v := first[x + 1];
    var f := first[y0 + 1..x + 2];
    assert f[..|f| - 1] == first[y0 + 1..x + 1] && f[|f| - 1] == v;
    if Even(s[x + 1]) {
      var t := s[y + 1 := v];
      assert t[1..y + 2] == s[1..y + 1] + [v];
      assert first[1..y0 + 1] + Keep(first[y0 + 1..x + 1], e) + [v] == first[1..y0 + 1] + (Keep(first[y0 + 1..x + 1], e) + [v]);
    }
  }

  /** Close the gaps that the overwritten entries leave. */
  method Squash(pspill: array<Id>, n: nat, y0: nat, ghost first: seq<Id>, ghost e: seq<Entry>, ghost x0: nat)
    requires Marked(pspill[..], first, n, e, |e|, x0, y0) && n <= MAX_ID
    modifies pspill
    ensures Valid(pspill) && Ids(pspill) == first[1..y0 + 1] + Keep(first[y0 + 1..n + 1], e)
  {
    SquashStart(pspill[..], first, n, e, x0, y0);
    hide Marked, Squashing, Keep;
    var x: nat, y: nat := y0, y0;
    while x < n
      invariant x <= n && Squashing(pspill[..], first, n, e, y0, x, y)
      decreases n - x
    {
      y := SquashOne(pspill, n, x, y, first, e, y0);
      x := x + 1;
    }
    ghost var s := pspill[..];
    SquashEnd(s, first, n, e, y0, y);
    pspill[0] := y;
    assert pspill[1..y + 1] == s[1..y + 1];
  }

  method SquashOne(pspill: array<Id>, ghost n: nat, x: nat, y: nat, ghost first: seq<Id>, ghost e: seq<Entry>, ghost y0: nat)
    returns (y': nat)
    requires Squashing(pspill[..], first, n, e, y0, x, y) && x < n
    modifies pspill
    ensures Squashing(pspill[..], first, n, e, y0, x + 1, y')
  {
    ghost var s := pspill[..];
    SquashStep(s, first, n, e, y0, x, y);
    y' := y;
    if pspill[x + 1] % 2 == 0 {
      y' := y + 1;
      pspill[y'] := pspill[x + 1];
      assert pspill[..] == s[y + 1 := s[x + 1]];
    }
  }

  lemma {:induction false} SquashStart(s: seq<Id>, first: seq<Id>, n: nat, e: seq<Entry>, x: nat, y: nat)
    requires Marked(s, first, n, e, |e|, x, y)
    ensures Squashing(s, first, n, e, y, y, y)
  {
    assert e[..|e|] == e;
    assert s[1..y + 1] == first[1..y + 1];
    assert first[y + 1..y + 1] == [];
  }

  lemma {:induction false} SquashEnd(s: seq<Id>, first: seq<Id>, n: nat, e: seq<Entry>, y0: nat, y: nat)
    requires Squashing(s, first, n, e, y0, n, y)
    ensures y <= n < |s| && y0 <= n && |first| == |s|
    ensures s[1..y + 1] == first[1..y0 + 1] + Keep(first[y0 + 1..n + 1], e)
  {
  }

  /** The parent's spill list loses exactly the child's dirty pages. */
  method DropFromSpill(pspill: array<Id>, src: array<Entry>)
    requires Valid(pspill) && SpillOrder(Ids(pspill))
    requires Valid2(src) && Ascending(Entries(src)) && forall k :: 1 <= k <= Count(src) ==> src[k].mid * 2 < MAX_ID
    modifies pspill
    ensures Valid(pspill) && SpillOrder(Ids(pspill)) && Len(pspill) <= old(Len(pspill))
    ensures forall v: Id :: Even(v) ==> (v in Ids(pspill) <==> v in old(Ids(pspill)) && !Hit(v, Entries(src)))
    ensures forall v: Id :: v in Ids(pspill) ==> v in old(Ids(pspill))
  {
    var len := Len(pspill);
    if len > 0 {
      ghost var first, e := pspill[..], Entries(src);
      ghost var x;
      var y;
      y, x := MarkDeleted(pspill, src);
      assert e[..|e|] == e;
      Squash(pspill, len, y, first, e, x);
      SquashedIs(first, len, e, y);
    }
  }

  lemma {:induction false} SquashedIs(first: seq<Id>, n: nat, e: seq<Entry>, y: nat)
    requires y <= n < |first| && SpillOrder(first[1..n + 1])
    requires forall q :: 1 <= q <= y ==> !Hit(first[q], e)
    ensures var s, t := first[1..n + 1], first[1..y + 1] + Keep(first[y + 1..n + 1], e);
            && SpillOrder(t) && |t| <= |s|
            && (forall v: Id :: v in t ==> v in s)
            && (forall v: Id :: Even(v) ==> (v in t <==> v in s && !Hit(v, e)))
  {
    var a, b := first[1..y + 1], first[y + 1..n + 1];
    assert first[1..n + 1] == a + b;
    KeptOrder(a, b, e);
    forall v: Id
      ensures v in a + Keep(b, e) ==> v in a + b
      ensures Even(v) ==> (v in a + Keep(b, e) <==> v in a + b && !Hit(v, e))
    {
      KeepIn(b, e, v);
      if v in a {
        var q :| 0 <= q < |a| && a[q] == v;
        assert first[q + 1] == v;
      }
    }
  }

  lemma {:induction false} KeepShorter(s: seq<Id>, e: seq<Entry>)
    ensures |Keep(s, e)| <= |s|
    decreases |s|
  {
    if s == [] {
    } else {
      KeepShorter(s[..|s| - 1], e);
    }
  }

  lemma {:induction false} OrderParts(a: seq<Id>, b: seq<Id>)
    requires SpillOrder(a + b)
    ensures SpillOrder(a) && SpillOrder(b)
    ensures forall x, y :: x in a && y in b ==> x >= y && (Even(x) ==> x != y)
  {
    var s := a + b;
    assert forall i :: 0 <= i < |a| ==> s[i] == a[i];
    assert forall j :: 0 <= j < |b| ==> s[|a| + j] == b[j];
    forall i, j | 0 <= i < j < |b| ensures b[i] >= b[j] && (Even(b[i]) ==> b[i] != b[j]) {
      assert s[|a| + i] == b[i] && s[|a| + j] == b[j];
    }
    forall x, y | x in a && y in b ensures x >= y && (Even(x) ==> x != y) {
      var i :| 0 <= i < |a| && a[i] == x;
      var j :| 0 <= j < |b| && b[j] == y;
      assert s[i] == x && s[|a| + j] == y;
    }
  }

  lemma {:induction false} OrderJoined(a: seq<Id>, b: seq<Id>)
    requires SpillOrder(a) && SpillOrder(b)
    requires forall x, y :: x in a && y in b ==> x >= y && (Even(x) ==> x != y)
    ensures SpillOrder(a + b)
  {
    var s := a + b;
    forall i, j | 0 <= i < j < |s| ensures s[i] >= s[j] && (Even(s[i]) ==> s[i] != s[j]) {
      if i < |a| <= j { assert s[i] in a && s[j] in b; }
    }
  }

  lemma {:induction false} KeptOrder(a: seq<Id>, b: seq<Id>, e: seq<Entry>)
    requires SpillOrder(a + b)
    ensures SpillOrder(a + Keep(b, e)) && |Keep(b, e)| <= |b|
  {
    KeepShorter(b, e);
    OrderParts(a, b);
    KeepOrder(b, e);
    forall y: Id | y in Keep(b, e) ensures y in b { KeepIn(b, e, y); }
    OrderJoined(a, Keep(b, e));
  }
}
