/** Spill lists: page numbers shifted left by 1, descending; an odd entry is a deleted one.
    Entries are added by mdb_page_spill and by the commit of a nested transaction, and
    deleted when a page is taken back. */
module SpillList {
  import opened IdList
  import opened IdSort
  import opened DirtyList

  predicate Even(v: int) { v % 2 == 0 }

  /** Pages with a live entry. */
  ghost function Spilled(s: seq<Id>): set<Id> {
    set v | v in s && Even(v) :: v / 2
  }

  /** What every operation keeps: the order, and one live entry per page.  Deleted entries
      may repeat: a page that was spilled and taken back in a parent and again in its child
      leaves two of them. */
  ghost predicate SpillOrder(s: seq<Id>) {
    Descending(s) && LiveOnce(s)
  }

  ghost predicate LiveOnce(s: seq<Id>) {
    forall i, j :: 0 <= i < j < |s| && Even(s[i]) ==> s[i] != s[j]
  }

  lemma {:induction false} SpilledIs(s: seq<Id>, p: Id)
    requires p * 2 <= MAX_ID
    ensures p in Spilled(s) <==> p * 2 in s
  {
    if p * 2 in s {
      var v: Id := p * 2;
      assert v in s && Even(v) && v / 2 == p;
    }
  }

  // ---- lists put together and sorted --------------------------------------------------

  lemma {:induction false} LiveCount(s: seq<Id>, v: Id)
    requires LiveOnce(s) && Even(v)
    ensures multiset(s)[v] <= 1
    decreases |s|
  {
    if s == [] {
    } else {
      LiveCount(s[1..], v);
      assert s == [s[0]] + s[1..];
      if s[0] == v {
        assert forall j :: 0 <= j < |s| - 1 ==> s[1..][j] == s[j + 1];
        assert v !in s[1..];
        assert v !in multiset(s[1..]);
      }
    }
  }

  /** Lists without a live page in common. */
  lemma {:induction false} JoinedOnce(a: seq<Id>, b: seq<Id>, r: seq<Id>)
    requires LiveOnce(a) && LiveOnce(b) && Spilled(a) !! Spilled(b) && multiset(r) == multiset(a) + multiset(b)
    ensures LiveOnce(r)
  {
    forall i, j | 0 <= i < j < |r| && Even(r[i]) ensures r[i] != r[j] {
      var v := r[i];
      LiveCount(a, v);
      LiveCount(b, v);
      assert v in a ==> v / 2 in Spilled(a);
      assert v in b ==> v / 2 in Spilled(b);
      assert v in a <==> v in multiset(a);
      assert v in b <==> v in multiset(b);
      if r[i] == r[j] { TwiceIn(r, i, j); }
    }
  }

  lemma {:induction false} JoinedPages(a: seq<Id>, b: seq<Id>, r: seq<Id>)
    requires multiset(r) == multiset(a) + multiset(b)
    ensures Spilled(r) == Spilled(a) + Spilled(b)
  {
    forall v: Id ensures v in r <==> v in a || v in b {
      assert v in r <==> v in multiset(r);
      assert v in a <==> v in multiset(a);
      assert v in b <==> v in multiset(b);
    }
  }

  /** The end of a nested commit: the child's spill list joins the parent's. */
  method JoinSpill(pspill: array<Id>, spill: array<Id>) returns (r: array<Id>, fits: bool)
    requires pspill != spill && Valid(pspill) && Valid(spill) && pspill[0] + spill[0] <= MAX_ID
    requires SpillOrder(Ids(pspill)) && SpillOrder(Ids(spill)) && Spilled(Ids(pspill)) !! Spilled(Ids(spill))
    modifies pspill
    ensures Valid(r) && (r == pspill || fresh(r)) && r != spill
    ensures Len(r) == old(Len(pspill)) + Len(spill) && (Len(r) <= SORT_MAX ==> fits)
    ensures fits ==> SpillOrder(Ids(r))
    ensures Spilled(Ids(r)) == Spilled(old(Ids(pspill))) + Spilled(Ids(spill))
  {
    ghost var a, b := Ids(pspill), Ids(spill);
    hide Descending, LiveOnce, Spilled;
    r := AppendList(pspill, spill);
    ghost var joined := Ids(r);
    assert multiset(joined) == multiset(a) + multiset(b);
    JoinedOnce(a, b, joined);
    JoinedPages(a, b, joined);
    fits := SortSpill(r);
  }

  /** Sorting keeps the live pages. */
  method SortSpill(sl: array<Id>) returns (fits: bool)
    requires Valid(sl) && LiveOnce(Ids(sl))
    modifies sl
    ensures Valid(sl) && Len(sl) == old(Len(sl)) && (Len(sl) <= SORT_MAX ==> fits)
    ensures fits ==> SpillOrder(Ids(sl))
    ensures Spilled(Ids(sl)) == Spilled(old(Ids(sl)))
  {
    hide Descending, LiveOnce, Spilled, Prefix;
    ghost var s := Ids(sl);
    fits := Sort(sl);
    SortedOrder(Ids(sl), sl[0]);
    SameOnce(s, Ids(sl));
  }

  lemma {:induction false} SameOnce(s: seq<Id>, r: seq<Id>)
    requires LiveOnce(s) && multiset(r) == multiset(s)
    ensures LiveOnce(r) && Spilled(r) == Spilled(s)
  {
    assert Spilled([]) == {};
    JoinedOnce(s, [], r);
    JoinedPages(s, [], r);
  }

  /** A list whose length is an int is sorted as a whole. */
  lemma {:induction false} SortedOrder(s: seq<Id>, n: Id)
    requires |s| == n && Descending(s[..Prefix(n)])
    ensures n <= INT_MAX ==> Descending(s)
  {
    if n <= INT_MAX { assert s[..Prefix(n)] == s; }
  }

  // ---- mdb_page_spill -------------------------------------------------------------------

  /** The live entries. */
  ghost function Live(s: seq<Id>): seq<Id> {
    if s == [] then [] else Live(s[..|s| - 1]) + if Even(s[|s| - 1]) then [s[|s| - 1]] else []
  }

  lemma {:induction false} LiveIn(s: seq<Id>, v: Id)
    ensures v in Live(s) <==> v in s && Even(v)
    decreases |s|
  {
    if s == [] {
    } else {
      LiveIn(s[..|s| - 1], v);
      assert s == s[..|s| - 1] + [s[|s| - 1]];
    }
  }

  lemma {:induction false} LiveOrder(s: seq<Id>)
    requires SpillOrder(s)
    ensures SpillOrder(Live(s)) && |Live(s)| <= |s|
    decreases |s|
  {
    if s == [] {
    } else {
      var rest := s[..|s| - 1];
      LiveOrder(rest);
      forall i | 0 <= i < |Live(rest)|
        ensures Live(rest)[i] >= s[|s| - 1] && Live(rest)[i] != s[|s| - 1]
      {
        LiveIn(rest, Live(rest)[i]);
        var k :| 0 <= k < |rest| && rest[k] == Live(rest)[i];
        assert s[k] == rest[k];
      }
    }
  }

  lemma {:induction false} LivePages(s: seq<Id>)
    ensures Spilled(Live(s)) == Spilled(s)
  {
    forall v: Id ensures v in Live(s) <==> v in s && Even(v) {
      LiveIn(s, v);
    }
  }

  ghost predicate Purging(s: seq<Id>, first: seq<Id>, n: nat, i: nat, j: nat) {
    && j <= i <= n < |s| == |first|
    && s[1..j + 1] == Live(first[1..i + 1])
    && forall q :: i < q <= n ==> s[q] == first[q]
  }

  lemma {:induction false} PurgeStep(s: seq<Id>, first: seq<Id>, n: nat, i: nat, j: nat)
    requires Purging(s, first, n, i, j) && i < n
    ensures !Even(s[i + 1]) ==> Purging(s, first, n, i + 1, j)
    ensures Even(s[i + 1]) ==> Purging(s[j + 1 := s[i + 1]], first, n, i + 1, j + 1)
  {
    var f := first[1..i + 2];
    assert f[..|f| - 1] == first[1..i + 1] && f[|f| - 1] == first[i + 1] == s[i + 1];
    if Even(s[i + 1]) {
      assert s[j + 1 := s[i + 1]][1..j + 2] == s[1..j + 1] + [s[i + 1]];
    }
  }

  /** Deleted entries are squeezed out before new ones come in. */
  method Purge(sl: array<Id>)
    requires Valid(sl)
    modifies sl
    ensures Valid(sl) && Ids(sl) == Live(old(Ids(sl)))
  {
    ghost var first := sl[..];
    var num: nat := sl[0];
    var i, j: nat := 0, 0;
    assert first[1..1] == [];
    while i < num
      invariant i <= num && Purging(sl[..], first, num, i, j)
      decreases num - i
    {
      ghost var s := sl[..];
      PurgeStep(s, first, num, i, j);
      i := i + 1;
      if sl[i] % 2 == 0 {
        j := j + 1;
        sl[j] := sl[i];
        assert sl[..] == s[j := s[i]];
      }
    }
    ghost var s := sl[..];
    sl[0] := j;
    assert Ids(sl) == s[1..j + 1];
  }

  /** The pages of e that get an entry: those that are not barred. */
  ghost function Chosen(e: seq<Entry>, barred: set<Id>): set<Id> {
    if e == [] then {}
    else Chosen(e[1..], barred) + if e[0].mid in barred then {} else {e[0].mid}
  }

  lemma {:induction false} ChosenIs(e: seq<Entry>, barred: set<Id>)
    ensures Chosen(e, barred) == Mids(e) - barred
    decreases |e|
  {
    if e == [] {
      assert Mids(e) == {};
    } else {
      ChosenIs(e[1..], barred);
      assert e == [e[0]] + e[1..];
      assert Mids(e) == {e[0].mid} + Mids(e[1..]) by { assert e[0] in e; }
    }
  }

  lemma {:induction false} ChosenOne(e: seq<Entry>, i: nat, barred: set<Id>)
    requires 0 < i <= |e| && Ascending(e)
    ensures var p, rest := e[i - 1].mid, Chosen(e[i..], barred);
            p !in rest && Chosen(e[i - 1..], barred) == rest + if p in barred then {} else {p}
  {
    assert e[i - 1..][1..] == e[i..];
    ChosenIs(e[i..], barred);
    forall y | y in e[i..] ensures y.mid != e[i - 1].mid {
      var k :| 0 <= k < |e[i..]| && e[i..][k] == y;
      assert e[i + k] == y;
    }
  }

  ghost predicate InOrder(parents: seq<array<Id>>)
    reads parents
  {
    forall k :: 0 <= k < |parents| ==> Valid(parents[k]) && Descending(Ids(parents[k]))
  }

  /** Pages spilled by an ancestor. */
  ghost function Above(parents: seq<array<Id>>): (pages: set<Id>)
    reads parents
    requires InOrder(parents)
    ensures forall p: Id :: p in pages <==> exists k :: 0 <= k < |parents| && p in Spilled(Ids(parents[k]))
  {
    if parents == [] then {} else Spilled(Ids(parents[0])) + Above(parents[1..])
  }

  /** Is the page in the spill list of an ancestor? */
  method InParent(parents: seq<array<Id>>, p: Id) returns (found: bool)
    requires InOrder(parents) && p * 2 <= MAX_ID
    ensures found <==> p in Above(parents)
  {
    for k := 0 to |parents|
      invariant forall m :: 0 <= m < k ==> p !in Spilled(Ids(parents[m]))
    {
      SpilledIs(Ids(parents[k]), p);
      var j := Search(parents[k], p * 2);
      if j <= parents[k][0] && parents[k][j] == p * 2 { return true; }
    }
    found := false;
  }

  /** Entries for the pages of e[i..] have been appended to the list. */
  ghost predicate Spilling(s: seq<Id>, first: seq<Id>, e: seq<Entry>, i: nat, barred: set<Id>, count: int) {
    && i <= |e| && |s| <= |first| + (|e| - i) && LiveOnce(s)
    && Spilled(s) == Spilled(first) + Chosen(e[i..], barred) && |Chosen(e[i..], barred)| == count
  }

  lemma {:induction false} SpillStart(first: seq<Id>, e: seq<Entry>, barred: set<Id>)
    requires LiveOnce(first)
    ensures Spilling(first, first, e, |e|, barred, 0)
  {
    assert e[|e|..] == [];
  }

  lemma {:induction false} SpillSkip(s: seq<Id>, first: seq<Id>, e: seq<Entry>, i: nat, barred: set<Id>, count: int)
    requires Spilling(s, first, e, i, barred, count) && 0 < i && Ascending(e) && e[i - 1].mid in barred
    ensures Spilling(s, first, e, i - 1, barred, count)
  {
    hide Spilled, Chosen, LiveOnce, Ascending;
    ChosenOne(e, i, barred);
  }

  lemma {:induction false} SpillOne(s: seq<Id>, first: seq<Id>, e: seq<Entry>, i: nat, barred: set<Id>, count: int)
    requires Spilling(s, first, e, i, barred, count) && 0 < i && Ascending(e) && e[i - 1].mid !in barred
    requires e[i - 1].mid !in Spilled(first) && e[i - 1].mid * 2 <= MAX_ID
    ensures Spilling(s + [e[i - 1].mid * 2], first, e, i - 1, barred, count + 1)
  {
    hide Spilled, Chosen, LiveOnce, Ascending;
    ChosenOne(e, i, barred);
    LiveAppend(s, e[i - 1].mid);
  }

  lemma {:induction false} LiveAppend(s: seq<Id>, p: Id)
    requires LiveOnce(s) && p * 2 <= MAX_ID && p !in Spilled(s)
    ensures LiveOnce(s + [p * 2]) && Spilled(s + [p * 2]) == Spilled(s) + {p}
  {
    SpilledIs(s, p);
    var v: Id := p * 2;
    SpilledAppend(s, v);
  }

  lemma {:induction false} SpilledAppend(s: seq<Id>, v: Id)
    requires Even(v)
    ensures Spilled(s + [v]) == Spilled(s) + {v / 2}
  {
    assert forall w :: w in s + [v] <==> w in s || w == v;
  }

  /** The spill list got entries for the pages of e[i..] that are not barred. */
  ghost predicate DidSpill(s: seq<Id>, first: seq<Id>, e: seq<Entry>, i: nat, barred: set<Id>, need: nat) {
    && i <= |e| && |s| <= |first| + |e|
    && var chosen := Chosen(e[i..], barred);
       Spilled(s) == Spilled(first) + chosen && |chosen| <= need && (i == 0 || |chosen| == need)
  }

  /** A dirty page is not a spilled one. */
  ghost predicate Unlisted(e: seq<Entry>, s: seq<Id>) {
    forall k :: 0 <= k < |e| ==> e[k].mid * 2 < MAX_ID && e[k].mid !in Spilled(s)
  }

  /** What mdb_page_spill starts from. */
  ghost predicate CanSpill(sl: array<Id>, dl: array<Entry>, parents: seq<array<Id>>)
    reads sl, dl, parents
  {
    && Valid(sl) && sl[0] + IDL_UM_MAX <= MAX_ID && sl !in parents && InOrder(parents)
    && Valid2(dl) && Ascending(Entries(dl)) && Count(dl) <= IDL_UM_MAX
    && LiveOnce(Ids(sl)) && Unlisted(Entries(dl), Ids(sl))
  }

  /** mdb_page_spill: from the end of the dirty list, pages that are neither held back nor
      spilled by an ancestor get an entry, until `need` of them have one; i is how many
      entries were not reached. */
  method SpillPages(sl: array<Id>, dl: array<Entry>, kept: set<Id>, parents: seq<array<Id>>, need: nat)
    returns (r: array<Id>, i: nat, fits: bool)
    requires CanSpill(sl, dl, parents) && SpillOrder(Ids(sl))
    modifies sl
    ensures Valid(r) && (r == sl || fresh(r)) && i <= Count(dl)
    ensures (Len(r) <= SORT_MAX ==> fits) && (fits ==> SpillOrder(Ids(r)))
    ensures DidSpill(Ids(r), old(Ids(sl)), Entries(dl), i, kept + old(Above(parents)), need)
  {
    ghost var first, e, above := Ids(sl), Entries(dl), Above(parents);
    PurgeSpill(sl, dl, parents);
    hide CanSpill, DidSpill, Above, InOrder, Spilled, LiveOnce, Descending;
    ghost var live := Ids(sl);
    assert Entries(dl) == e by { ListsApart(sl, dl, parents); }
    r, i := AppendPages(sl, dl, kept, parents, need);
    ghost var s := Ids(r);
    fits := SortSpill(r);
    DidSpillSame(s, live, Ids(r), first, e, i, kept + above, need);
  }

  lemma {:induction false} UnlistedSame(e: seq<Entry>, s: seq<Id>, t: seq<Id>)
    requires Unlisted(e, s) && Spilled(t) == Spilled(s)
    ensures Unlisted(e, t)
  {
  }

  lemma {:induction false} ListsApart(sl: array<Id>, dl: array<Entry>, parents: seq<array<Id>>)
    requires CanSpill(sl, dl, parents)
    ensures Valid2(dl)
  {
  }

  lemma {:induction false} DidSpillSame(s: seq<Id>, first: seq<Id>, s': seq<Id>, first': seq<Id>, e: seq<Entry>, i: nat,
                                        barred: set<Id>, need: nat)
    requires DidSpill(s, first, e, i, barred, need) && |s'| == |s| && |first| <= |first'|
    requires Spilled(s') == Spilled(s) && Spilled(first') == Spilled(first)
    ensures DidSpill(s', first', e, i, barred, need)
  {
  }

  method PurgeSpill(sl: array<Id>, ghost dl: array<Entry>, ghost parents: seq<array<Id>>)
    requires CanSpill(sl, dl, parents) && SpillOrder(Ids(sl))
    modifies sl
    ensures CanSpill(sl, dl, parents)
    ensures Spilled(Ids(sl)) == Spilled(old(Ids(sl))) && Len(sl) <= old(Len(sl))
    ensures Above(parents) == old(Above(parents))
  {
    LiveOrder(Ids(sl));
    LivePages(Ids(sl));
    UnlistedSame(Entries(dl), Ids(sl), Live(Ids(sl)));
    hide Unlisted, Above, InOrder, Spilled, Ascending, LiveOnce, Descending, Live, Mids;
    Purge(sl);
  }

  method AppendPages(sl: array<Id>, dl: array<Entry>, kept: set<Id>, parents: seq<array<Id>>, need: nat)
    returns (r: array<Id>, i: nat)
    requires CanSpill(sl, dl, parents)
    modifies sl
    ensures Valid(r) && (r == sl || fresh(r)) && r !in parents && i <= Count(dl) && InOrder(parents)
    ensures Above(parents) == old(Above(parents))
    ensures LiveOnce(Ids(r)) && DidSpill(Ids(r), old(Ids(sl)), Entries(dl), i, kept + old(Above(parents)), need)
  {
    ghost var first, e, barred := Ids(sl), Entries(dl), kept + Above(parents);
    SpillStart(first, e, barred);
    hide Spilling, DidSpill, Above, InOrder, LiveOnce, Ascending, Unlisted;
    var left: int := need;
    r, i := sl, Count(dl);
    while i > 0 && left > 0
      invariant i <= |e| && 0 <= left && r !in parents && (r == sl || fresh(r))
      invariant InOrder(parents) && barred == kept + Above(parents) && Above(parents) == old(Above(parents))
      invariant Valid(r) && Spilling(Ids(r), first, e, i, barred, need - left)
      decreases i
    {
      assert dl[i] == e[i - 1];
      UnlistedAt(Ids(r), first, e, i, barred, need - left);
      r, left := AppendOne(r, dl[i], kept, parents, left, first, e, i, need);
      i := i - 1;
    }
    SpillDone(Ids(r), first, e, i, barred, need, left);
  }

  lemma {:induction false} UnlistedAt(s: seq<Id>, first: seq<Id>, e: seq<Entry>, i: nat, barred: set<Id>, count: int)
    requires Spilling(s, first, e, i, barred, count) && Unlisted(e, first) && 0 < i
    ensures e[i - 1].mid * 2 < MAX_ID && e[i - 1].mid !in Spilled(first) && |s| < |first| + |e|
  {
  }

  lemma {:induction false} SpillDone(s: seq<Id>, first: seq<Id>, e: seq<Entry>, i: nat, barred: set<Id>, need: nat, left: int)
    requires Spilling(s, first, e, i, barred, need - left) && 0 <= left && (i == 0 || left == 0)
    ensures DidSpill(s, first, e, i, barred, need) && LiveOnce(s)
  {
  }

  method AppendOne(sl: array<Id>, x: Entry, kept: set<Id>, parents: seq<array<Id>>, left0: int,
                   ghost first: seq<Id>, ghost e: seq<Entry>, ghost i: nat, ghost need: nat)
    returns (r: array<Id>, left: int)
    requires Valid(sl) && sl !in parents && left0 > 0 && InOrder(parents)
    requires Spilling(Ids(sl), first, e, i, kept + Above(parents), need - left0) && 0 < i <= |e| && Ascending(e)
    requires x == e[i - 1] && x.mid * 2 < MAX_ID && x.mid !in Spilled(first) && |Ids(sl)| < MAX_ID
    modifies sl
    ensures Valid(r) && (r == sl || fresh(r)) && r !in parents && 0 <= left && InOrder(parents)
    ensures Above(parents) == old(Above(parents))
    ensures Spilling(Ids(r), first, e, i - 1, kept + Above(parents), need - left)
  {
    hide Spilling, Above, InOrder, Spilled, Ascending;
    ghost var s, barred := Ids(sl), kept + Above(parents);
    r, left := sl, left0;
    var found := InParent(parents, x.mid);
    if x.mid in kept || found {
      SpillSkip(s, first, e, i, barred, need - left0);
    } else {
      SpillOne(s, first, e, i, barred, need - left0);
      r := Append(sl, x.mid * 2);
      left := left - 1;
    }
  }

  // ---- taking a page back -----------------------------------------------------------------

  lemma {:induction false} DeletedOrder(s: seq<Id>, x: nat)
    requires SpillOrder(s) && x < |s| && Even(s[x])
    ensures s[x] < MAX_ID && SpillOrder(s[x := s[x] + 1]) && Spilled(s[x := s[x] + 1]) == Spilled(s) - {s[x] / 2}
  {
    var t := s[x := s[x] + 1];
    forall v: Id ensures v in t && Even(v) <==> v in s && Even(v) && v != s[x] {
      if v in t && Even(v) {
        var k :| 0 <= k < |t| && t[k] == v;
        assert s[k] == v && k != x;
      }
      if v in s && Even(v) && v != s[x] {
        var k :| 0 <= k < |s| && s[k] == v;
        assert t[k] == v;
      }
    }
  }

  lemma {:induction false} TruncatedOrder(s: seq<Id>)
    requires SpillOrder(s) && s != [] && Even(s[|s| - 1])
    ensures SpillOrder(s[..|s| - 1]) && Spilled(s[..|s| - 1]) == Spilled(s) - {s[|s| - 1] / 2}
  {
    var v, t := s[|s| - 1], s[..|s| - 1];
    assert s == t + [v];
    assert v !in t;
  }

  /** A page is no longer spilled: its entry is cut off or marked as deleted. */
  method DropEntry(sl: array<Id>, p: Id) returns (found: bool)
    requires Valid(sl) && SpillOrder(Ids(sl)) && p * 2 <= MAX_ID
    modifies sl
    ensures Valid(sl) && SpillOrder(Ids(sl))
    ensures found <==> p in Spilled(old(Ids(sl)))
    ensures Spilled(Ids(sl)) == Spilled(old(Ids(sl))) - {p}
  {
    ghost var s := Ids(sl);
    SpilledIs(s, p);
    var x := Search(sl, p * 2);
    hide Spilled, SpillOrder;
    found := x <= sl[0] && sl[x] == p * 2;
    if found {
      assert s[x - 1] == p * 2;
      CutEntry(sl, x);
    }
  }

  method CutEntry(sl: array<Id>, x: nat)
    requires Valid(sl) && SpillOrder(Ids(sl)) && 1 <= x <= sl[0] && Even(Ids(sl)[x - 1])
    modifies sl
    ensures Valid(sl) && SpillOrder(Ids(sl))
    ensures Spilled(Ids(sl)) == Spilled(old(Ids(sl))) - {old(Ids(sl))[x - 1] / 2}
  {
    ghost var s := Ids(sl);
    if x == sl[0] {
      TruncatedOrder(s);
      hide Spilled, SpillOrder;
      sl[0] := sl[0] - 1;
      assert Ids(sl) == s[..|s| - 1];
    } else {
      assert sl[x] == s[x - 1];
      DeletedOrder(s, x - 1);
      hide Spilled, SpillOrder;
      sl[x] := sl[x] + 1;
      assert Ids(sl) == s[x - 1 := s[x - 1] + 1];
    }
  }
}
