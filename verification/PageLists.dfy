/** The dirty and the spill list of a top-level write transaction beside the places of its
    pages: what makes the assertions about these lists hold. */
module PageLists {
  import opened IdList
  import opened PageLedger
  import opened TxnState

  /** First page numbers of the dirty and of the spill list, mt_dirty_room, and the mp_pages
      of the pages listed. */
  datatype Lists = Lists(dirty: set<Pgno>, spilled: set<Pgno>, room: nat, sizes: map<Pgno, nat>)

  predicate OnList(l: Lists, p: Pgno) {
    p in l.dirty || p in l.spilled
  }

  /** x is one of the pages that start with the listed page p. */
  predicate Covers(l: Lists, p: Pgno, x: Pgno) {
    OnList(l, p) && p in l.sizes && p <= x < p + l.sizes[p]
  }

  /** Pages in a tree, loose or freed: none of them could be handed out as a fresh one. */
  ghost function Taken(s: State): set<Pgno> {
    s.tree + Elems(s.loose) + Elems(s.freePgs)
  }

  /** Listed pages are taken, and the runs that start with them do not overlap. */
  ghost predicate Covered(l: Lists, taken: set<Pgno>) {
    && (forall p :: OnList(l, p) ==> Covers(l, p, p))
    && (forall p, x :: Covers(l, p, x) ==> x in taken)
    && (forall p, q, x :: Covers(l, p, x) && Covers(l, q, x) ==> p == q)
  }

  /** Loose pages are dirty, no page is in both lists, and the dirty list has the room that
      mt_dirty_room says. */
  ghost predicate Tracked(s: State, l: Lists) {
    && Elems(s.loose) <= l.dirty && l.dirty !! l.spilled && |l.dirty| + l.room <= IDL_UM_MAX
    && Covered(l, Taken(s))
  }

  // ---- a page enters the dirty list -------------------------------------------------------

  function Entered(l: Lists, p: Pgno, n: nat): Lists
    requires l.room > 0
  {
    l.(dirty := l.dirty + {p}, room := l.room - 1, sizes := l.sizes[p := n])
  }

  lemma {:induction false} CoveredEntered(l: Lists, taken: set<Pgno>, p: Pgno, n: nat)
    requires Covered(l, taken) && n > 0 && l.room > 0 && !OnList(l, p)
    requires forall x :: p <= x < p + n ==> x !in taken
    ensures Covered(Entered(l, p, n), taken + Run(p, n))
  {
    var m := Entered(l, p, n);
    forall q, x | q != p ensures Covers(m, q, x) <==> Covers(l, q, x) {
    }
    assert forall x: Pgno :: Covers(m, p, x) <==> p <= x < p + n;
  }

  /** Pages just taken from me_pghead or from the map are in neither list. */
  lemma {:induction false} Untracked(s: State, t: State, p: Pgno, n: nat, l: Lists)
    requires Tracked(s, l) && l.room > 0 && n > 0 && Sound(t)
    requires Run(p, n) !! s.tree && t.tree == s.tree + Run(p, n) && t.loose == s.loose && t.freePgs == s.freePgs
    ensures !OnList(l, p) && p !in l.dirty && Tracked(t, Entered(l, p, n))
  {
    forall x | p <= x < p + n ensures x !in Taken(s) {
      assert x in Run(p, n) && Has(Abs(t), InTree, x);
      Apart2(t, InTree, InLoose, x);
      Apart2(t, InTree, InFreed, x);
    }
    assert !OnList(l, p) by { assert Covers(l, p, p) ==> p in Taken(s); }
    CoveredEntered(l, Taken(s), p, n);
    assert Taken(t) == Taken(s) + Run(p, n);
  }

  // ---- pages move ------------------------------------------------------------------------------

  /** Moves among trees, loose list and mt_free_pgs change nothing, nor do moves elsewhere. */
  lemma {:induction false} TrackedMoved(s: State, t: State, l: Lists)
    requires Tracked(s, l) && Taken(s) <= Taken(t) && Elems(t.loose) <= l.dirty
    ensures Tracked(t, l)
  {
  }

  lemma {:induction false} TrackedKept(s: State, t: State, l: Lists)
    requires Tracked(s, l) && t.loose == s.loose && t.freePgs == s.freePgs && s.tree <= t.tree
    ensures Tracked(t, l)
  {
    TrackedMoved(s, t, l);
  }

  lemma {:induction false} TrackedTaken(s: State, t: State, p: Pgno, n: nat, l: Lists)
    requires Tracked(s, l) && t.loose == s.loose && t.freePgs == s.freePgs && t.tree == s.tree + Run(p, n)
    ensures Tracked(t, l)
  {
    TrackedMoved(s, t, l);
  }

  lemma {:induction false} TrackedSorted(s: State, t: State, l: Lists)
    requires Tracked(s, l) && t.loose == s.loose && t.tree == s.tree && Elems(t.freePgs) == Elems(s.freePgs)
    ensures Tracked(t, l)
  {
    TrackedMoved(s, t, l);
  }

  lemma {:induction false} TrackedReused(s: State, l: Lists)
    requires Tracked(s, l) && s.loose != []
    ensures Tracked(ReusedLoose(s), l) && AsPgno(s.loose[0]) in l.dirty
  {
    ElemsOne(s.loose[0]);
    ElemsConcat([s.loose[0]], s.loose[1..]);
    assert s.loose == [s.loose[0]] + s.loose[1..];
    TrackedMoved(s, ReusedLoose(s), l);
  }

  lemma {:induction false} TrackedLoosened(s: State, p: Pgno, l: Lists)
    requires Tracked(s, l) && p in l.dirty && p <= MAX_ID
    ensures Tracked(Loosened(s, p), l)
  {
    ElemsOne(p);
    ElemsConcat([p], s.loose);
    TrackedMoved(s, Loosened(s, p), l);
  }

  lemma {:induction false} TrackedFreed(s: State, pg: Pgno, n: nat, l: Lists)
    requires Tracked(s, l) && pg + n <= MAX_ID + 1
    ensures Tracked(Freed(s, pg, n), l)
  {
    ElemsRun(pg, n);
    ElemsConcat(s.freePgs, DescRun(pg, n));
    TrackedMoved(s, Freed(s, pg, n), l);
  }

  // ---- pages leave a list ----------------------------------------------------------------------

  lemma {:induction false} CoveredFewer(l: Lists, m: Lists, taken: set<Pgno>)
    requires Covered(l, taken) && m.sizes == l.sizes && forall p :: OnList(m, p) ==> OnList(l, p)
    ensures Covered(m, taken)
  {
    assert forall p, x :: Covers(m, p, x) ==> Covers(l, p, x);
    assert forall p :: OnList(m, p) ==> Covers(l, p, p) && Covers(m, p, p);
  }

  lemma {:induction false} Fewer(a: set<Pgno>, b: set<Pgno>)
    requires a <= b
    ensures |a| <= |b|
  {
    assert b == a + (b - a);
  }

  /** mdb_freelist_save: each loose page is found in the dirty list and leaves it. */
  lemma {:induction false} TrackedLooseFreed(s: State, l: Lists)
    requires Tracked(s, l)
    ensures Elems(s.loose) <= l.dirty && Tracked(LooseFreed(s), l.(dirty := l.dirty - Elems(s.loose)))
  {
    var m := l.(dirty := l.dirty - Elems(s.loose));
    ElemsConcat(s.freePgs, s.loose);
    Fewer(m.dirty, l.dirty);
    assert Elems([]) == {};
    assert Taken(LooseFreed(s)) == Taken(s);
    CoveredFewer(l, m, Taken(s));
  }

  /** mdb_page_spill: those of the pages that are dirty and not loose become spilled ones. */
  function Spilt(l: Lists, pages: set<Pgno>, loose: set<Pgno>): Lists {
    var moved := pages * l.dirty - loose;
    l.(dirty := l.dirty - moved, spilled := l.spilled + moved, room := l.room + |moved|)
  }

  lemma {:induction false} TrackedSpilled(s: State, l: Lists, pages: set<Pgno>)
    requires Tracked(s, l)
    ensures Tracked(s, Spilt(l, pages, Elems(s.loose)))
  {
    var m, moved := Spilt(l, pages, Elems(s.loose)), pages * l.dirty - Elems(s.loose);
    assert l.dirty == m.dirty + moved;
    CoveredFewer(l, m, Taken(s));
  }

  /** mdb_page_unspill */
  lemma {:induction false} TrackedUnspilled(s: State, l: Lists, p: Pgno)
    requires Tracked(s, l) && p in l.spilled && l.room > 0
    ensures p !in l.dirty && p in l.sizes
    ensures Entered(l.(spilled := l.spilled - {p}), p, l.sizes[p]) == TakenBack(l, p) && Tracked(s, TakenBack(l, p))
  {
    assert Covers(l, p, p);
    var m := Entered(l.(spilled := l.spilled - {p}), p, l.sizes[p]);
    assert m.sizes == l.sizes;
    CoveredFewer(l, m, Taken(s));
  }

  function TakenBack(l: Lists, p: Pgno): Lists {
    l.(spilled := l.spilled - {p}, dirty := l.dirty + {p}, room := if l.room > 0 then l.room - 1 else 0)
  }

  lemma {:induction false} ListedSize(s: State, l: Lists, p: Pgno)
    requires Tracked(s, l)
    ensures OnList(l, p) ==> p in l.sizes
  {
    assert OnList(l, p) ==> Covers(l, p, p);
  }

  /** There are few loose pages. */
  lemma {:induction false} LooseFew(s: State, l: Lists)
    requires Sound(s) && Tracked(s, l)
    ensures |s.loose| <= IDL_UM_MAX
  {
    DistinctSize(s.loose);
    Fewer(Elems(s.loose), l.dirty);
  }

  /** What is left of the lists when the page leaves the one it is in. */
  function Unlisted(l: Lists, p: Pgno): Lists {
    l.(dirty := l.dirty - {p}, spilled := l.spilled - {p}, room := l.room + if p in l.dirty then 1 else 0)
  }

  /** mdb_ovpage_free: no other listed page is in the run. */
  lemma {:induction false} TrackedGiven(s: State, l: Lists, pg: Pgno)
    requires Sound(s) && Tracked(s, l) && OnList(l, pg) && pg in l.sizes
    requires Run(pg, l.sizes[pg]) <= s.tree && pg + l.sizes[pg] <= MAX_ID + 1
    ensures Tracked(Given(s, pg, l.sizes[pg]), Unlisted(l, pg)) && l.dirty !! l.spilled
  {
    var n, m, t := l.sizes[pg], Unlisted(l, pg), Given(s, pg, l.sizes[pg]);
    assert Covers(l, pg, pg) && pg in Run(pg, n) && Has(Abs(s), InTree, pg);
    Apart2(s, InTree, InLoose, pg);
    assert pg in l.dirty ==> l.dirty == m.dirty + {pg};
    assert pg !in l.dirty ==> l.dirty == m.dirty;
    CoveredFewer(l, m, Taken(s));
    forall p, x | Covers(m, p, x) ensures x in Taken(t) {
      assert Covers(l, p, x) && p != pg;
      assert !Covers(l, pg, x);
      assert x !in Run(pg, n);
    }
  }
}
