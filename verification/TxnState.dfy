/** The page lists of a top-level write transaction, as a value: what mdb_page_alloc,
    mdb_page_touch, mdb_page_loose, mdb_ovpage_free and mdb_freelist_save work on, and
    how each of their moves acts on the ledger of pages. */
module TxnState {
  import opened IdList
  import opened RunList
  import opened PageLedger

  /** A freeDB record: an id list, and the number of ids its data item has room for. */
  datatype Record = Record(room: nat, ids: seq<Id>)

  datatype State = State(
    txnid: TxnId,
    maxPg: nat,                     // me_maxpg
    hasHead: bool,                  // me_pghead != NULL
    head: seq<Id>,                  // me_pghead
    last: TxnId,                    // me_pglast
    freeDb: map<TxnId, Record>,
    tree: set<Pgno>,                // the pages the databases refer to
    loose: seq<Id>,                 // mt_loose_pgs
    freePgs: seq<Id>,               // mt_free_pgs
    next: nat)                      // mt_next_pgno

  ghost function Elems(s: seq<Id>): (r: set<Pgno>)
    ensures forall x: Pgno :: x in r <==> At(s, x)
  {
    set i: int | 0 <= i < |s| :: AsPgno(s[i])
  }

  function AsPgno(x: Id): Pgno { x }

  ghost predicate Distinct(s: seq<Id>) {
    forall i, j :: 0 <= i < j < |s| ==> s[i] != s[j]
  }

  /** The records mdb_page_alloc may still consume; the transaction's own is not one. */
  ghost function Records(s: State): map<TxnId, set<Pgno>> {
    map k | k in s.freeDb && k != s.txnid :: Elems(s.freeDb[k].ids)
  }

  ghost function Abs(s: State): Ledger {
    Ledger(s.tree, Elems(s.loose), Elems(s.freePgs), s.hasHead, Elems(s.head), s.last, Records(s), s.next)
  }

  ghost predicate Sound(s: State) {
    && StrictlyDescending(s.head) && Distinct(s.loose) && Distinct(s.freePgs)
    && (forall k :: k in s.freeDb ==> 1 <= k <= s.txnid && (s.last < k < s.txnid ==> StrictlyDescending(s.freeDb[k].ids)))
    && (s.hasHead <==> s.last > 0) && (!s.hasHead ==> s.head == [])
    && s.last < s.txnid
    && s.next <= s.maxPg < MAX_ID
    && Conserved(Abs(s))
  }

  // ---- facts about lists -------------------------------------------------------------------

  lemma {:induction false} ElemsConcat(a: seq<Id>, b: seq<Id>)
    ensures Elems(a + b) == Elems(a) + Elems(b)
  {
    forall x: Pgno ensures x in Elems(a + b) <==> x in Elems(a) || x in Elems(b) {
      AtConcat(a, [], b, x);
      assert a + [] + b == a + b;
    }
  }

  lemma {:induction false} ElemsOne(p: Id)
    ensures Elems([p]) == {p}
  {
    forall x: Pgno ensures x in Elems([p]) <==> x == p {
      if x == p { assert [p][0] == x; }
    }
  }

  lemma {:induction false} ElemsRun(pg: nat, n: nat)
    requires pg + n <= MAX_ID + 1
    ensures Elems(DescRun(pg, n)) == Run(pg, n)
  {
    forall x: Pgno ensures x in Elems(DescRun(pg, n)) <==> x in Run(pg, n) {
      AtRun(pg, n, x);
    }
  }

  lemma {:induction false} AtIn(s: seq<Id>, x: int)
    ensures At(s, x) <==> x in s
  {
  }

  lemma {:induction false} ElemsMerged(a: seq<Id>, b: seq<Id>)
    ensures Elems(Merged(a, b)) == Elems(a) + Elems(b)
  {
    var m := Merged(a, b);
    MergedMultiset(a, b);
    forall x: Pgno ensures x in Elems(m) <==> x in Elems(a) || x in Elems(b) {
      InMerged(m, a, b, x);
    }
  }

  lemma {:induction false} InMerged(m: seq<Id>, a: seq<Id>, b: seq<Id>, x: int)
    requires multiset(m) == multiset(a) + multiset(b)
    ensures At(m, x) <==> At(a, x) || At(b, x)
  {
    if x < 0 || x > MAX_ID {
      assert !At(m, x) && !At(a, x) && !At(b, x);
    } else {
      var y: Id := x;
      assert y in m <==> y in multiset(m);
      assert y in a <==> y in multiset(a);
      assert y in b <==> y in multiset(b);
      AtIn(m, y);
      AtIn(a, y);
      AtIn(b, y);
    }
  }

  /** A strictly descending list of page numbers below n has at most n of them. */
  lemma {:induction false} LengthBound(s: seq<Id>, n: nat)
    requires StrictlyDescending(s) && forall x: Pgno :: x in Elems(s) ==> x < n
    ensures |s| <= n
  {
    if s != [] {
      Gap(s, 0, |s| - 1);
      assert At(s, s[0]);
      assert AsPgno(s[0]) in Elems(s);
    }
  }

  lemma {:induction false} DistinctConcat(a: seq<Id>, b: seq<Id>)
    requires Distinct(a) && Distinct(b) && Elems(a) !! Elems(b)
    ensures Distinct(a + b)
  {
    forall i, j | 0 <= i < j < |a + b| ensures (a + b)[i] != (a + b)[j] {
      if i < |a| <= j {
        assert AsPgno(a[i]) in Elems(a) && AsPgno(b[j - |a|]) in Elems(b);
      }
    }
  }

  lemma {:induction false} DistinctSize(s: seq<Id>)
    requires Distinct(s)
    ensures |Elems(s)| == |s|
    decreases |s|
  {
    if s == [] {
      assert Elems(s) == {};
    } else {
      DistinctSize(s[1..]);
      ElemsOne(s[0]);
      assert s == [s[0]] + s[1..];
      ElemsConcat([s[0]], s[1..]);
      assert AsPgno(s[0]) !in Elems(s[1..]);
    }
  }

  // ---- the moves -----------------------------------------------------------------------------

  lemma {:induction false} Below(s: State, place: Place, p: Pgno)
    requires Sound(s) && Has(Abs(s), place, p)
    ensures NUM_METAS <= p < s.next
  {
    assert Somewhere(Abs(s), p);
  }

  lemma {:induction false} Apart2(s: State, a: Place, b: Place, p: Pgno)
    requires Sound(s) && Has(Abs(s), a, p) && a != b
    ensures !Has(Abs(s), b, p)
  {
  }

  function ReusedLoose(s: State): State
    requires s.loose != []
  {
    s.(loose := s.loose[1..], tree := s.tree + {AsPgno(s.loose[0])})
  }

  /** mdb_page_alloc, first branch. */
  lemma {:induction false} ReusedLooseIs(s: State)
    requires Sound(s) && s.loose != []
    ensures var p := AsPgno(s.loose[0]);
            && Can(Abs(s), ReuseLoose(p)) && Abs(ReusedLoose(s)) == Do(Abs(s), ReuseLoose(p)) && Sound(ReusedLoose(s))
  {
    var p, t := AsPgno(s.loose[0]), ReusedLoose(s);
    ElemsOne(s.loose[0]);
    ElemsConcat([s.loose[0]], s.loose[1..]);
    assert s.loose == [s.loose[0]] + s.loose[1..];
    assert p !in Elems(s.loose[1..]);
    assert Elems(t.loose) == Elems(s.loose) - {p};
    assert Records(t) == Records(s);
    DoConserves(Abs(s), ReuseLoose(p));
  }

  /** The record mdb_page_alloc reads next: the one with the smallest key above me_pglast. */
  ghost predicate NextKey(s: State, k: TxnId) {
    k in s.freeDb && s.last < k && forall j :: j in s.freeDb && s.last < j ==> k <= j
  }

  function Consumed(s: State, k: TxnId): State
    requires k in s.freeDb
  {
    s.(hasHead := true, head := Merged(s.head, s.freeDb[k].ids), last := k)
  }

  lemma {:induction false} ConsumedIs(s: State, k: TxnId)
    requires Sound(s) && NextKey(s, k) && k < s.txnid
    ensures |s.head| + |s.freeDb[k].ids| <= MAX_ID
    ensures Can(Abs(s), Consume(k)) && Abs(Consumed(s, k)) == Do(Abs(s), Consume(k)) && Sound(Consumed(s, k))
  {
    var t, ids := Consumed(s, k), s.freeDb[k].ids;
    assert Records(t) == Records(s);
    assert Records(s)[k] == Elems(ids);
    ElemsMerged(s.head, ids);
    forall x | x in s.head ensures x !in ids {
      var p := AsPgno(x);
      AtIn(s.head, x);
      AtIn(ids, x);
      if x in ids {
        assert Has(Abs(s), InHead, p) && Has(Abs(s), InRecord(k), p);
      }
    }
    MergedStrict(s.head, ids);
    forall x: Pgno | x in Elems(t.head) ensures x < s.next {
      Below(s, if x in Elems(s.head) then InHead else InRecord(k), x);
    }
    LengthBound(t.head, s.next);
    DoConserves(Abs(s), Consume(k));
  }

  function TookRun(s: State, i: nat, n: nat): State
    requires n <= i <= |s.head| && i > 0
  {
    s.(head := RunList.Without(s.head, i, n), tree := s.tree + Run(AsPgno(s.head[i - 1]), n))
  }

  lemma {:induction false} TookRunIs(s: State, i: nat, n: nat)
    requires Sound(s) && 0 < n <= i <= |s.head| && s.head[i - 1] + n <= MAX_ID + 1
    requires s.head[i - n..i] == DescRun(s.head[i - 1], n)
    ensures var op := TakeHead(Run(s.head[i - 1], n));
            Can(Abs(s), op) && Abs(TookRun(s, i, n)) == Do(Abs(s), op) && Sound(TookRun(s, i, n))
  {
    var p, t := AsPgno(s.head[i - 1]), TookRun(s, i, n);
    WithoutIs(s.head, i, n);
    forall x | x in Run(p, n) ensures x in Elems(s.head) {
      RunInside(s.head, i, n, x);
    }
    assert Elems(t.head) == Elems(s.head) - Run(p, n);
    assert Records(t) == Records(s);
    DoConserves(Abs(s), TakeHead(Run(p, n)));
  }

  lemma {:induction false} RunInside(s: seq<Id>, i: nat, n: nat, x: nat)
    requires 0 < n <= i <= |s| && s[i - 1] + n <= MAX_ID + 1
    requires s[i - n..i] == DescRun(s[i - 1], n) && s[i - 1] <= x < s[i - 1] + n
    ensures At(s, x)
  {
    assert s[i - n..i][n - 1 - (x - s[i - 1])] == x;
  }

  function TookNew(s: State, n: nat): State {
    s.(tree := s.tree + Run(s.next, n), next := s.next + n)
  }

  lemma {:induction false} TookNewIs(s: State, n: nat)
    requires Sound(s) && s.next + n <= s.maxPg
    ensures Can(Abs(s), TakeNew(n)) && Abs(TookNew(s, n)) == Do(Abs(s), TakeNew(n)) && Sound(TookNew(s, n))
  {
    assert Records(TookNew(s, n)) == Records(s);
    DoConserves(Abs(s), TakeNew(n));
  }

  /** Pages of the trees onto mt_free_pgs. */
  function Freed(s: State, pg: Pgno, n: nat): State
    requires pg + n <= MAX_ID + 1
  {
    s.(tree := s.tree - Run(pg, n), freePgs := s.freePgs + DescRun(pg, n))
  }

  lemma {:induction false} FreedIs(s: State, pg: Pgno, n: nat)
    requires Sound(s) && Run(pg, n) <= s.tree && pg + n <= MAX_ID + 1
    ensures Can(Abs(s), Op.Free(Run(pg, n))) && Abs(Freed(s, pg, n)) == Do(Abs(s), Op.Free(Run(pg, n)))
    ensures Sound(Freed(s, pg, n))
  {
    var t := Freed(s, pg, n);
    ElemsRun(pg, n);
    ElemsConcat(s.freePgs, DescRun(pg, n));
    forall x: Pgno | x in Elems(s.freePgs) ensures x !in Run(pg, n) {
      Apart2(s, InFreed, InTree, x);
    }
    DistinctConcat(s.freePgs, DescRun(pg, n));
    assert Records(t) == Records(s);
    DoConserves(Abs(s), Op.Free(Run(pg, n)));
  }

  function Loosened(s: State, p: Pgno): State
    requires p <= MAX_ID
  {
    s.(tree := s.tree - {p}, loose := [p] + s.loose)
  }

  lemma {:induction false} LoosenedIs(s: State, p: Pgno)
    requires Sound(s) && p in s.tree && p <= MAX_ID
    ensures Can(Abs(s), Loosen(p)) && Abs(Loosened(s, p)) == Do(Abs(s), Loosen(p)) && Sound(Loosened(s, p))
  {
    var t := Loosened(s, p);
    ElemsOne(p);
    ElemsConcat([p], s.loose);
    assert p !in Elems(s.loose) by { Apart2(s, InTree, InLoose, p); }
    DistinctConcat([p], s.loose);
    assert Records(t) == Records(s);
    DoConserves(Abs(s), Loosen(p));
  }

  function Given(s: State, pg: Pgno, n: nat): State
    requires pg + n <= MAX_ID + 1
  {
    s.(tree := s.tree - Run(pg, n), head := RunInserted(s.head, pg, n))
  }

  lemma {:induction false} GivenIs(s: State, pg: Pgno, n: nat)
    requires Sound(s) && s.hasHead && Run(pg, n) <= s.tree && pg + n <= MAX_ID + 1
    ensures |s.head| + n <= MAX_ID
    ensures Can(Abs(s), Release(Run(pg, n))) && Abs(Given(s, pg, n)) == Do(Abs(s), Release(Run(pg, n)))
    ensures Sound(Given(s, pg, n))
  {
    var t := Given(s, pg, n);
    forall i | 0 <= i < |s.head| ensures !(pg <= s.head[i] < pg + n) {
      assert At(s.head, s.head[i]);
      Apart2(s, InHead, InTree, AsPgno(s.head[i]));
    }
    RunInsertedIs(s.head, pg, n);
    assert Elems(t.head) == Elems(s.head) + Run(pg, n);
    forall x: Pgno | x in Elems(t.head) ensures x < s.next {
      Below(s, if x in Elems(s.head) then InHead else InTree, x);
    }
    LengthBound(t.head, s.next);
    assert Records(t) == Records(s);
    DoConserves(Abs(s), Release(Run(pg, n)));
  }

  /** mdb_freelist_save without me_pghead: loose pages count as freed. */
  function LooseFreed(s: State): State {
    s.(freePgs := s.freePgs + s.loose, loose := [])
  }

  lemma {:induction false} LooseFreedIs(s: State)
    requires Sound(s) && !s.hasHead
    ensures Can(Abs(s), FreeLoose) && Abs(LooseFreed(s)) == Do(Abs(s), FreeLoose) && Sound(LooseFreed(s))
  {
    var t := LooseFreed(s);
    ElemsConcat(s.freePgs, s.loose);
    forall x: Pgno | x in Elems(s.freePgs) ensures x !in Elems(s.loose) {
      Apart2(s, InFreed, InLoose, x);
    }
    DistinctConcat(s.freePgs, s.loose);
    assert Elems([]) == {};
    assert Records(t) == Records(s);
    DoConserves(Abs(s), FreeLoose);
  }
}
