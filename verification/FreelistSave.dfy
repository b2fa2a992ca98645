/** mdb_freelist_save: writing the free lists into the freeDB while doing so still
    allocates and frees pages. */
module FreelistSave {
  import opened IdList
  import opened IdSort
  import opened RunList
  import opened PageLedger
  import opened TxnState
  import opened PageLists
  import opened WriteTxn
  import Words

  // ---- work on the freeDB's own tree -----------------------------------------------------------

  /** What a cursor operation on the freeDB does to its pages: in any order and number, it
      adds pages, touches, drops a page, frees an overflow run, and spills dirty pages. */
  datatype Act =
    | AddPages(n: nat) | Touch(page: Pgno) | DropPage(page: Pgno) | DropRun(first: Pgno, count: nat)
    | SpillPages(pages: set<Pgno>)

  lemma {:induction false} WorkedThen(r: State, s: State, t: State)
    requires OnlyWorked(r, s) && OnlyWorked(s, t)
    ensures OnlyWorked(r, t)
  {
  }

  lemma {:induction false} AllocatedWorked(s: State, ops: seq<Op>, t: State, pgno: Pgno, n: nat)
    requires Allocated(s, ops, t, pgno, n)
    ensures OnlyWorked(s, t)
  {
  }

  /** One of them; an act on a page that is not in a tree does nothing. */
  method PerformOne(t: Txn, act: Act) returns (rc: Code)
    requires t.Ok()
    modifies t, t.pgHead
    ensures t.Ok() && (t.pgHead == old(t.pgHead) || fresh(t.pgHead))
    ensures OnlyWorked(old(t.Now()), t.Now())
    ensures rc == Success || t.error
  {
    hide Sound, Abs, Ran, Tracked, OnlyWorked;
    NothingFetched(t.Now());
    FetchedRan(t.Now(), [], t.Now());
    rc := Success;
    match act
    case AddPages(n) =>
      if n > 0 { rc := Add(t, n); }
    case Touch(p) =>
      if p in t.tree {
        var np; ghost var ops;
        rc, np, ops := t.PageTouch(p);
      }
    case DropPage(p) =>
      if p in t.tree { Drop(t, p); }
    case DropRun(pg, n) =>
      if n > 0 && Run(pg, n) <= t.tree && (pg in t.dirty + t.spilled && pg in t.sizes ==> n == t.sizes[pg]) {
        DropAll(t, pg, n);
      }
    case SpillPages(pages) =>
      t.PageSpill(pages);
  }

  method Add(t: Txn, n: nat) returns (rc: Code)
    requires t.Ok() && n > 0
    modifies t, t.pgHead
    ensures t.Ok() && (t.pgHead == old(t.pgHead) || fresh(t.pgHead))
    ensures OnlyWorked(old(t.Now()), t.Now()) && (rc == Success || t.error)
  {
    hide Sound, Abs, Ran, Allocated, OnlyFetched, Tracked, OnlyWorked, ReusedLoose, HasRun, Guarded;
    var pgno; ghost var ops;
    rc, pgno, ops := t.PageAlloc(n);
    if rc == Success {
      AllocatedWorked(old(t.Now()), ops, t.Now(), pgno, n);
    } else {
      FetchedRan(old(t.Now()), ops, t.Now());
    }
  }

  method Drop(t: Txn, p: Pgno)
    requires t.Ok() && p in t.tree
    modifies t, t.pgHead
    ensures t.Ok() && t.pgHead == old(t.pgHead) && OnlyWorked(old(t.Now()), t.Now())
  {
    hide Sound, Abs, Ran, Tracked;
    ghost var ops := t.PageLoose(p, true);
  }

  method DropAll(t: Txn, pg: Pgno, n: nat)
    requires t.Ok() && n > 0 && Run(pg, n) <= t.tree && (pg in t.dirty + t.spilled && pg in t.sizes ==> n == t.sizes[pg])
    modifies t, t.pgHead
    ensures t.Ok() && (t.pgHead == old(t.pgHead) || fresh(t.pgHead)) && OnlyWorked(old(t.Now()), t.Now())
  {
    hide Sound, Abs, Ran, Tracked;
    ghost var ops := t.OvpageFree(pg, n);
  }

  method Perform(t: Txn, acts: seq<Act>) returns (rc: Code)
    requires t.Ok()
    modifies t, t.pgHead
    ensures t.Ok() && (t.pgHead == old(t.pgHead) || fresh(t.pgHead))
    ensures OnlyWorked(old(t.Now()), t.Now())
    ensures rc == Success || t.error
    ensures acts == [] ==> rc == Success && t.Now() == old(t.Now())
  {
    hide Sound, OnlyWorked, Tracked;
    NothingFetched(t.Now());
    FetchedRan(t.Now(), [], t.Now());
    for i := 0 to |acts|
      modifies t, t.pgHead
      invariant t.Ok() && (t.pgHead == old(t.pgHead) || fresh(t.pgHead))
      invariant OnlyWorked(old(t.Now()), t.Now()) && (i == 0 ==> t.Now() == old(t.Now()))
    {
      ghost var s := t.Now();
      rc := PerformOne(t, acts[i]);
      WorkedThen(old(t.Now()), s, t.Now());
      if rc != Success { return; }
    }
    rc := Success;
  }

  // ---- records that page_alloc cannot see ------------------------------------------------------

  /** Records up to me_pglast, and the transaction's own, may change freely. */
  lemma {:induction false} RecordsHidden(s: State, db: map<TxnId, Record>)
    requires Sound(s)
    requires forall k :: k in db ==> 1 <= k <= s.txnid
    requires forall k :: s.last < k < s.txnid ==> (k in db <==> k in s.freeDb)
    requires forall k :: s.last < k < s.txnid && k in db ==> db[k] == s.freeDb[k]
    ensures Sound(s.(freeDb := db))
  {
    var t := s.(freeDb := db);
    assert forall k, p :: s.last < k ==> (Listed(Records(t), k, p) <==> Listed(Records(s), k, p));
    assert forall place, p :: Has(Abs(t), place, p) <==> Has(Abs(s), place, p);
    assert forall p :: Somewhere(Abs(t), p) <==> Somewhere(Abs(s), p);
  }

  /** The room in all records up to key n. */
  ghost function RoomSum(db: map<TxnId, Record>, n: nat): nat {
    if n == 0 then 0 else RoomSum(db, n - 1) + RoomAt(db, n)
  }

  ghost function RoomAt(db: map<TxnId, Record>, k: TxnId): nat {
    if k in db then db[k].room else 0
  }

  lemma {:induction false} RoomSumNone(db: map<TxnId, Record>, n: nat)
    requires forall k :: 1 <= k <= n ==> k !in db
    ensures RoomSum(db, n) == 0
    decreases n
  {
    if n == 0 {
    } else {
      RoomSumNone(db, n - 1);
    }
  }

  lemma {:induction false} RoomSumSame(a: map<TxnId, Record>, b: map<TxnId, Record>, n: nat)
    requires forall k :: 1 <= k <= n ==> RoomAt(a, k) == RoomAt(b, k)
    ensures RoomSum(a, n) == RoomSum(b, n)
    decreases n
  {
    if n == 0 {
    } else {
      RoomSumSame(a, b, n - 1);
    }
  }

  lemma {:induction false} RoomSumPut(db: map<TxnId, Record>, k: TxnId, r: Record, n: nat)
    requires 1 <= k <= n
    ensures RoomSum(db[k := r], n) == RoomSum(db, n) - RoomAt(db, k) + r.room
    decreases n
  {
    if k == n {
      RoomSumSame(db, db[k := r], n - 1);
    } else {
      RoomSumPut(db, k, r, n - 1);
    }
  }

  // ---- the state of the loop ---------------------------------------------------------------------

  /** The locals of mdb_freelist_save, and whether sorting mt_free_pgs stayed within int. */
  datatype Saver = Saver(pglast: TxnId, headId: TxnId, headRoom: nat, totalRoom: nat, freecnt: nat, more: int, fits: bool)

  /** The record of the transaction's own id lists the first n pages of mt_free_pgs, in
      order if the sort worked. */
  ghost predicate OwnSaved(s: State, n: nat, fits: bool) {
    && n <= |s.freePgs| && (|s.freePgs| <= SORT_MAX ==> fits)
    && if n == 0 then s.txnid !in s.freeDb
       else s.txnid in s.freeDb && (fits ==> StrictlyDescending(s.freeDb[s.txnid].ids))
            && Elems(s.freeDb[s.txnid].ids) == Elems(s.freePgs[..n])
  }

  /** The records up to pglast are empty ones reserved for me_pghead, from headId on, and
      totalRoom is the room in them. */
  ghost predicate Reserved(db: map<TxnId, Record>, v: Saver) {
    if v.pglast == 0 then v.headId == 0 && v.headRoom == 0 && v.totalRoom == 0
    else
      && 1 <= v.headId <= v.pglast
      && (forall k :: k in db && k <= v.pglast ==> v.headId <= k && db[k].ids == [])
      && v.totalRoom == RoomSum(db, v.pglast)
      && v.headRoom == RoomAt(db, v.headId)
  }

  ghost predicate SavingHead(s: State, v: Saver) {
    && Sound(s) && (s.hasHead || s.loose == [])
    && v.pglast <= s.last && (v.pglast < s.last ==> s.last in s.freeDb)
    && Reserved(s.freeDb, v)
  }

  ghost predicate Saving(s: State, v: Saver) {
    SavingHead(s, v) && OwnSaved(s, v.freecnt, v.fits)
  }

  // ---- when the B-tree code needs no pages ---------------------------------------------------------

  predicate Still(scripts: seq<seq<Act>>) {
    forall i :: 0 <= i < |scripts| ==> scripts[i] == []
  }

  ghost predicate SameLists(s: State, t: State) {
    && t.txnid == s.txnid && t.hasHead == s.hasHead && t.head == s.head && t.last == s.last && t.loose == s.loose
    && |t.freePgs| == |s.freePgs|
  }

  /** How many records there are to delete. */
  ghost function Stale(db: map<TxnId, Record>, last: TxnId): nat {
    |set k | k in db && k <= last|
  }

  lemma {:induction false} StaleFewer(db: map<TxnId, Record>, less: map<TxnId, Record>, k: TxnId, last: TxnId)
    requires k in db && k <= last && less == map j | j in db && j != k :: db[j]
    ensures Stale(less, last) + 1 == Stale(db, last)
  {
    var a, b := set j | j in db && j <= last, set j | j in less && j <= last;
    assert a == b + {k};
  }

  lemma {:induction false} StaleBound(db: map<TxnId, Record>, last: TxnId)
    requires forall k :: k in db ==> 1 <= k
    ensures Stale(db, last) <= last
  {
    RunSize(1, last);
    var keys := set k | k in db && k <= last;
    Fewer(keys, Run(1, last));
  }

  lemma {:induction false} SavingHeadWorked(s: State, t: State, v: Saver)
    requires SavingHead(s, v) && Sound(t) && OnlyWorked(s, t)
    ensures SavingHead(t, v)
  {
    assert |t.loose| <= |s.loose|;
  }

  lemma {:induction false} SavingWorked(s: State, t: State, v: Saver)
    requires Saving(s, v) && Sound(t) && OnlyWorked(s, t)
    ensures Saving(t, v)
  {
    SavingHeadWorked(s, t, v);
    assert t.freePgs[..v.freecnt] == s.freePgs[..v.freecnt];
  }

  /** The first record of the freeDB is deleted. */
  lemma {:induction false} Deleted(s: State, t: State, v: Saver, k: TxnId)
    requires Saving(s, v) && k in s.freeDb && k <= s.last && (forall j :: j in s.freeDb ==> k <= j)
    requires v.pglast < s.last
    requires t == s.(freeDb := map j | j in s.freeDb && j != k :: s.freeDb[j])
    ensures Saving(t, v.(pglast := k, headId := k, headRoom := 0, totalRoom := 0))
  {
    RecordsHidden(s, t.freeDb);
    RoomSumNone(t.freeDb, k);
  }

  /** A record for me_pghead is written over or added in front. */
  lemma {:induction false} ReservedOne(s: State, t: State, v: Saver, room: nat)
    requires Saving(s, v) && v.pglast > 0
    requires t == s.(freeDb := s.freeDb[v.headId := Record(room, [])])
    ensures v.totalRoom >= v.headRoom
    ensures Saving(t, v.(headRoom := room, totalRoom := v.totalRoom - v.headRoom + room))
  {
    ReservedSum(s, v, room);
    RecordsHidden(s, t.freeDb);
    hide Sound, RoomSum;
  }

  lemma {:induction false} ReservedSum(s: State, v: Saver, room: nat)
    requires Saving(s, v) && v.pglast > 0
    ensures v.totalRoom >= v.headRoom
    ensures RoomSum(s.freeDb[v.headId := Record(room, [])], v.pglast) == v.totalRoom - v.headRoom + room
  {
    hide Sound, OwnSaved;
    RoomSumPut(s.freeDb, v.headId, Record(room, []), v.pglast);
    RoomSumPut(s.freeDb, v.headId, Record(0, []), v.pglast);
  }

  lemma {:induction false} NextHead(s: State, v: Saver)
    requires Saving(s, v) && v.headId > 1
    ensures Saving(s, v.(headId := v.headId - 1, headRoom := 0))
  {
  }

  /** Space for the own record is reserved, with nothing in it yet. */
  lemma {:induction false} OwnReserved(s: State, t: State, v: Saver, room: nat)
    requires SavingHead(s, v) && t == s.(freeDb := s.freeDb[s.txnid := Record(room, [])])
    ensures SavingHead(t, v)
  {
    RecordsHidden(s, t.freeDb);
    RoomSumSame(s.freeDb, t.freeDb, v.pglast);
  }

  /** The own record now lists all of mt_free_pgs. */
  lemma {:induction false} OwnWritten(s: State, t: State, v: Saver, room: nat, sorted: seq<Id>, fits: bool)
    requires SavingHead(s, v) && Distinct(sorted) && sorted != []
    requires (fits ==> StrictlyDescending(sorted)) && (|sorted| <= SORT_MAX ==> fits)
    requires multiset(sorted) == multiset(s.freePgs)
    requires t == s.(freePgs := sorted, freeDb := s.freeDb[s.txnid := Record(room, sorted)])
    ensures Saving(t, v.(freecnt := |sorted|, fits := fits))
  {
    ElemsSame(sorted, s.freePgs);
    var u := s.(freePgs := sorted);
    assert Records(u) == Records(s);
    assert Abs(u) == Abs(s);
    RecordsHidden(u, t.freeDb);
    assert sorted[..|sorted|] == sorted;
    RoomSumSame(s.freeDb, t.freeDb, v.pglast);
  }

  lemma {:induction false} ElemsSame(a: seq<Id>, b: seq<Id>)
    requires multiset(a) == multiset(b)
    ensures Elems(a) == Elems(b)
  {
    forall x: Pgno ensures x in Elems(a) <==> x in Elems(b) {
      InMerged(a, b, [], x);
    }
  }

  // ---- the loop ----------------------------------------------------------------------------------

  /** Every record up to me_pglast goes, whether consumed or reserved earlier. */
  method DropConsumed(t: Txn, v0: Saver, scripts0: seq<seq<Act>>) returns (ok: bool, v: Saver, scripts: seq<seq<Act>>)
    requires t.Ok() && Saving(t.Now(), v0)
    modifies t, t.pgHead
    ensures t.Ok() && (t.pgHead == old(t.pgHead) || fresh(t.pgHead))
    ensures |scripts| <= |scripts0| && (ok || t.error)
    ensures ok ==> Saving(t.Now(), v) && v.pglast == t.pgLast && (v == v0 || v == Dropped(v0, v.pglast))
    ensures v0.pglast == old(t.pgLast) ==> ok && v == v0 && scripts == scripts0 && t.Now() == old(t.Now())
    ensures Still(scripts0) && |scripts0| >= Stale(old(t.freeDb), old(t.pgLast)) ==>
              ok && Still(scripts) && SameLists(old(t.Now()), t.Now()) && |scripts| + Stale(old(t.freeDb),
                     old(t.pgLast)) >= |scripts0|
  {
    hide Sound, OnlyWorked, Saving, Tracked, Stale;
    v, scripts := v0, scripts0;
    while v.pglast < t.pgLast
      modifies t, t.pgHead
      invariant t.Ok() && (t.pgHead == old(t.pgHead) || fresh(t.pgHead))
      invariant Saving(t.Now(), v) && (v == v0 || v == Dropped(v0, v.pglast))
      invariant |scripts| <= |scripts0| && (v0.pglast == old(t.pgLast) ==> v == v0 && scripts == scripts0 && t.Now() == old(t.Now()))
      invariant Still(scripts0) ==> Still(scripts) && SameLists(old(t.Now()), t.Now())
      invariant Still(scripts0) ==> |scripts| + Stale(old(t.freeDb), old(t.pgLast)) == |scripts0| + Stale(t.freeDb, t.pgLast)
      decreases |scripts|
    {
      if scripts == [] {
        StaleSome(t.Now(), v);
        t.Fail();
        return false, v, scripts;
      }
      ok, v := DropFirst(t, v, scripts[0]);
      scripts := scripts[1..];
      if !ok { return; }
    }
    ok := true;
    AtLast(t.Now(), v);
  }

  function Dropped(v: Saver, pglast: TxnId): Saver {
    v.(pglast := pglast, headId := pglast, headRoom := 0, totalRoom := 0)
  }

  lemma {:induction false} StaleSome(s: State, v: Saver)
    requires Saving(s, v) && v.pglast < s.last
    ensures Stale(s.freeDb, s.last) > 0
  {
    var keys := set k | k in s.freeDb && k <= s.last;
    assert s.last in keys;
  }

  method DropFirst(t: Txn, v0: Saver, script: seq<Act>) returns (ok: bool, v: Saver)
    requires t.Ok() && Saving(t.Now(), v0) && v0.pglast < t.pgLast
    modifies t, t.pgHead
    ensures t.Ok() && (t.pgHead == old(t.pgHead) || fresh(t.pgHead))
    ensures ok ==> Saving(t.Now(), v) && v == v0.(pglast := v.pglast, headId := v.pglast, headRoom := 0, totalRoom := 0)
    ensures ok || t.error
    ensures script == [] ==> ok && SameLists(old(t.Now()), t.Now())
    ensures script == [] ==> Stale(t.freeDb, t.pgLast) + 1 == Stale(old(t.freeDb), t.pgLast)
  {
    hide Sound, Saving, OnlyWorked, Tracked, Stale;
    ghost var s := t.Now();
    LastThere(s, v0);
    var key := Smallest(t.freeDb.Keys);
    var rc := Perform(t, script);
    ok, v := rc == Success, v0;
    if ok {
      ghost var u := t.Now();
      SavingWorked(s, u, v0);
      WorkedKeeps(s, u);
      var db := map j | j in t.freeDb && j != key :: t.freeDb[j];
      v := v0.(pglast := key, headId := key, headRoom := 0, totalRoom := 0);
      if key <= t.pgLast {
        StaleFewer(t.freeDb, db, key, t.pgLast);
      }
      Deleted(u, u.(freeDb := db), v0, key);
      SavingSound(u.(freeDb := db), v);
      t.SetRecords(db);
    }
  }

  lemma {:induction false} LastThere(s: State, v: Saver)
    requires Saving(s, v) && v.pglast < s.last
    ensures s.last in s.freeDb
  {
  }

  lemma {:induction false} AtLast(s: State, v: Saver)
    requires Saving(s, v)
    ensures v.pglast <= s.last
  {
  }

  lemma {:induction false} SavingSound(s: State, v: Saver)
    requires Saving(s, v)
    ensures Sound(s)
  {
  }

  lemma {:induction false} WorkedKeeps(s: State, t: State)
    requires OnlyWorked(s, t)
    ensures s.freeDb == t.freeDb && s.last <= t.last && |s.freePgs| <= |t.freePgs| && s.txnid == t.txnid
  {
  }

  lemma {:induction false} DistinctOnce(s: seq<Id>, x: Id)
    requires Distinct(s)
    ensures multiset(s)[x] <= 1
    decreases |s|
  {
    if s == [] {
    } else {
      DistinctOnce(s[1..], x);
      assert s == [s[0]] + s[1..];
      assert s[0] !in s[1..];
      assert s[0] !in multiset(s[1..]);
    }
  }

  lemma {:induction false} SortedStrict(r: seq<Id>, s: seq<Id>)
    requires Descending(r) && Distinct(s) && multiset(r) == multiset(s)
    ensures StrictlyDescending(r)
  {
    forall i, j | 0 <= i < j < |r| ensures r[i] > r[j] {
      DistinctOnce(s, r[i]);
      if r[i] == r[j] { TwiceIn(r, i, j); }
    }
  }

  lemma {:induction false} DistinctSame(r: seq<Id>, s: seq<Id>)
    requires Distinct(s) && multiset(r) == multiset(s)
    ensures Distinct(r)
  {
    forall i, j | 0 <= i < j < |r| ensures r[i] != r[j] {
      DistinctOnce(s, r[i]);
      if r[i] == r[j] { TwiceIn(r, i, j); }
    }
  }

  /** mdb_midl_sort on a copy of the list. */
  method SortedList(s: seq<Id>) returns (r: seq<Id>, fits: bool)
    requires Distinct(s) && |s| <= MAX_ID
    ensures Distinct(r) && multiset(r) == multiset(s) && |r| == |s|
    ensures (fits ==> StrictlyDescending(r)) && (|s| <= SORT_MAX ==> fits)
  {
    var a := new Id[|s| + 1](i requires 0 <= i <= |s| => if i == 0 then |s| else s[i - 1]);
    assert Ids(a) == s;
    hide Distinct, Descending, StrictlyDescending, Prefix;
    fits := Sort(a);
    r := a[1..1 + a[0]];
    DistinctSame(r, s);
    SortedFits(r, s, |s|);
  }

  lemma {:induction false} SortedFits(r: seq<Id>, s: seq<Id>, n: Id)
    requires Distinct(s) && multiset(r) == multiset(s) && n == |r| && Descending(r[..Prefix(n)])
    ensures n <= INT_MAX ==> StrictlyDescending(r)
  {
    if n <= INT_MAX {
      assert r[..Prefix(n)] == r;
      SortedStrict(r, s);
    }
  }

  lemma {:induction false} FreedBound(s: State)
    requires Sound(s)
    ensures |s.freePgs| < MAX_ID && Distinct(s.freePgs)
  {
    forall i | 0 <= i < |s.freePgs| ensures s.freePgs[i] < s.next {
      assert At(s.freePgs, s.freePgs[i]);
      Below(s, InFreed, AsPgno(s.freePgs[i]));
    }
    DistinctBound(s.freePgs, s.next);
  }

  lemma {:induction false} DistinctBound(s: seq<Id>, n: nat)
    requires Distinct(s) && forall i :: 0 <= i < |s| ==> s[i] < n
    ensures |s| <= n
  {
    var all := Run(0, n);
    RunSize(0, n);
    DistinctSize(s);
    forall x: Pgno | x in Elems(s) ensures x in all {
    }
    Smaller(Elems(s), all);
  }

  lemma {:induction false} RunSize(lo: Pgno, n: nat)
    ensures |Run(lo, n)| == n
    decreases n
  {
    if n == 0 {
    } else {
      RunSize(lo, n - 1);
    }
  }

  /** One record lists all pages this transaction has freed; it is written again when writing
      it freed more. */
  method SaveOwn(t: Txn, v0: Saver, scripts0: seq<seq<Act>>) returns (ok: bool, v: Saver, scripts: seq<seq<Act>>)
    requires t.Ok() && Saving(t.Now(), v0) && v0.freecnt < |t.freePgs|
    modifies t, t.pgHead
    ensures t.Ok() && (t.pgHead == old(t.pgHead) || fresh(t.pgHead))
    ensures |scripts| <= |scripts0| && (ok ==> |scripts| < |scripts0|) && (ok || t.error)
    ensures ok ==> Saving(t.Now(), v) && v.freecnt == |t.freePgs| && v == v0.(freecnt := v.freecnt, fits := v.fits)
    ensures Still(scripts0) && |scripts0| >= 2 ==>
              ok && Still(scripts) && SameLists(old(t.Now()), t.Now()) && |scripts| + 2 >= |scripts0|
  {
    hide Sound, Saving, SavingHead, OnlyWorked, Distinct, StrictlyDescending, Tracked;
    ok, v, scripts := false, v0, scripts0;
    if v.freecnt == 0 {
      if scripts == [] {
        t.Fail();
        return;
      }
      ghost var s := t.Now();
      var rc := Perform(t, scripts[0]);
      scripts := scripts[1..];
      SavingWorked(s, t.Now(), v);
      WorkedKeeps(s, t.Now());
      if rc != Success { return; }
    }
    HeadOf(t.Now(), v);
    var freecnt;
    ok, freecnt, scripts := ReserveOwn(t, v, scripts);
    if !ok { return; }
    v := WriteOwn(t, v, freecnt);
  }

  method WriteOwn(t: Txn, v0: Saver, freecnt: nat) returns (v: Saver)
    requires t.Ok() && SavingHead(t.Now(), v0) && freecnt == |t.freePgs| > 0 && (freecnt <= SORT_MAX ==> v0.fits)
    modifies t`freePgs, t`freeDb
    ensures t.Ok() && Saving(t.Now(), v) && v.freecnt == freecnt == |t.freePgs| && v == v0.(freecnt := v.freecnt, fits := v.fits)
    ensures SameLists(old(t.Now()), t.Now())
  {
    hide Sound, Saving, SavingHead, Distinct, StrictlyDescending, Tracked;
    ghost var s := t.Now();
    FreedBound(s);
    var sorted, fits := SortedList(t.freePgs);
    fits := fits && v0.fits;
    v := v0.(freecnt := freecnt, fits := fits);
    var db := t.freeDb[t.txnid := Record(freecnt, sorted)];
    ElemsSame(sorted, s.freePgs);
    OwnWritten(s, s.(freePgs := sorted, freeDb := db), v0, freecnt, sorted, fits);
    SavingSound(s.(freePgs := sorted, freeDb := db), v);
    TrackedSorted(s, s.(freePgs := sorted, freeDb := db), t.Listing());
    t.freePgs, t.freeDb := sorted, db;
  }

  method ReserveOwn(t: Txn, v: Saver, scripts0: seq<seq<Act>>) returns (ok: bool, freecnt: nat, scripts: seq<seq<Act>>)
    requires t.Ok() && SavingHead(t.Now(), v) && t.freePgs != []
    modifies t, t.pgHead
    ensures t.Ok() && (t.pgHead == old(t.pgHead) || fresh(t.pgHead))
    ensures |scripts| <= |scripts0| && (ok ==> |scripts| < |scripts0|) && (ok || t.error)
    ensures ok ==> SavingHead(t.Now(), v) && freecnt == |t.freePgs| > 0 && |old(t.freePgs)| <= |t.freePgs|
    ensures Still(scripts0) && scripts0 != [] ==>
              ok && Still(scripts) && SameLists(old(t.Now()), t.Now()) && |scripts| + 1 == |scripts0|
  {
    hide Sound, SavingHead, OnlyWorked, Tracked;
    scripts := scripts0;
    while true
      modifies t, t.pgHead
      invariant t.Ok() && (t.pgHead == old(t.pgHead) || fresh(t.pgHead))
      invariant SavingHead(t.Now(), v) && t.freePgs != [] && |old(t.freePgs)| <= |t.freePgs|
      invariant |scripts| <= |scripts0| && (Still(scripts0) ==> scripts == scripts0 && t.Now() == old(t.Now()))
      decreases |scripts|
    {
      freecnt := |t.freePgs|;
      if scripts == [] {
        t.Fail();
        return false, freecnt, scripts;
      }
      ok := PutOwn(t, v, freecnt, scripts[0]);
      scripts := scripts[1..];
      if !ok || freecnt >= |t.freePgs| { return; }
    }
  }

  method PutOwn(t: Txn, ghost v: Saver, freecnt: nat, script: seq<Act>) returns (ok: bool)
    requires t.Ok() && SavingHead(t.Now(), v)
    modifies t, t.pgHead
    ensures t.Ok() && (t.pgHead == old(t.pgHead) || fresh(t.pgHead))
    ensures |old(t.freePgs)| <= |t.freePgs| && (ok || t.error)
    ensures ok ==> SavingHead(t.Now(), v)
    ensures script == [] ==> ok && SameLists(old(t.Now()), t.Now())
  {
    hide Sound, SavingHead, OnlyWorked, Tracked;
    ghost var s := t.Now();
    var rc := Perform(t, script);
    ghost var u := t.Now();
    WorkedKeeps(s, u);
    if rc != Success { return false; }
    SavingHeadWorked(s, u, v);
    var db := t.freeDb[t.txnid := Record(freecnt, [])];
    OwnReserved(u, u.(freeDb := db), v, freecnt);
    HeadSound(u.(freeDb := db), v);
    t.SetRecords(db);
    ok := true;
  }

  lemma {:induction false} HeadOf(s: State, v: Saver)
    requires Saving(s, v)
    ensures SavingHead(s, v) && (|s.freePgs| <= SORT_MAX ==> v.fits)
  {
  }

  lemma {:induction false} HeadSound(s: State, v: Saver)
    requires SavingHead(s, v)
    ensures Sound(s)
  {
  }

  /** The size of a record for `want` more ids: a single page's worth, or the ids spread
      over the keys left, in whole pages. */
  function HeadRoom(want: int, headId: TxnId, maxFree: nat): nat
    requires headId >= 1
  {
    if want > maxFree && headId > 1 then
      var r := Words.Quotient(want, headId);
      r + (maxFree - r % (maxFree + 1))
    else if want < 0 then 0
    else want
  }

  /** A list of n ids and its length take up whole pages. */
  predicate WholePages(n: nat, maxFree: nat) { n % (maxFree + 1) == maxFree }

  /** All that is wanted, if it fits on a page or no other key is left; else the smallest
      number of whole pages that holds an equal share for each key left. */
  lemma {:induction false} HeadRoomIs(want: int, headId: TxnId, maxFree: nat)
    requires headId >= 1
    ensures var r := HeadRoom(want, headId, maxFree);
            if want > maxFree && headId > 1 then
              && r >= Words.Quotient(want, headId) && WholePages(r, maxFree)
              && forall q: nat :: Words.Quotient(want, headId) <= q && WholePages(q, maxFree) ==> r <= q
            else r == if want < 0 then 0 else want
  {
    if want > maxFree && headId > 1 {
      var share, d := Words.Quotient(want, headId), maxFree + 1;
      hide Words.Quotient;
      var r := HeadRoom(want, headId, maxFree);
      var k := share / d;
      assert share == d * k + share % d && r == d * k + maxFree;
      Words.ModIs(r, d, k, maxFree);
      forall q: nat | share <= q && WholePages(q, maxFree) ensures r <= q {
        NotLess(q, share, d, k);
      }
    }
  }

  lemma NotLess(q: nat, share: nat, d: nat, k: int)
    requires d > 0 && share <= q && q % d == d - 1 && share >= d * k
    ensures q >= d * k + d - 1
  {
    var j := q / d;
    assert q == d * j + d - 1;
    if j < k {
      OneMore(d, j, k);
      assert false;
    } else if k < j {
      OneMore(d, k, j);
    }
  }

  lemma OneMore(d: nat, j: int, k: int)
    requires j < k
    ensures d * j + d <= d * k
  {
    Words.MulAtLeast(d, k - j);
    assert d * (k - j) == d * k - d * j;
  }

  /** A record for me_pghead is reserved, or the last one reserved is resized. */
  method ReserveHead(t: Txn, v0: Saver, mopLen: nat, maxFree: nat, script: seq<Act>) returns (ok: bool, v: Saver)
    requires t.Ok() && Saving(t.Now(), v0) && v0.pglast > 0
    modifies t, t.pgHead
    ensures t.Ok() && (t.pgHead == old(t.pgHead) || fresh(t.pgHead))
    ensures ok ==> Saving(t.Now(), v) && IsReserved(v0, v, mopLen, maxFree)
    ensures ok || t.error
    ensures script == [] ==> ok && SameLists(old(t.Now()), t.Now())
  {
    hide Sound, Saving, OnlyWorked, Tracked;
    ok, v := false, v0;
    HeadIdLow(t.Now(), v);
    if v.totalRoom < mopLen && v.headRoom >= maxFree && v.headId > 1 {
      NextHead(t.Now(), v);
      v := v.(headId := v.headId - 1, headRoom := 0);
    }
    var room := HeadRoom(mopLen - (v.totalRoom - v.headRoom), v.headId, maxFree);
    ghost var s := t.Now();
    var rc := Perform(t, script);
    if rc != Success { return; }
    ghost var u := t.Now();
    SavingWorked(s, u, v);
    var db := t.freeDb[v.headId := Record(room, [])];
    ReservedOne(u, u.(freeDb := db), v, room);
    v := v.(headRoom := room, totalRoom := v.totalRoom - v.headRoom + room);
    SavingSound(u.(freeDb := db), v);
    t.SetRecords(db);
    ok := true;
  }

  /** The key that is written next: another one once the record has a page's worth and there
      is a key left. */
  function HeadKey(v: Saver, mopLen: nat, maxFree: nat): TxnId {
    if v.totalRoom < mopLen && v.headRoom >= maxFree && v.headId > 1 then v.headId - 1 else v.headId
  }

  ghost predicate IsReserved(v0: Saver, v: Saver, mopLen: nat, maxFree: nat) {
    && v0.headId >= 1 && v0.headRoom <= v0.totalRoom && v.headId == HeadKey(v0, mopLen, maxFree)
    && var others := v0.totalRoom - if v.headId == v0.headId then v0.headRoom else 0;
       v == v0.(headId := v.headId, headRoom := HeadRoom(mopLen - others, v.headId, maxFree), totalRoom := others + v.headRoom)
  }

  lemma {:induction false} HeadIdLow(s: State, v: Saver)
    requires Saving(s, v) && v.pglast > 0
    ensures 1 <= v.headId && v.headRoom <= v.totalRoom
  {
    ReservedSum(s, v, 0);
  }
}
