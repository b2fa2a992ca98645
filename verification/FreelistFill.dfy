/** The end of mdb_freelist_save: filling the reserved records, and what the freeDB then
    says about every page. */
module FreelistFill {
  import opened IdList
  import opened IdSort
  import opened RunList
  import opened PageLedger
  import opened TxnState
  import opened PageLists
  import opened WriteTxn
  import opened FreelistSave

  function IdsAt(db: map<TxnId, Record>, k: TxnId): seq<Id> {
    if k in db then db[k].ids else []
  }

  /** The lists in the records up to key n, the one with the highest key in front. */
  ghost function Join(db: map<TxnId, Record>, n: nat): seq<Id> {
    if n == 0 then [] else IdsAt(db, n) + Join(db, n - 1)
  }

  lemma {:induction false} JoinSame(a: map<TxnId, Record>, b: map<TxnId, Record>, n: nat)
    requires forall k :: 1 <= k <= n ==> IdsAt(a, k) == IdsAt(b, k)
    ensures Join(a, n) == Join(b, n)
    decreases n
  {
    if n == 0 {
    } else {
      assert IdsAt(a, n) == IdsAt(b, n);
      hide IdsAt;
      JoinSame(a, b, n - 1);
    }
  }

  lemma {:induction false} JoinGap(db: map<TxnId, Record>, cur: nat, n: nat)
    requires cur <= n && forall k :: cur < k <= n ==> IdsAt(db, k) == []
    ensures Join(db, n) == Join(db, cur)
    decreases n
  {
    if cur < n { JoinGap(db, cur, n - 1); }
  }

  lemma {:induction false} RoomGap(db: map<TxnId, Record>, cur: nat, n: nat)
    requires cur <= n && forall k :: cur < k <= n ==> k !in db
    ensures RoomSum(db, n) == RoomSum(db, cur)
    decreases n
  {
    if cur < n { RoomGap(db, cur, n - 1); }
  }

  lemma {:induction false} RoomMonotone(db: map<TxnId, Record>, cur: nat, n: nat)
    requires cur <= n
    ensures RoomSum(db, cur) <= RoomSum(db, n)
    decreases n
  {
    if cur < n { RoomMonotone(db, cur, n - 1); }
  }

  /** Only records up to `cur` have changed, and they hold descending lists. */
  ghost predicate FilledTo(first: map<TxnId, Record>, db: map<TxnId, Record>, cur: TxnId) {
    && db.Keys == first.Keys
    && (forall k :: k in db && cur < k ==> db[k] == first[k])
    && (forall k :: k in db && k <= cur ==> StrictlyDescending(db[k].ids))
  }

  lemma {:induction false} FilledOne(first: map<TxnId, Record>, db: map<TxnId, Record>, cur: TxnId, key: TxnId, r: Record)
    requires FilledTo(first, db, cur) && key in db && cur < key && StrictlyDescending(r.ids)
    requires forall k :: k in db && cur < k ==> key <= k
    ensures FilledTo(first, db[key := r], key)
  {
    hide StrictlyDescending;
    var u := db[key := r];
    forall k | k in u && k <= key ensures StrictlyDescending(u[k].ids) {
      if k != key { assert k <= cur; }
    }
  }

  /** The records up to `cur` hold what is behind position `left` of m, the others are as
      they were and have room for the rest. */
  ghost predicate Filling(first: map<TxnId, Record>, db: map<TxnId, Record>, m: seq<Id>, left: nat, cur: TxnId, last: TxnId) {
    && cur <= last && left <= |m| && FilledTo(first, db, cur)
    && m[left..] == Join(db, cur)
    && left + RoomSum(first, cur) <= RoomSum(first, last)
  }

  lemma {:induction false} NextIsReserved(first: map<TxnId, Record>, db: map<TxnId, Record>, m: seq<Id>, left: nat,
                                          cur: TxnId, last: TxnId)
    requires Filling(first, db, m, left, cur, last) && left > 0
    ensures exists k :: k in db && cur < k <= last
  {
    if forall k :: cur < k <= last ==> k !in first {
      RoomGap(first, cur, last);
    }
  }

  lemma {:induction false} FillStep(first: map<TxnId, Record>, db: map<TxnId, Record>, m: seq<Id>, left: nat, cur: TxnId,
                                    last: TxnId, key: TxnId, len: nat)
    requires Filling(first, db, m, left, cur, last) && StrictlyDescending(m)
    requires key in db && cur < key <= last && forall k :: k in db && cur < k ==> key <= k
    requires len == if db[key].room > left then left else db[key].room
    ensures Filling(first, db[key := Record(len, m[left - len..left])], m, left - len, key, last)
  {
    var r := Record(len, m[left - len..left]);
    FillJoin(db, m, left, cur, key, r);
    FillRoom(first, cur, key, last, len, left);
    hide Join, RoomSum, StrictlyDescending, FilledTo;
    SliceDescending(m, left - len, left);
    SliceSplit(m, left - len, left);
    FilledOne(first, db, cur, key, r);
  }

  lemma {:induction false} SliceDescending(m: seq<Id>, a: nat, b: nat)
    requires StrictlyDescending(m) && a <= b <= |m|
    ensures StrictlyDescending(m[a..b])
  {
  }

  lemma {:induction false} SliceSplit(m: seq<Id>, a: nat, b: nat)
    requires a <= b <= |m|
    ensures m[a..] == m[a..b] + m[b..]
  {
  }

  lemma {:induction false} FillJoin(db: map<TxnId, Record>, m: seq<Id>, left: nat, cur: TxnId, key: TxnId, r: Record)
    requires left <= |m| && m[left..] == Join(db, cur) && cur < key && forall k :: cur < k < key ==> k !in db
    ensures Join(db[key := r], key) == r.ids + m[left..]
  {
    JoinSame(db, db[key := r], cur);
    JoinGap(db[key := r], cur, key - 1);
  }

  lemma {:induction false} FillRoom(first: map<TxnId, Record>, cur: TxnId, key: TxnId, last: TxnId, len: nat, left: nat)
    requires cur < key <= last && key in first && forall k :: cur < k < key ==> k !in first
    requires left + RoomSum(first, cur) <= RoomSum(first, last)
    requires len == if first[key].room > left then left else first[key].room
    ensures left - len + RoomSum(first, key) <= RoomSum(first, last)
  {
    RoomGap(first, cur, key - 1);
    RoomMonotone(first, key, last);
  }

  /** What a put into a reserved record does to the pages: they were made writable when the
      record was reserved, so they are dirty, or spilled and taken back. */
  method Rewrite(t: Txn, acts: seq<Act>) returns (ok: bool)
    modifies t`dirty, t`spilled, t`dirtyRoom, t`error
    ensures ok || t.error
    ensures acts == [] ==> ok
  {
    for i := 0 to |acts| {
      match acts[i] {
        case Touch(p) =>
          if p !in t.dirty && p in t.spilled {
            if t.dirtyRoom == 0 {
              t.error := true;
              return false;
            }
            t.spilled, t.dirty, t.dirtyRoom := t.spilled - {p}, t.dirty + {p}, t.dirtyRoom - 1;
          }
        case SpillPages(pages) =>
          var moved := pages * t.dirty;
          t.dirty, t.spilled, t.dirtyRoom := t.dirty - moved, t.spilled + moved, t.dirtyRoom + |moved|;
        case _ =>
      }
    }
    ok := true;
  }

  /** The reserved records are filled from the end of the list: the smallest ids go into the
      record with the lowest key. */
  method Fill(t: Txn, m: seq<Id>, scripts: seq<seq<Act>>, ghost last: TxnId) returns (ok: bool, cur: TxnId)
    requires StrictlyDescending(m) && |m| <= RoomSum(t.freeDb, last) && forall k :: k in t.freeDb ==> 1 <= k
    modifies t`freeDb, t`dirty, t`spilled, t`dirtyRoom, t`error
    ensures ok ==> Filling(old(t.freeDb), t.freeDb, m, 0, cur, last)
    ensures ok || t.error
    ensures Still(scripts) && |scripts| >= last ==> ok
  {
    hide Filling;
    cur := 0;
    var left, used := |m|, 0;
    ghost var first := t.freeDb;
    FillStart(first, m, last);
    while left > 0
      modifies t`freeDb, t`dirty, t`spilled, t`dirtyRoom, t`error
      invariant 0 <= left <= |m| && 0 <= used <= cur && Filling(first, t.freeDb, m, left, cur, last)
      decreases last - cur
    {
      NextIsReserved(first, t.freeDb, m, left, cur, last);
      if used >= |scripts| {
        t.error := true;
        return false, cur;
      }
      ok := Rewrite(t, scripts[used]);
      if !ok { return; }
      NextIsReserved(first, t.freeDb, m, left, cur, last);
      var keys := set k | k in t.freeDb && cur < k;
      assert forall k :: k in keys <==> k in t.freeDb && cur < k;
      var key := Smallest(keys);
      assert key <= last;
      var len := if t.freeDb[key].room > left then left else t.freeDb[key].room;
      FillStep(first, t.freeDb, m, left, cur, last, key, len);
      t.freeDb := t.freeDb[key := Record(len, m[left - len..left])];
      left, cur, used := left - len, key, used + 1;
    }
    ok := true;
  }

  lemma {:induction false} FillStart(first: map<TxnId, Record>, m: seq<Id>, last: TxnId)
    requires |m| <= RoomSum(first, last) && forall k :: k in first ==> 1 <= k
    ensures Filling(first, first, m, |m|, 0, last)
  {
  }

  // ---- what the commit leaves ----------------------------------------------------------------------

  lemma {:induction false} JoinHas(db: map<TxnId, Record>, n: nat, x: int)
    ensures At(Join(db, n), x) <==> exists k :: 1 <= k <= n && At(IdsAt(db, k), x)
    decreases n
  {
    if n == 0 {
    } else {
      JoinHas(db, n - 1, x);
      JoinFirst(db, n, x);
      hide At, Join;
      if At(Join(db, n), x) && !At(IdsAt(db, n), x) {
        var k :| 1 <= k <= n - 1 && At(IdsAt(db, k), x);
      }
      if k :| 1 <= k <= n && At(IdsAt(db, k), x) {
        assert k == n || k <= n - 1;
      }
    }
  }

  lemma {:induction false} JoinFirst(db: map<TxnId, Record>, n: nat, x: int)
    requires n > 0
    ensures At(Join(db, n), x) <==> At(IdsAt(db, n), x) || At(Join(db, n - 1), x)
  {
    AtConcat(IdsAt(db, n), [], Join(db, n - 1), x);
    assert IdsAt(db, n) + [] + Join(db, n - 1) == Join(db, n);
    assert !At([], x);
  }

  lemma {:induction false} ConcatOnce(front: seq<Id>, back: seq<Id>, x: int)
    requires StrictlyDescending(front + back)
    ensures StrictlyDescending(back) && !(At(front, x) && At(back, x))
  {
    var s := front + back;
    assert back == s[|front|..];
    forall a, b | 0 <= a < |front| && 0 <= b < |back| ensures front[a] != back[b] {
      assert s[a] > s[|front| + b];
    }
  }

  /** No id is in two of the records. */
  lemma {:induction false} JoinOnce(db: map<TxnId, Record>, n: nat, j: TxnId, k: TxnId, x: int)
    requires StrictlyDescending(Join(db, n)) && 1 <= j <= n && 1 <= k <= n && At(IdsAt(db, j), x) && At(IdsAt(db, k), x)
    ensures j == k
    decreases n
  {
    ConcatOnce(IdsAt(db, n), Join(db, n - 1), x);
    JoinHas(db, n - 1, x);
    if j < n && k < n { JoinOnce(db, n - 1, j, k, x); }
  }

  ghost function Sets(db: map<TxnId, Record>): map<TxnId, set<Pgno>> {
    map k | k in db :: Elems(db[k].ids)
  }

  /** How the next write transaction finds the pages. */
  ghost function NextTxn(s: State): State {
    State(s.txnid + 1, s.maxPg, false, [], 0, s.freeDb, s.tree, [], [], s.next)
  }

  /** Everything that has been saved: the own record, the reserved ones, the others. */
  ghost predicate Saved(s: State, db: map<TxnId, Record>, m: seq<Id>) {
    && Sound(s) && OwnSaved(s, |s.freePgs|, true) && (s.hasHead || s.loose == [])
    && StrictlyDescending(m) && Elems(m) == Elems(s.head) + Elems(s.loose)
    && db.Keys == s.freeDb.Keys && Join(db, s.last) == m
    && (forall k :: k in db && s.last < k ==> db[k] == s.freeDb[k])
    && (forall k :: k in db && k <= s.last ==> StrictlyDescending(db[k].ids))
  }

  ghost function SavedSets(s: State, db: map<TxnId, Record>): map<TxnId, set<Pgno>> {
    map k | k in db && k <= s.last :: Elems(db[k].ids)
  }

  lemma {:induction false} SavedSaves(s: State, db: map<TxnId, Record>, m: seq<Id>)
    requires Saved(s, db, m)
    ensures Saves(Abs(s), s.txnid, SavedSets(s, db))
  {
    var saved := SavedSets(s, db);
    assert Elems([]) == {};
    forall j, k, p: Pgno | Listed(saved, j, p) && Listed(saved, k, p) ensures j == k {
      JoinOnce(db, s.last, j, k, p);
    }
    forall p: Pgno ensures p in Elems(s.head) || p in Elems(s.loose) <==> exists k :: Listed(saved, k, p) {
      JoinHas(db, s.last, p);
      assert p in Elems(m) <==> At(Join(db, s.last), p);
      if At(Join(db, s.last), p) {
        var k :| 1 <= k <= s.last && At(IdsAt(db, k), p);
        assert Listed(saved, k, p);
      }
      if k :| Listed(saved, k, p) {
        assert At(IdsAt(db, k), p);
      }
    }
  }

  lemma {:induction false} SavedRecords(s: State, db: map<TxnId, Record>, m: seq<Id>)
    requires Saved(s, db, m)
    ensures Sets(db) == CommittedRecords(Abs(s), s.txnid, SavedSets(s, db))
  {
    var c := CommittedRecords(Abs(s), s.txnid, SavedSets(s, db));
    hide Saved, Sets, CommittedRecords;
    forall k: TxnId ensures (k in Sets(db) <==> k in c) && (k in c ==> c[k] == Sets(db)[k]) {
      SavedAt(s, db, m, k);
    }
  }

  lemma {:induction false} SavedAt(s: State, db: map<TxnId, Record>, m: seq<Id>, k: TxnId)
    requires Saved(s, db, m)
    ensures var c := CommittedRecords(Abs(s), s.txnid, SavedSets(s, db));
            (k in Sets(db) <==> k in c) && (k in c ==> c[k] == Sets(db)[k])
  {
    OwnListed(s);
    KeysWithin(s);
    hide Sound, OwnSaved, Join, StrictlyDescending, Elems;
  }

  lemma {:induction false} KeysWithin(s: State)
    requires Sound(s)
    ensures s.last < s.txnid && forall k :: k in s.freeDb ==> 1 <= k <= s.txnid
  {
  }

  lemma {:induction false} OwnListed(s: State)
    requires Sound(s) && OwnSaved(s, |s.freePgs|, true)
    ensures s.txnid in s.freeDb <==> Elems(s.freePgs) != {}
    ensures s.txnid in s.freeDb ==> Elems(s.freeDb[s.txnid].ids) == Elems(s.freePgs)
  {
    assert s.freePgs[..|s.freePgs|] == s.freePgs;
    if s.freePgs == [] {
      assert Elems(s.freePgs) == {};
    } else {
      assert At(s.freePgs, s.freePgs[0]);
      assert AsPgno(s.freePgs[0]) in Elems(s.freePgs);
    }
  }

  /** Each page is used or listed in exactly one record, and the next transaction starts
      from a sound state. */
  lemma {:induction false} SavedAll(s: State, db: map<TxnId, Record>, m: seq<Id>)
    requires Saved(s, db, m)
    ensures Accounted(s.tree, Sets(db), s.next)
    ensures Sound(NextTxn(s.(freeDb := db))) && Abs(NextTxn(s.(freeDb := db))) == Opened(s.tree, Sets(db), s.next)
  {
    SavedSaves(s, db, m);
    SavedRecords(s, db, m);
    SavedAccounted(Abs(s), s.txnid, SavedSets(s, db));
    NextSound(s, db, m);
  }

  lemma {:induction false} NextSound(s: State, db: map<TxnId, Record>, m: seq<Id>)
    requires Saved(s, db, m) && Accounted(s.tree, Sets(db), s.next)
    ensures Sound(NextTxn(s.(freeDb := db))) && Abs(NextTxn(s.(freeDb := db))) == Opened(s.tree, Sets(db), s.next)
  {
    var n := NextTxn(s.(freeDb := db));
    NextRecords(s, db, m);
    OpenedConserved(s.tree, Sets(db), s.next);
    NextLists(s, db, m);
    hide Conserved, Accounted, Saved, Sets, Join;
    assert Elems([]) == {};
  }

  lemma {:induction false} NextRecords(s: State, db: map<TxnId, Record>, m: seq<Id>)
    requires Saved(s, db, m)
    ensures Records(NextTxn(s.(freeDb := db))) == Sets(db)
    ensures forall k :: k in Sets(db) ==> 1 <= k
  {
    hide Join, StrictlyDescending, Elems, Conserved, OwnSaved;
  }

  lemma {:induction false} NextLists(s: State, db: map<TxnId, Record>, m: seq<Id>)
    requires Saved(s, db, m)
    ensures forall k :: k in db ==> 1 <= k <= s.txnid && StrictlyDescending(db[k].ids)
    ensures s.next <= s.maxPg < MAX_ID
  {
    hide Join, StrictlyDescending, Elems, Conserved;
  }

  // ---- mdb_freelist_save -------------------------------------------------------------------------

  lemma {:induction false} LooseMerged(s: State, sorted: seq<Id>)
    requires Sound(s) && StrictlyDescending(sorted) && multiset(sorted) == multiset(s.loose)
    ensures StrictlyDescending(Merged(s.head, sorted)) && |s.head| + |sorted| <= MAX_ID
    ensures |Merged(s.head, sorted)| == |s.head| + |sorted|
    ensures Elems(Merged(s.head, sorted)) == Elems(s.head) + Elems(s.loose)
  {
    ElemsSame(sorted, s.loose);
    ElemsMerged(s.head, sorted);
    forall x | x in s.head ensures x !in sorted {
      AtIn(s.head, x);
      AtIn(sorted, x);
      if x in sorted {
        Apart2(s, InHead, InLoose, AsPgno(x));
      }
    }
    MergedStrict(s.head, sorted);
    forall x: Pgno | x in Elems(Merged(s.head, sorted)) ensures x < s.next {
      Below(s, if x in Elems(s.head) then InHead else InLoose, x);
    }
    LengthBound(Merged(s.head, sorted), s.next);
  }

  /** Loose pages that are still left join me_pghead. */
  method MergeLoose(t: Txn) returns (m: seq<Id>)
    requires t.Ok()
    modifies t`pgHead, t`loose, t.pgHead
    ensures t.pgHead != null ==> IdList.Valid(t.pgHead)
    ensures t.pgHead == old(t.pgHead) || fresh(t.pgHead)
    ensures StrictlyDescending(m) && |m| == |old(t.HeadIds())| + |old(t.loose)|
    ensures Elems(m) == Elems(old(t.HeadIds())) + Elems(old(t.loose))
  {
    hide Sound, Distinct, Tracked, StrictlyDescending;
    if t.loose != [] {
      JoinLoose(t);
    } else {
      assert Elems([]) == {};
      HeadDescends(t.Now());
    }
    m := t.HeadList();
  }

  method JoinLoose(t: Txn)
    requires t.Ok() && t.loose != []
    modifies t`pgHead, t`loose, t.pgHead
    ensures t.pgHead != null && IdList.Valid(t.pgHead) && (t.pgHead == old(t.pgHead) || fresh(t.pgHead))
    ensures StrictlyDescending(t.HeadIds()) && |t.HeadIds()| == |old(t.HeadIds())| + |old(t.loose)|
    ensures Elems(t.HeadIds()) == Elems(old(t.HeadIds())) + Elems(old(t.loose))
  {
    hide Sound, Distinct, Tracked, StrictlyDescending, Elems, Merged;
    LooseFew(t.Now(), t.Listing());
    LooseDistinct(t.Now());
    var sorted, fits := SortedList(t.loose);
    LooseMerged(t.Now(), sorted);
    t.HeadMerge(sorted);
    t.loose := [];
  }

  lemma {:induction false} LooseDistinct(s: State)
    requires Sound(s)
    ensures Distinct(s.loose)
  {
  }

  /** The loop has settled: nothing is left to consume or to write, and there is room. */
  ghost predicate Settled(s: State, v: Saver) {
    Saving(s, v) && v.pglast == s.last && v.freecnt == |s.freePgs| && v.totalRoom >= |s.head| + |s.loose|
  }

  lemma {:induction false} SettledRoom(s: State, v: Saver)
    requires Settled(s, v)
    ensures RoomSum(s.freeDb, s.last) >= |s.head| + |s.loose|
    ensures forall k :: k in s.freeDb ==> 1 <= k
    ensures |s.freePgs| <= SORT_MAX ==> v.fits
  {
  }

  lemma {:induction false} SettledSaved(s: State, v: Saver, m: seq<Id>, db: map<TxnId, Record>, cur: TxnId)
    requires Settled(s, v) && v.fits && Filling(s.freeDb, db, m, 0, cur, s.last)
    requires StrictlyDescending(m) && Elems(m) == Elems(s.head) + Elems(s.loose)
    ensures Saved(s, db, m)
  {
    hide Sound;
    HeadSoundOf(s, v);
    assert m[0..] == m;
    JoinGap(db, cur, s.last);
  }

  lemma {:induction false} HeadSoundOf(s: State, v: Saver)
    requires Settled(s, v)
    ensures Sound(s)
  {
  }

  /** Loose pages cannot go to a me_pghead that does not exist. */
  method FreeLoosePages(t: Txn)
    requires t.Ok()
    modifies t`loose, t`freePgs, t`dirty
    ensures t.Ok() && (t.pgHead != null || t.loose == [])
    ensures t.Now() == if t.pgHead == null then LooseFreed(old(t.Now())) else old(t.Now())
    ensures t.dirty == if t.pgHead == null then old(t.dirty) - Elems(old(t.loose)) else old(t.dirty)
  {
    hide Sound, Abs, Tracked;
    if t.pgHead == null {
      if t.loose != [] {
        LooseFreedIs(t.Now());
        TrackedLooseFreed(t.Now(), t.Listing());
        t.freePgs := t.freePgs + t.loose;
        t.dirty := t.dirty - (set i | 0 <= i < |t.loose| :: AsPgno(t.loose[i]));
        t.loose := [];
      } else {
        assert t.freePgs + [] == t.freePgs;
      }
    }
  }

  lemma {:induction false} StartSaving(s: State)
    requires Sound(s) && (s.hasHead || s.loose == []) && s.txnid !in s.freeDb && (s.last > 0 ==> s.last in s.freeDb)
    ensures Saving(s, Saver(0, 0, 0, 0, 0, 1, true))
  {
  }

  // ---- how long it takes when the B-tree code needs no pages ---------------------------------------

  /** For the turn that --more allows. */
  function ExtraCost(key: TxnId, more: int): nat {
    if more < 1 then 0 else key + 2
  }

  /** How many more times a record is reserved for mopLen ids, at most: each key gets at
      most one record, and the last one all that is left. */
  function HeadCost(v: Saver, mopLen: nat, maxFree: nat): nat {
    if v.totalRoom == mopLen then 0
    else if v.totalRoom > mopLen then ExtraCost(v.headId, v.more)
    else var key := HeadKey(v, mopLen, maxFree); key + ExtraCost(key, v.more)
  }

  lemma {:induction false} HeadCostDown(v0: Saver, v1: Saver, v: Saver, mopLen: nat, maxFree: nat)
    requires v0.more <= 1 && v0.headId >= 1 && v0.totalRoom != mopLen
    requires v1 == if v0.totalRoom > mopLen then v0.(more := v0.more - 1) else v0
    requires v1.more >= 0 || v0.totalRoom < mopLen
    requires IsReserved(v1, v, mopLen, maxFree)
    ensures HeadCost(v, mopLen, maxFree) + 1 <= HeadCost(v0, mopLen, maxFree)
  {
    hide HeadRoom;
    var others := v1.totalRoom - if v.headId == v1.headId then v1.headRoom else 0;
    HeadRoomIs(mopLen - others, v.headId, maxFree);
    WholeAtLeast(v.headRoom, maxFree);
  }

  lemma HeadCostSome(v: Saver, mopLen: nat, maxFree: nat)
    requires v.headId >= 1
    ensures v.totalRoom < mopLen || (v.totalRoom > mopLen && v.more >= 1) ==> HeadCost(v, mopLen, maxFree) > 0
  {
  }

  lemma ReservedSame(v0: Saver, v: Saver, mopLen: nat, maxFree: nat)
    requires IsReserved(v0, v, mopLen, maxFree)
    ensures v.pglast == v0.pglast && v.freecnt == v0.freecnt && v.more == v0.more
  {
  }

  lemma HeadCostSame(v: Saver, w: Saver, mopLen: nat, maxFree: nat)
    requires w == v.(freecnt := w.freecnt, fits := w.fits)
    ensures HeadCost(w, mopLen, maxFree) == HeadCost(v, mopLen, maxFree)
  {
  }

  lemma WholeAtLeast(n: nat, maxFree: nat)
    ensures WholePages(n, maxFree) ==> n >= maxFree
  {
  }

  /** How many scripts the loop uses up, at most. */
  ghost function Cost(s: State, v: Saver, maxFree: nat): nat {
    (if v.pglast < s.last then Stale(s.freeDb, s.last) else 0)
    + (if v.freecnt < |s.freePgs| then 2 else 0)
    + HeadCost(if v.pglast < s.last then Dropped(v, s.last) else v, |s.head| + |s.loose|, maxFree)
  }

  /** Writing the lists changes them, so the loop goes round until nothing changes any more.
      Every turn uses up a script; the loop ends with success only when the lists are
      settled. */
  method Settle(t: Txn, scripts0: seq<seq<Act>>, maxFree: nat) returns (ok: bool, v: Saver, scripts: seq<seq<Act>>)
    requires t.Ok() && Saving(t.Now(), Saver(0, 0, 0, 0, 0, 1, true))
    modifies t, t.pgHead
    ensures t.Ok() && (t.pgHead == old(t.pgHead) || fresh(t.pgHead))
    ensures if ok then Settled(t.Now(), v) else t.error
    ensures var cost := Cost(old(t.Now()), Saver(0, 0, 0, 0, 0, 1, true), maxFree);
            Still(scripts0) && |scripts0| >= cost ==>
              ok && Still(scripts) && SameLists(old(t.Now()), t.Now()) && |scripts| + cost >= |scripts0|
  {
    hide Sound, Saving, Settled, Tracked, Cost;
    ok, scripts := false, scripts0;
    v := Saver(0, 0, 0, 0, 0, 1, true);
    ghost var s, first := t.Now(), v;
    var done := false;
    while !done
      modifies t, t.pgHead
      invariant t.Ok() && (t.pgHead == old(t.pgHead) || fresh(t.pgHead))
      invariant if done then (if ok then Settled(t.Now(), v) else t.error) else Saving(t.Now(), v)
      invariant Still(scripts0) && |scripts0| >= Cost(s, first, maxFree) ==>
                  && (done ==> ok) && Still(scripts) && SameLists(s, t.Now()) && v.more <= 1
                  && |scripts| + Cost(s, first, maxFree) >= |scripts0| + if done then 0 else Cost(t.Now(), v, maxFree)
      decreases if done then 0 else 1 + |scripts|
    {
      done, ok, v, scripts := Turn(t, v, scripts, maxFree);
    }
  }

  /** One turn: what was consumed is dropped, then mt_free_pgs is saved, or else a record is
      reserved, unless there is nothing more to do. */
  method Turn(t: Txn, v0: Saver, scripts0: seq<seq<Act>>, maxFree: nat)
    returns (done: bool, ok: bool, v: Saver, scripts: seq<seq<Act>>)
    requires t.Ok() && Saving(t.Now(), v0)
    modifies t, t.pgHead
    ensures t.Ok() && (t.pgHead == old(t.pgHead) || fresh(t.pgHead))
    ensures if done then (if ok then Settled(t.Now(), v) else t.error) else Saving(t.Now(), v)
    ensures |scripts| <= |scripts0| && (!done ==> |scripts| < |scripts0|)
    ensures Still(scripts0) && v0.more <= 1 && |scripts0| >= Cost(old(t.Now()), v0, maxFree) ==>
              && (done ==> ok) && Still(scripts) && SameLists(old(t.Now()), t.Now()) && v.more <= 1
              && |scripts| + Cost(old(t.Now()), v0, maxFree) >= |scripts0| + if done then 0 else Cost(t.Now(), v, maxFree)
  {
    hide Sound, Saving, Tracked, Stale, HeadCost;
    AtLast(t.Now(), v0);
    ok, v, scripts := DropConsumed(t, v0, scripts0);
    if !ok { return true, ok, v, scripts; }
    FreecntLow(t.Now(), v);
    if v.freecnt < |t.freePgs| {
      ghost var v1 := v;
      ok, v, scripts := SaveOwn(t, v, scripts);
      if ok {
        HeadCostSame(v1, v, |t.HeadIds()| + |t.loose|, maxFree);
      }
      return !ok, ok, v, scripts;
    }
    done, ok, v, scripts := Reserve(t, v, scripts, maxFree);
  }

  method Reserve(t: Txn, v0: Saver, scripts0: seq<seq<Act>>, maxFree: nat)
    returns (done: bool, ok: bool, v: Saver, scripts: seq<seq<Act>>)
    requires t.Ok() && Saving(t.Now(), v0) && v0.pglast == t.pgLast && v0.freecnt == |t.freePgs|
    modifies t, t.pgHead
    ensures t.Ok() && (t.pgHead == old(t.pgHead) || fresh(t.pgHead))
    ensures if done then (if ok then Settled(t.Now(), v) else t.error) else Saving(t.Now(), v)
    ensures |scripts| <= |scripts0| && (!done ==> |scripts| < |scripts0|)
    ensures !done ==> v.pglast == v0.pglast && v.freecnt == v0.freecnt
    ensures var mopLen := |old(t.HeadIds())| + |old(t.loose)|;
            Still(scripts0) && v0.more <= 1 && |scripts0| >= HeadCost(v0, mopLen, maxFree) ==>
              && (done ==> ok) && Still(scripts) && SameLists(old(t.Now()), t.Now()) && v.more <= 1
              && |scripts| + HeadCost(v0, mopLen, maxFree) >= |scripts0| + if done then 0 else HeadCost(v, mopLen, maxFree)
  {
    hide Sound, Saving, Tracked, HeadCost, IsReserved;
    done, ok, v, scripts := true, true, v0, scripts0;
    var mopLen := (if t.pgHead == null then 0 else Len(t.pgHead)) + |t.loose|;
    if v.totalRoom >= mopLen {
      if v.totalRoom == mopLen { return; }
      v := MoreLess(t, v);
      if v.more < 0 { return; }
    }
    NeedsHead(t.Now(), v);
    HeadIdLow(t.Now(), v);
    HeadCostSome(v0, mopLen, maxFree);
    if scripts == [] {
      t.Fail();
      ok := false;
      return;
    }
    ghost var v1 := v;
    ok, v := ReserveHead(t, v, mopLen, maxFree, scripts[0]);
    scripts := scripts[1..];
    done := !ok;
    if ok {
      ReservedSame(v1, v, mopLen, maxFree);
      if v0.more <= 1 {
        HeadCostDown(v0, v1, v, mopLen, maxFree);
      }
    }
  }

  method MoreLess(t: Txn, v0: Saver) returns (v: Saver)
    requires t.pgHead != null ==> IdList.Valid(t.pgHead)
    requires Saving(t.Now(), v0)
    ensures v == v0.(more := v0.more - 1) && Saving(t.Now(), v)
  {
    v := v0.(more := v0.more - 1);
  }

  lemma {:induction false} FreecntLow(s: State, v: Saver)
    requires Saving(s, v)
    ensures v.freecnt <= |s.freePgs|
  {
  }

  /** Records are reserved only when me_pghead exists, so there is a key for them. */
  lemma {:induction false} NeedsHead(s: State, v: Saver)
    requires Saving(s, v) && v.pglast == s.last && v.totalRoom != |s.head| + |s.loose|
    ensures v.pglast > 0
  {
  }

  /** mdb_freelist_save: when it succeeds, each page below mt_next_pgno is used by a tree
      or listed in exactly one freeDB record, and the next transaction starts sound.  That
      holds if sorting mt_free_pgs stayed within int, which it does up to SORT_MAX pages. */
  method Save(t: Txn, scripts: seq<seq<Act>>, maxFree: nat) returns (ok: bool, fits: bool)
    requires t.Ok() && t.txnid !in t.freeDb && (t.pgLast > 0 ==> t.pgLast in t.freeDb)
    modifies t, t.pgHead
    ensures t.pgHead != null ==> IdList.Valid(t.pgHead)
    ensures ok && fits ==> Accounted(t.tree, Sets(t.freeDb), t.nextPgno)
    ensures ok && fits ==> Sound(NextTxn(t.Now())) && Abs(NextTxn(t.Now())) == Opened(t.tree, Sets(t.freeDb), t.nextPgno)
    ensures ok && |t.freePgs| <= SORT_MAX ==> fits
    ensures ok || t.error
    ensures Still(scripts) && |scripts| >= 4 * old(t.pgLast) + 5 ==> ok
  {
    hide Sound, Saving, Accounted, OnlyWorked, Settled, Tracked, Cost;
    ok, fits := false, true;
    var rest := scripts;
    if t.pgHead != null {
      if rest == [] {
        t.Fail();
        return;
      }
      ghost var s := t.Now();
      var rc := Perform(t, rest[0]);
      rest := rest[1..];
      if rc != Success { return; }
      WorkedKeeps(s, t.Now());
      LastStays(s, t.Now());
    }
    FreeLoosePages(t);
    StartSaving(t.Now());
    StartCost(t.Now(), maxFree);
    var v;
    ok, v, rest := Settle(t, rest, maxFree);
    fits := v.fits;
    if ok { ok := Finish(t, v, rest); }
  }

  lemma {:induction false} StartCost(s: State, maxFree: nat)
    requires Saving(s, Saver(0, 0, 0, 0, 0, 1, true))
    ensures Cost(s, Saver(0, 0, 0, 0, 0, 1, true), maxFree) <= 3 * s.last + 4
  {
    hide OwnSaved, Reserved;
    KeysWithin(s);
    StaleBound(s.freeDb, s.last);
  }

  lemma {:induction false} LastStays(s: State, t: State)
    requires OnlyWorked(s, t) && (s.last > 0 ==> s.last in s.freeDb)
    ensures t.last > 0 ==> t.last in t.freeDb
  {
  }

  method Finish(t: Txn, v: Saver, scripts: seq<seq<Act>>) returns (ok: bool)
    requires t.Ok() && Settled(t.Now(), v)
    modifies t`pgHead, t`loose, t`freeDb, t`dirty, t`spilled, t`dirtyRoom, t`error, t.pgHead
    ensures t.pgHead != null ==> IdList.Valid(t.pgHead)
    ensures ok && v.fits ==> Accounted(t.tree, Sets(t.freeDb), t.nextPgno)
    ensures ok && v.fits ==> Sound(NextTxn(t.Now())) && Abs(NextTxn(t.Now())) == Opened(t.tree, Sets(t.freeDb), t.nextPgno)
    ensures |t.freePgs| <= SORT_MAX ==> v.fits
    ensures ok || t.error
    ensures Still(scripts) && |scripts| >= t.pgLast ==> ok
  {
    hide Sound, Accounted, Settled, Saved, Filling, Sets, Tracked;
    ghost var s := t.Now();
    SettledRoom(s, v);
    var m := MergeLoose(t);
    var cur;
    ok, cur := Fill(t, m, scripts, s.last);
    if ok && v.fits {
      SettledSaved(s, v, m, t.freeDb, cur);
      SavedAll(s, t.freeDb, m);
    }
  }
}
