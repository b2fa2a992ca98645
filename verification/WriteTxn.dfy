/** The page allocator of a top-level write transaction: mdb_find_oldest, mdb_page_alloc,
    mdb_page_loose, mdb_page_touch, mdb_ovpage_free. */
module WriteTxn {
  import opened IdList
  import opened RunList
  import opened PageLedger
  import opened TxnState
  import opened PageLists

  datatype Code = Success | TxnFull | MapFull

  /** A reader slot; pid 0 marks a free one. */
  datatype Reader = Reader(pid: nat, txnid: TxnId)

  /** Smallest element of a set of keys. */
  method Smallest(keys: set<TxnId>) returns (k: TxnId)
    requires keys != {}
    ensures k in keys && forall j :: j in keys ==> k <= j
  {
    k :| k in keys;
    var left := keys - {k};
    while left != {}
      invariant k in keys && left <= keys && forall j :: j in keys && j !in left ==> k <= j
      decreases left
    {
      var j :| j in left;
      if j < k { k := j; }
      left := left - {j};
    }
  }

  class Txn {
    const txnid: TxnId
    const maxPg: nat
    var readers: seq<Reader>           // mti_readers
    var pgHead: array?<Id>
    var pgLast: TxnId
    var pgOldest: TxnId
    var freeDb: map<TxnId, Record>
    var tree: set<Pgno>
    var loose: seq<Id>
    var freePgs: seq<Id>
    var nextPgno: nat
    var dirtyRoom: nat
    var dirty: set<Pgno>               // first page numbers of the dirty list
    var spilled: set<Pgno>             // and of the spill list
    var sizes: map<Pgno, nat>          // their mp_pages
    var error: bool                    // MDB_TXN_ERROR

    ghost function HeadIds(): seq<Id>
      reads this`pgHead, pgHead
      requires pgHead != null ==> IdList.Valid(pgHead)
    {
      if pgHead == null then [] else Ids(pgHead)
    }

    ghost function Now(): State
      reads this`pgHead, this`pgLast, this`freeDb, this`tree, this`loose, this`freePgs, this`nextPgno, pgHead
      requires pgHead != null ==> IdList.Valid(pgHead)
    {
      State(txnid, maxPg, pgHead != null, HeadIds(), pgLast, freeDb, tree, loose, freePgs, nextPgno)
    }

    ghost predicate Ok()
      reads this, pgHead
    {
      && (pgHead != null ==> IdList.Valid(pgHead)) && pgOldest < txnid && Sound(Now())
      && Tracked(Now(), Listing())
    }

    ghost function Listing(): Lists
      reads this`dirty, this`spilled, this`dirtyRoom, this`sizes
    {
      Lists(dirty, spilled, dirtyRoom, sizes)
    }

    /** x is the oldest txnid a reader has published, or else the last committed one. */
    ghost predicate IsOldest(x: TxnId)
      reads this`readers
    {
      && x < txnid && (forall i :: 0 <= i < |readers| && readers[i].pid != 0 ==> x <= readers[i].txnid)
      && (x == txnid - 1 || exists i :: 0 <= i < |readers| && readers[i].pid != 0 && readers[i].txnid == x)
    }

    /** No record is left that could be consumed: there is none, or the oldest reader, as
        just looked up, may need them all. */
    ghost predicate UsedUp()
      reads this`freeDb, this`pgLast, this`pgOldest, this`readers
    {
      (forall k :: k in freeDb ==> k <= pgLast) || (IsOldest(pgOldest) && forall k :: k in freeDb ==> k <= pgLast || pgOldest <= k)
    }

    /** mdb_find_oldest: no published txnid is below the result, and it is one of them or
        the last committed one. */
    method FindOldest() returns (oldest: TxnId)
      requires txnid > 0
      ensures IsOldest(oldest)
    {
      oldest := txnid - 1;
      var i := |readers|;
      while i > 0
        invariant 0 <= i <= |readers| && oldest <= txnid - 1
        invariant forall j :: i <= j < |readers| && readers[j].pid != 0 ==> oldest <= readers[j].txnid
        invariant oldest == txnid - 1 || exists j :: i <= j < |readers| && readers[j].pid != 0 && readers[j].txnid == oldest
      {
        i := i - 1;
        if readers[i].pid != 0 {
          var mr := readers[i].txnid;
          if oldest > mr { oldest := mr; }
        }
      }
    }

    /** Merge a record's ids into me_pghead, creating it if there is none. */
    method HeadMerge(ids: seq<Id>)
      requires pgHead != null ==> IdList.Valid(pgHead)
      requires |HeadIds()| + |ids| <= MAX_ID
      modifies this`pgHead, pgHead
      ensures pgHead != null && IdList.Valid(pgHead) && Ids(pgHead) == Merged(old(HeadIds()), ids)
      ensures pgHead == old(pgHead) || fresh(pgHead)
    {
      var rec := new Id[|ids| + 1](i requires 0 <= i <= |ids| => if i == 0 then |ids| else ids[i - 1]);
      assert rec[1..1 + rec[0]] == ids;
      hide Merged;
      HeadRoom(|ids|);
      XMerge(pgHead, rec, 0);
    }

    /** me_pghead exists and has room for n more ids. */
    method HeadRoom(n: nat)
      requires pgHead != null ==> IdList.Valid(pgHead)
      modifies this`pgHead
      ensures pgHead != null && IdList.Valid(pgHead) && HeadIds() == old(HeadIds()) && Len(pgHead) + n <= Room(pgHead)
      ensures pgHead == old(pgHead) || fresh(pgHead)
    {
      if pgHead == null {
        pgHead := new Id[n + 1];
        pgHead[0] := 0;
      } else {
        pgHead := Need(pgHead, n);
      }
    }

    method HeadList() returns (m: seq<Id>)
      requires pgHead != null ==> IdList.Valid(pgHead)
      ensures m == HeadIds()
    {
      m := if pgHead == null then [] else pgHead[1..1 + pgHead[0]];
    }

    method Fetch(key: TxnId)
      requires Ok() && NextKey(Now(), key) && key < txnid
      modifies this`pgHead, this`pgLast, pgHead
      ensures Ok() && Now() == Consumed(old(Now()), key) && pgLast == key
      ensures pgHead == old(pgHead) || fresh(pgHead)
    {
      hide Sound, NextKey, Tracked;
      ConsumedIs(Now(), key);
      TrackedKept(Now(), Consumed(Now(), key), Listing());
      KeyThere(Now(), key);
      HeadMerge(freeDb[key].ids);
      pgLast := key;
    }

    /** The cursor on the freeDB: the first record whose key is above me_pglast. */
    method NextRecord() returns (found: bool, key: TxnId)
      requires pgHead != null ==> IdList.Valid(pgHead)
      ensures found ==> NextKey(Now(), key)
      ensures !found ==> forall j :: j in freeDb ==> j <= pgLast
    {
      var keys := set k | k in freeDb && pgLast < k;
      if keys == {} {
        found, key := false, 0;
        assert forall j :: j in freeDb && pgLast < j ==> j in keys;
      } else {
        found := true;
        key := Smallest(keys);
        assert forall j :: j in freeDb && pgLast < j ==> j in keys;
      }
    }

    /** A record is too recent when its key is not below the oldest reader; the cached
        value is looked up again once before giving up. */
    method TooRecent(oldest0: TxnId, last: TxnId, foundOld0: bool) returns (stop: bool, oldest: TxnId, foundOld: bool)
      requires oldest0 == pgOldest < txnid && (foundOld0 ==> IsOldest(pgOldest))
      modifies this`pgOldest
      ensures oldest == pgOldest < txnid && (stop <==> oldest <= last)
      ensures (foundOld0 || stop ==> foundOld) && (foundOld ==> IsOldest(pgOldest))
      ensures !foundOld || foundOld0 ==> pgOldest == old(pgOldest)
    {
      oldest, foundOld := oldest0, foundOld0;
      if oldest <= last && !foundOld {
        oldest := Refresh();
        foundOld := true;
      }
      stop := oldest <= last;
    }

    /** The loop of mdb_page_alloc: look for a run of `num` pages in me_pghead, and merge
        the next record that no reader can need while there is none.  i is the end of the
        run, or 0. */
    method SeekRun(num: nat) returns (i: nat, ghost ops: seq<Op>)
      requires Ok() && num > 0
      modifies this`pgHead, this`pgLast, this`pgOldest, pgHead
      ensures Ok() && (pgHead == old(pgHead) || fresh(pgHead))
      ensures OnlyFetched(old(Now()), ops, Now())
      ensures Guarded(ops, old(pgOldest), pgOldest) && (pgOldest == old(pgOldest) || IsOldest(pgOldest))
      ensures Found(HeadIds(), i, num)
      ensures i == 0 ==> UsedUp() || (num > 1 && |ops| >= num * 60)
      ensures Patient(Abs(old(Now())), ops, num) && Tries(Abs(old(Now())), ops, num) <= num * 60
      ensures i == 0 && !UsedUp() ==> Tries(Abs(old(Now())), ops, num) == num * 60 && |HeadIds()| >= num
    {
      hide Sound, NextKey, Abs, Ran, OnlyFetched, Found, Left, Consumed, Tracked, UsedUp, IsOldest, Guarded, Patient, Tries;
      i, ops := 0, [];
      ghost var l := Abs(Now());
      PatientNone(l, num);
      GuardedNone(pgOldest);
      NothingFetched(Now());
      var retry, foundOld, stop := num * 60, false, false;
      while !stop
        modifies this`pgHead, this`pgLast, this`pgOldest, pgHead
        invariant Ok() && (pgHead == old(pgHead) || fresh(pgHead))
        invariant OnlyFetched(old(Now()), ops, Now()) && Guarded(ops, old(pgOldest), pgOldest)
        invariant if foundOld then IsOldest(pgOldest) else pgOldest == old(pgOldest)
        invariant Patient(l, ops, num) && Tries(l, ops, num) <= |ops|
        invariant if stop then Tries(l, ops, num) <= num * 60 else retry + Tries(l, ops, num) == num * 60 && retry >= 0
        invariant stop ==> i == 0 && Found(HeadIds(), i, num) && UsedUp()
        decreases Left(Now()), !stop
      {
        i := Search(num);
        if i != 0 { return; }
        if pgHead != null && Len(pgHead) >= num {
          retry := retry - 1;
          SinglePage(HeadIds(), num);
          if retry < 0 { return; }
        }
        PatientThen(old(Now()), ops, Now(), num);
        stop, foundOld, ops := Fetch1(foundOld, old(Now()), ops, old(pgOldest));
      }
    }

    /** Merge one more record, unless none is left that could be: already the next key may be
        too recent. */
    method Fetch1(foundOld0: bool, ghost s: State, ghost ops0: seq<Op>, ghost cached: TxnId)
      returns (stop: bool, foundOld: bool, ghost ops: seq<Op>)
      requires Ok() && OnlyFetched(s, ops0, Now()) && Guarded(ops0, cached, pgOldest)
      requires if foundOld0 then IsOldest(pgOldest) else pgOldest == cached
      modifies this`pgHead, this`pgLast, this`pgOldest, pgHead
      ensures Ok() && (pgHead == old(pgHead) || fresh(pgHead))
      ensures OnlyFetched(s, ops, Now()) && Guarded(ops, cached, pgOldest)
      ensures if foundOld then IsOldest(pgOldest) else pgOldest == cached
      ensures stop ==> Now() == old(Now()) && UsedUp() && ops == ops0
      ensures !stop ==> Left(Now()) < old(Left(Now())) && ops == ops0 + [Consume(pgLast)]
    {
      hide Sound, NextKey, Abs, Ran, OnlyFetched, Left, Consumed, Tracked, UsedUp, IsOldest, Guarded;
      ops := ops0;
      var oldest;
      stop, oldest, foundOld := TooRecent(pgOldest, pgLast + 1, foundOld0);
      if !foundOld0 { GuardedNow(ops, cached, pgOldest); }
      if stop {
        NoneBelow();
        return;
      }
      stop, foundOld, ops := FetchNext(foundOld, s, ops, cached);
    }

    /** Read the next record and merge it, unless there is none or it is too recent. */
    method FetchNext(foundOld0: bool, ghost s: State, ghost ops0: seq<Op>, ghost cached: TxnId)
      returns (stop: bool, foundOld: bool, ghost ops: seq<Op>)
      requires Ok() && OnlyFetched(s, ops0, Now()) && Guarded(ops0, cached, pgOldest)
      requires if foundOld0 then IsOldest(pgOldest) else pgOldest == cached
      modifies this`pgHead, this`pgLast, this`pgOldest, pgHead
      ensures Ok() && (pgHead == old(pgHead) || fresh(pgHead))
      ensures OnlyFetched(s, ops, Now()) && Guarded(ops, cached, pgOldest)
      ensures if foundOld then IsOldest(pgOldest) else pgOldest == cached
      ensures stop ==> Now() == old(Now()) && UsedUp() && ops == ops0
      ensures !stop ==> Left(Now()) < old(Left(Now())) && ops == ops0 + [Consume(pgLast)] && pgLast < pgOldest
    {
      hide Sound, OnlyFetched, Left, Consumed, Tracked, IsOldest, Guarded;
      foundOld, ops := foundOld0, ops0;
      var found, key := NextRecord();
      if !found { return true, foundOld, ops; }
      var oldest;
      stop, oldest, foundOld := TooRecent(pgOldest, key, foundOld);
      if !foundOld0 { GuardedNow(ops, cached, pgOldest); }
      if stop { return; }
      OneFetched(s, ops, Now(), key);
      GuardedThen(ops, Consume(key), cached, pgOldest);
      FewerLeft(Now(), key);
      Fetch(key);
      ops := ops + [Consume(key)];
    }

    method Search(num: nat) returns (i: nat)
      requires Ok() && num > 0
      ensures Found(HeadIds(), i, num)
    {
      hide Sound, HasRun, StrictlyDescending;
      i := 0;
      if pgHead != null && Len(pgHead) >= num {
        HeadDescends(Now());
        i := FindRun(pgHead, num);
      } else {
        TooShort(Now(), num);
      }
    }

    method HeadTake(i: nat, num: nat) returns (pgno: Pgno)
      requires pgHead != null && IdList.Valid(pgHead) && 0 < num <= i <= Len(pgHead)
      modifies pgHead
      ensures IdList.Valid(pgHead) && Ids(pgHead) == RunList.Without(old(Ids(pgHead)), i, num)
      ensures pgno == AsPgno(old(Ids(pgHead))[i - 1])
    {
      pgno := pgHead[i];
      assert Ids(pgHead)[i - 1] == pgHead[i];
      RemoveRun(pgHead, i, num);
    }

    method HeadGive(pg: Id, n: nat)
      requires pgHead != null && IdList.Valid(pgHead) && StrictlyDescending(Ids(pgHead))
      requires pg + n <= MAX_ID && Len(pgHead) + n <= MAX_ID
      modifies this`pgHead, pgHead
      ensures pgHead != null && IdList.Valid(pgHead) && Ids(pgHead) == RunInserted(old(Ids(pgHead)), pg, n)
      ensures pgHead == old(pgHead) || fresh(pgHead)
    {
      pgHead := Need(pgHead, n);
      InsertRun(pgHead, pg, n);
    }

    method TakeLoose() returns (pgno: Pgno, ghost ops: seq<Op>)
      requires Ok() && loose != []
      modifies this`loose, this`tree
      ensures Ok() && Now() == ReusedLoose(old(Now())) && pgno == old(loose)[0] && pgno in dirty
      ensures ops == [ReuseLoose(pgno)]
      ensures Allocated(old(Now()), ops, Now(), pgno, 1)
    {
      hide Sound, Abs, Ran, Allocated, Tracked;
      AllocatedLoose(Now());
      TrackedReused(Now(), Listing());
      pgno := loose[0];
      ops := [ReuseLoose(pgno)];
      loose, tree := loose[1..], tree + {pgno};
    }

    /** mdb_page_dirty: the page is not listed yet, and the list is not full. */
    method PageDirty(p: Pgno, n: nat)
      requires (pgHead != null ==> IdList.Valid(pgHead)) && pgOldest < txnid && Sound(Now())
      requires dirtyRoom > 0 && p !in dirty && Tracked(Now(), Entered(Listing(), p, n))
      modifies this`dirty, this`dirtyRoom, this`sizes
      ensures Ok() && Listing() == Entered(old(Listing()), p, n) && |dirty| == |old(dirty)| + 1 <= IDL_UM_MAX
      ensures dirty == old(dirty) + {p} && dirtyRoom == old(dirtyRoom) - 1 && p in sizes && sizes[p] == n
    {
      hide Sound;
      dirty, dirtyRoom, sizes := dirty + {p}, dirtyRoom - 1, sizes[p := n];
    }

    /** mdb_page_alloc */
    method PageAlloc(num: nat) returns (rc: Code, pgno: Pgno, ghost ops: seq<Op>)
      requires Ok() && num > 0
      modifies this, pgHead
      ensures Ok() && (pgHead == old(pgHead) || fresh(pgHead))
      ensures rc == Success ==> Allocated(old(Now()), ops, Now(), pgno, num) && pgno in dirty
      ensures rc != Success ==> OnlyFetched(old(Now()), ops, Now())
      ensures rc == TxnFull <==> old(dirtyRoom) == 0 && !(num == 1 && old(loose) != [])
      ensures rc == MapFull ==> nextPgno + num >= maxPg && forall p :: !HasRun(HeadIds(), p, num)
      ensures nextPgno == old(nextPgno) || nextPgno == old(nextPgno) + num < maxPg
      ensures Guarded(ops, old(pgOldest), pgOldest) && (pgOldest == old(pgOldest) || IsOldest(pgOldest))
      ensures rc == MapFull || nextPgno != old(nextPgno) ==> UsedUp() || (num > 1 && |ops| >= num * 60)
      ensures num == 1 && old(loose) != [] ==> Now() == ReusedLoose(old(Now()))
      ensures if rc == Success && !(num == 1 && old(loose) != []) then JustListed(old(Listing()), pgno, num)
              else Listing() == old(Listing())
      ensures spilled == old(spilled) && readers == old(readers)
      ensures error == (old(error) || rc != Success)
    {
      hide Sound, Abs, Ran, OnlyFetched, Allocated, Found, HasRun, Tracked, UsedUp, JustListed, ReusedLoose, Guarded;
      pgno, ops := 0, [];
      GuardedNone(pgOldest);
      if num == 1 && loose != [] {
        pgno, ops := TakeLoose();
        GuardedThen([], ops[0], pgOldest, pgOldest);
        assert [] + [ops[0]] == ops;
        return Success, pgno, ops;
      }
      if dirtyRoom == 0 {
        NothingFetched(Now());
        error := true;
        return TxnFull, pgno, ops;
      }
      rc, pgno, ops := AllocListed(num);
      if rc != Success { error := true; }
    }

    /** A page that was in neither list is now in the dirty list. */
    ghost predicate JustListed(l: Lists, p: Pgno, n: nat)
      reads this`dirty, this`dirtyRoom, this`spilled, this`sizes
    {
      !OnList(l, p) && l.room > 0 && Listing() == Entered(l, p, n)
    }

    /** Pages that are not loose ones: reclaimed, or else new. */
    method AllocPages(num: nat) returns (rc: Code, pgno: Pgno, ghost ops: seq<Op>)
      requires Ok() && num > 0
      modifies this`pgHead, this`pgLast, this`pgOldest, this`tree, this`nextPgno, pgHead
      ensures Ok() && (pgHead == old(pgHead) || fresh(pgHead))
      ensures rc == Success ==> Allocated(old(Now()), ops, Now(), pgno, num)
      ensures rc != Success ==> rc == MapFull && OnlyFetched(old(Now()), ops, Now())
      ensures rc == MapFull ==> nextPgno + num >= maxPg && forall p :: !HasRun(HeadIds(), p, num)
      ensures nextPgno == old(nextPgno) || nextPgno == old(nextPgno) + num < maxPg
      ensures Guarded(ops, old(pgOldest), pgOldest) && (pgOldest == old(pgOldest) || IsOldest(pgOldest))
      ensures rc == MapFull || nextPgno != old(nextPgno) ==> UsedUp() || (num > 1 && |ops| >= num * 60)
    {
      hide Sound, Abs, Ran, OnlyFetched, Allocated, Found, HasRun, Tracked, UsedUp, Guarded;
      var i;
      i, ops := SeekRun(num);
      rc, pgno, ops := TakePages(i, num, old(Now()), ops, old(pgOldest));
    }

    /** Pages that are not loose ones, entered into the dirty list. */
    method AllocListed(num: nat) returns (rc: Code, pgno: Pgno, ghost ops: seq<Op>)
      requires Ok() && num > 0 && dirtyRoom > 0
      modifies this`pgHead, this`pgLast, this`pgOldest, this`tree, this`nextPgno, this`dirty, this`dirtyRoom, this`sizes, pgHead
      ensures Ok() && (pgHead == old(pgHead) || fresh(pgHead))
      ensures rc == Success ==> Allocated(old(Now()), ops, Now(), pgno, num) && JustListed(old(Listing()), pgno, num)
      ensures rc == Success ==> pgno in dirty
      ensures rc != Success ==> rc == MapFull && OnlyFetched(old(Now()), ops, Now())
      ensures rc != Success ==> Listing() == old(Listing())
      ensures rc == MapFull ==> nextPgno + num >= maxPg && forall p :: !HasRun(HeadIds(), p, num)
      ensures nextPgno == old(nextPgno) || nextPgno == old(nextPgno) + num < maxPg
      ensures Guarded(ops, old(pgOldest), pgOldest) && (pgOldest == old(pgOldest) || IsOldest(pgOldest))
      ensures rc == MapFull || nextPgno != old(nextPgno) ==> UsedUp() || (num > 1 && |ops| >= num * 60)
    {
      hide Sound, Abs, Ran, OnlyFetched, Allocated, Found, HasRun, Tracked, UsedUp, Guarded, IsOldest, OnList, Run;
      rc, pgno, ops := AllocPages(num);
      if rc == Success {
        AllocatedTaken(old(Now()), ops, Now(), pgno, num);
        Untracked(old(Now()), Now(), pgno, num, Listing());
        PageDirty(pgno, num);
      }
    }

    /** The pages found, or else new ones from the map. */
    method TakePages(i: nat, num: nat, ghost s: State, ghost ops0: seq<Op>, ghost cached: TxnId)
      returns (rc: Code, pgno: Pgno, ghost ops: seq<Op>)
      requires Ok() && num > 0 && OnlyFetched(s, ops0, Now()) && Found(HeadIds(), i, num)
      requires Guarded(ops0, cached, pgOldest)
      modifies this`tree, this`nextPgno, pgHead
      ensures Ok()
      ensures rc == Success ==> Allocated(s, ops, Now(), pgno, num)
      ensures rc != Success ==> rc == MapFull && ops == ops0 && Now() == old(Now())
      ensures rc == MapFull ==> nextPgno + num >= maxPg && forall p :: !HasRun(HeadIds(), p, num)
      ensures nextPgno == old(nextPgno) || nextPgno == old(nextPgno) + num < maxPg
      ensures nextPgno != old(nextPgno) || rc == MapFull ==> i == 0
      ensures |ops| >= |ops0| && Guarded(ops, cached, pgOldest)
    {
      hide Sound, Abs, Ran, OnlyFetched, Allocated, HasRun, Tracked, Guarded;
      if i == 0 {
        rc, pgno, ops := ExtendMap(num, s, ops0, cached);
      } else {
        pgno, ops := TakeRun(i, num, s, ops0, cached);
        rc := Success;
      }
    }

    /** New pages at the end of the map. */
    method ExtendMap(num: nat, ghost s: State, ghost ops0: seq<Op>, ghost cached: TxnId)
      returns (rc: Code, pgno: Pgno, ghost ops: seq<Op>)
      requires Ok() && num > 0 && OnlyFetched(s, ops0, Now()) && Found(HeadIds(), 0, num) && Guarded(ops0, cached, pgOldest)
      modifies this`tree, this`nextPgno
      ensures Ok() && |ops| >= |ops0| && Guarded(ops, cached, pgOldest)
      ensures rc == Success ==> Allocated(s, ops, Now(), pgno, num)
      ensures rc != Success ==> rc == MapFull && ops == ops0 && Now() == old(Now())
      ensures rc == MapFull <==> old(nextPgno) + num >= maxPg
      ensures rc != MapFull ==> nextPgno == old(nextPgno) + num
    {
      hide Sound, Abs, Ran, OnlyFetched, Allocated, Found, Tracked, Guarded, Run;
      ghost var t := Now();
      pgno := nextPgno;
      if pgno + num >= maxPg {
        return MapFull, pgno, ops0;
      }
      AllocatedNew(s, ops0, t, num);
      GuardedThen(ops0, TakeNew(num), cached, pgOldest);
      TrackedTaken(t, TookNew(t, num), pgno, num, Listing());
      ops := ops0 + [TakeNew(num)];
      nextPgno := pgno + num;
      tree := tree + Run(pgno, num);
      rc := Success;
    }

    /** The run that ends at i. */
    method TakeRun(i: nat, num: nat, ghost s: State, ghost ops0: seq<Op>, ghost cached: TxnId)
      returns (pgno: Pgno, ghost ops: seq<Op>)
      requires Ok() && num > 0 && i > 0 && OnlyFetched(s, ops0, Now()) && Found(HeadIds(), i, num)
      requires Guarded(ops0, cached, pgOldest)
      modifies this`tree, pgHead
      ensures Ok() && |ops| >= |ops0| && Guarded(ops, cached, pgOldest)
      ensures Allocated(s, ops, Now(), pgno, num)
    {
      ghost var t := Now();
      hide Sound, Abs, Ran, OnlyFetched, Allocated, Tracked, Guarded, Run, RunList.Without;
      AllocatedHead(s, ops0, t, i, num);
      TrackedTaken(t, TookRun(t, i, num), t.head[i - 1], num, Listing());
      pgno := HeadTake(i, num);
      GuardedThen(ops0, TakeHead(Run(pgno, num)), cached, pgOldest);
      ops := ops0 + [TakeHead(Run(pgno, num))];
      tree := tree + Run(pgno, num);
    }

    /** mdb_page_loose in a top-level transaction: a dirty page is kept for reuse, except in
        the freeDB. */
    method PageLoose(p: Pgno, inFreeDb: bool) returns (ghost ops: seq<Op>)
      requires Ok() && p in tree
      modifies this`tree, this`loose, this`freePgs
      ensures Ok() && Ran(old(Abs(Now())), ops, Abs(Now())) && p < MAX_ID
      ensures Now() == if p in dirty && !inFreeDb then Loosened(old(Now()), p) else Freed(old(Now()), p, 1)
    {
      hide Sound, Abs, Ran, Tracked;
      InTreeBelow(Now(), p);
      OneRun(p);
      if p in dirty && !inFreeDb {
        LoosenedIs(Now(), p);
        TrackedLoosened(Now(), p, Listing());
        ops := [Loosen(p)];
        RanOne(Abs(Now()), Loosen(p));
        loose := [p] + loose;
      } else {
        FreedIs(Now(), p, 1);
        TrackedFreed(Now(), p, 1, Listing());
        ops := [Op.Free(Run(p, 1))];
        RanOne(Abs(Now()), Op.Free(Run(p, 1)));
        freePgs := freePgs + [p];
      }
      tree := tree - {p};
    }

    /** mdb_page_unspill of a page this transaction has spilled. */
    method Unspill(p: Pgno) returns (rc: Code)
      requires Ok() && p in spilled
      modifies this`spilled, this`dirty, this`dirtyRoom, this`sizes
      ensures Ok() && (rc == Success <==> old(dirtyRoom) > 0) && rc != MapFull
      ensures rc == Success ==> p in dirty && Listing() == TakenBack(old(Listing()), p)
      ensures rc == Success ==> dirty == old(dirty) + {p} && spilled == old(spilled) - {p} && dirtyRoom == old(dirtyRoom) - 1
      ensures rc != Success ==> Listing() == old(Listing())
    {
      hide Sound, Tracked;
      if dirtyRoom == 0 { return TxnFull; }
      TrackedUnspilled(Now(), Listing(), p);
      spilled := spilled - {p};
      PageDirty(p, sizes[p]);
      rc := Success;
    }

    method LooseSet() returns (pages: set<Pgno>)
      ensures pages == Elems(loose)
    {
      pages := set i | 0 <= i < |loose| :: AsPgno(loose[i]);
    }

    /** mdb_page_spill: the pages chosen that are dirty and not loose are spilled.  Which ones
        are chosen is left open. */
    method PageSpill(pages: set<Pgno>)
      requires Ok()
      modifies this`spilled, this`dirty, this`dirtyRoom
      ensures Ok() && Now() == old(Now())
      ensures Listing() == Spilt(old(Listing()), pages, Elems(loose))
      ensures var moved := pages * old(dirty) - Elems(loose);
              dirty == old(dirty) - moved && spilled == old(spilled) + moved && dirtyRoom == old(dirtyRoom) + |moved|
    {
      hide Sound, Tracked, Elems;
      TrackedSpilled(Now(), Listing(), pages);
      var kept := LooseSet();
      var moved := pages * dirty - kept;
      dirty, spilled, dirtyRoom := dirty - moved, spilled + moved, dirtyRoom + |moved|;
    }

    /** mdb_page_touch: a page that is not writable yet is replaced by a new one and goes
        onto mt_free_pgs; a spilled page is taken back as it is. */
    method PageTouch(p: Pgno) returns (rc: Code, np: Pgno, ghost ops: seq<Op>)
      requires Ok() && p in tree
      modifies this, pgHead
      ensures Ok() && (pgHead == old(pgHead) || fresh(pgHead))
      ensures Ran(old(Abs(Now())), ops, Abs(Now())) && OnlyWorked(old(Now()), Now())
      ensures rc == Success ==> np in dirty && (np == p <==> p in old(dirty) + old(spilled))
      ensures p in old(dirty) ==> rc == Success && Listing() == old(Listing())
      ensures p in old(spilled) && p !in old(dirty) ==> (rc == Success <==> old(dirtyRoom) > 0)
      ensures p in old(spilled) && p !in old(dirty) && rc == Success ==> Listing() == TakenBack(old(Listing()), p)
      ensures p in old(dirty) + old(spilled) ==> Now() == old(Now())
      ensures rc == Success && np != p ==> np !in old(tree) && tree == old(tree) + {np} - {p} && freePgs == old(freePgs) + [p]
      ensures rc != Success ==> tree == old(tree) && freePgs == old(freePgs) && Listing() == old(Listing())
      ensures spilled == if rc == Success && p !in old(dirty) then old(spilled) - {p} else old(spilled)
      ensures error == (old(error) || rc != Success)
    {
      hide Sound, Abs, Ran, Tracked, OnlyWorked, JustListed;
      np, ops := p, [];
      if p in dirty || p in spilled {
        NothingFetched(Now());
        FetchedRan(Now(), [], Now());
      }
      if p in dirty { return Success, np, ops; }
      if p in spilled {
        rc := Unspill(p);
        if rc != Success { error := true; }
        return;
      }
      rc, np, ops := Replace(p);
    }

    /** The page's successor is allocated, the page freed. */
    method Replace(p: Pgno) returns (rc: Code, np: Pgno, ghost ops: seq<Op>)
      requires Ok() && p in tree
      modifies this, pgHead
      ensures Ok() && (pgHead == old(pgHead) || fresh(pgHead))
      ensures Ran(old(Abs(Now())), ops, Abs(Now())) && OnlyWorked(old(Now()), Now())
      ensures rc == Success ==> np in dirty && np != p && np !in old(tree)
      ensures rc == Success ==> tree == old(tree) + {np} - {p} && freePgs == old(freePgs) + [p]
      ensures rc != Success ==> tree == old(tree) && freePgs == old(freePgs) && Listing() == old(Listing())
      ensures spilled == old(spilled) && error == (old(error) || rc != Success)
    {
      hide Sound, Abs, Ran, Allocated, OnlyFetched, OnlyWorked, Tracked, UsedUp, JustListed, ReusedLoose, HasRun;
      rc, np, ops := PageAlloc(1);
      if rc != Success {
        FetchedRan(old(Now()), ops, Now());
        return;
      }
      Replaced(old(Now()), ops, Now(), np, p);
      TrackedFreed(Now(), p, 1, Listing());
      freePgs, tree := freePgs + [p], tree - {p};
      ops := ops + [Op.Free(Run(p, 1))];
    }

    /** mdb_ovpage_free in a top-level transaction: pages acquired in this transaction go
        straight back to me_pghead, if there is one. */
    method OvpageFree(pg: Pgno, n: nat) returns (ghost ops: seq<Op>)
      requires Ok() && n > 0 && Run(pg, n) <= tree && (pg in dirty + spilled && pg in sizes ==> n == sizes[pg])
      modifies this`tree, this`freePgs, this`dirty, this`spilled, this`dirtyRoom, this`pgHead, pgHead
      ensures Ok() && (pgHead == old(pgHead) || fresh(pgHead))
      ensures Ran(old(Abs(Now())), ops, Abs(Now())) && pg + n <= MAX_ID
      ensures Now() == if old(pgHead) != null && pg in old(dirty) + old(spilled) then Given(old(Now()), pg, n)
                       else Freed(old(Now()), pg, n)
      ensures Listing() == if old(pgHead) != null then Unlisted(old(Listing()), pg) else old(Listing())
      ensures old(pgHead) != null ==>
                && dirty == old(dirty) - {pg} && spilled == old(spilled) - {pg}
                && dirtyRoom == old(dirtyRoom) + if pg in old(dirty) then 1 else 0
    {
      hide Sound, Abs, Ran, Tracked, Given, Freed;
      ListedSize(Now(), Listing(), pg);
      InTreeBelow(Now(), pg + n - 1);
      if pgHead != null && (pg in dirty || pg in spilled) {
        ops := ReleaseRun(pg, n);
      } else {
        ops := FreeRun(pg, n);
      }
    }

    method FreeRun(pg: Pgno, n: nat) returns (ghost ops: seq<Op>)
      requires Ok() && Run(pg, n) <= tree && pg + n <= MAX_ID
      modifies this`tree, this`freePgs
      ensures Ok() && Ran(old(Abs(Now())), ops, Abs(Now())) && Now() == Freed(old(Now()), pg, n)
    {
      hide Sound, Abs, Ran, Tracked;
      FreedIs(Now(), pg, n);
      TrackedFreed(Now(), pg, n, Listing());
      ops := [Op.Free(Run(pg, n))];
      RanOne(Abs(Now()), Op.Free(Run(pg, n)));
      freePgs, tree := freePgs + DescRun(pg, n), tree - Run(pg, n);
    }

    method ReleaseRun(pg: Pgno, n: nat) returns (ghost ops: seq<Op>)
      requires Ok() && Run(pg, n) <= tree && pgHead != null && pg in dirty + spilled && pg + n <= MAX_ID
      requires pg in sizes && n == sizes[pg]
      modifies this`tree, this`dirty, this`spilled, this`dirtyRoom, this`pgHead, pgHead
      ensures Ok() && pgHead != null && (pgHead == old(pgHead) || fresh(pgHead))
      ensures Ran(old(Abs(Now())), ops, Abs(Now())) && Now() == Given(old(Now()), pg, n)
      ensures Listing() == Unlisted(old(Listing()), pg)
    {
      hide Sound, Abs, Ran, Tracked, Given, Run, Ids;
      TrackedGiven(Now(), Listing(), pg);
      ops := GiveBack(pg, n);
      Unlist(pg);
    }

    /** The page leaves the list it is in. */
    method Unlist(pg: Pgno)
      requires (pgHead != null ==> IdList.Valid(pgHead)) && pgOldest < txnid && Sound(Now())
      requires dirty !! spilled && pg in dirty + spilled && Tracked(Now(), Unlisted(Listing(), pg))
      modifies this`dirty, this`spilled, this`dirtyRoom
      ensures Ok() && Now() == old(Now()) && Listing() == Unlisted(old(Listing()), pg)
    {
      hide Sound, Tracked;
      if pg !in dirty {
        spilled := spilled - {pg};
        assert dirty == old(dirty) - {pg};
      } else {
        dirty, dirtyRoom := dirty - {pg}, dirtyRoom + 1;
        assert spilled == old(spilled) - {pg};
      }
    }

    method GiveBack(pg: Pgno, n: nat) returns (ghost ops: seq<Op>)
      requires pgHead != null && IdList.Valid(pgHead) && Sound(Now()) && Run(pg, n) <= tree && pg + n <= MAX_ID
      modifies this`tree, this`pgHead, pgHead
      ensures pgHead != null && IdList.Valid(pgHead) && Sound(Now()) && (pgHead == old(pgHead) || fresh(pgHead))
      ensures Ran(old(Abs(Now())), ops, Abs(Now())) && Now() == Given(old(Now()), pg, n)
    {
      hide Sound, Abs, Ran, RunInserted;
      GivenIs(Now(), pg, n);
      HeadDescends(Now());
      ops := [Release(Run(pg, n))];
      RanOne(Abs(Now()), Release(Run(pg, n)));
      HeadGive(pg, n);
      tree := tree - Run(pg, n);
    }

    /** The freeDB after a put or a delete. */
    method SetRecords(db: map<TxnId, Record>)
      requires Ok() && Sound(Now().(freeDb := db))
      modifies this`freeDb
      ensures Ok() && Now() == old(Now()).(freeDb := db)
    {
      hide Sound, Tracked;
      TrackedKept(Now(), Now().(freeDb := db), Listing());
      freeDb := db;
    }

    /** An operation on the freeDB failed. */
    method Fail()
      requires Ok()
      modifies this`error
      ensures Ok() && Now() == old(Now()) && error
    {
      hide Sound, Tracked;
      error := true;
    }

    method Refresh() returns (oldest: TxnId)
      requires txnid > 0
      modifies this`pgOldest
      ensures oldest == pgOldest && IsOldest(pgOldest)
    {
      oldest := FindOldest();
      pgOldest := oldest;
    }

    /** No key above me_pglast is below the oldest reader. */
    lemma {:induction false} NoneBelow()
      requires IsOldest(pgOldest) && pgOldest <= pgLast + 1
      ensures UsedUp()
    {
    }
  }

  /** Where num pages are free but no run of num, num is not 1. */
  lemma {:induction false} SinglePage(head: seq<Id>, num: nat)
    requires Found(head, 0, num) && |head| >= num > 0
    ensures num > 1
  {
    if num == 1 { OnePage(head); }
  }

  lemma {:induction false} OnePage(head: seq<Id>)
    requires head != []
    ensures HasRun(head, head[0], 1)
  {
    assert At(head, head[0]);
  }

  /** The free pages in me_pghead after some moves. */
  ghost function HeadAfter(l: Ledger, ops: seq<Op>): set<Pgno>
    decreases |ops|
  {
    if ops == [] then l.head
    else if Can(l, ops[0]) then HeadAfter(Do(l, ops[0]), ops[1..])
    else {}
  }

  lemma {:induction false} HeadAfterRan(l: Ledger, ops: seq<Op>, m: Ledger)
    requires Ran(l, ops, m)
    ensures HeadAfter(l, ops) == m.head
    decreases |ops|
  {
    if ops == [] {
    } else {
      HeadAfterRan(Do(l, ops[0]), ops[1..], m);
    }
  }

  ghost predicate RunFree(pages: set<Pgno>, num: nat) {
    forall p: Pgno :: !(Run(p, num) <= pages)
  }

  /** A record is fetched only while there is no run of num pages. */
  ghost predicate Patient(l: Ledger, ops: seq<Op>, num: nat) {
    forall k :: 0 <= k < |ops| ==> RunFree(HeadAfter(l, ops[..k]), num)
  }

  /** How often there were enough pages for one. */
  ghost function Tries(l: Ledger, ops: seq<Op>, num: nat): nat {
    if ops == [] then 0
    else
      var before := ops[..|ops| - 1];
      Tries(l, before, num) + if |HeadAfter(l, before)| >= num then 1 else 0
  }

  lemma {:induction false} PatientNone(l: Ledger, num: nat)
    ensures Patient(l, [], num) && Tries(l, [], num) == 0
  {
  }

  /** One more record, because there is no run. */
  lemma {:induction false} PatientThen(s: State, ops: seq<Op>, t: State, num: nat)
    requires OnlyFetched(s, ops, t) && Sound(t) && Found(t.head, 0, num) && Patient(Abs(s), ops, num)
    ensures forall op :: Patient(Abs(s), ops + [op], num)
    ensures forall op :: Tries(Abs(s), ops + [op], num) == Tries(Abs(s), ops, num) + if |t.head| >= num then 1 else 0
  {
    HeadAfterRan(Abs(s), ops, Abs(t));
    HeadCount(t);
    RunFreeIn(t.head, num);
    hide Sound, Abs, HeadAfter, RunFree, Found, OnlyFetched;
    forall op ensures Patient(Abs(s), ops + [op], num) {
      var more := ops + [op];
      forall k | 0 <= k < |more| ensures RunFree(HeadAfter(Abs(s), more[..k]), num) {
        assert more[..k] == ops[..k];
        assert k == |ops| ==> ops[..k] == ops;
      }
    }
    forall op ensures Tries(Abs(s), ops + [op], num) == Tries(Abs(s), ops, num) + if |t.head| >= num then 1 else 0 {
      assert (ops + [op])[..|ops|] == ops;
    }
  }

  lemma {:induction false} HeadCount(s: State)
    requires Sound(s)
    ensures |Elems(s.head)| == |s.head| && Abs(s).head == Elems(s.head)
  {
    DistinctSize(s.head);
  }

  lemma {:induction false} RunFreeIn(head: seq<Id>, num: nat)
    requires Found(head, 0, num)
    ensures RunFree(Elems(head), num)
  {
    forall p: Pgno ensures !(Run(p, num) <= Elems(head)) {
      if Run(p, num) <= Elems(head) {
        forall k | p <= k < p + num ensures At(head, k) {
          assert k in Run(p, num);
        }
        assert HasRun(head, p, num);
      }
    }
  }

  /** Records are consumed only below the oldest id that was cached, or below the one looked
      up since: no reader can need their pages. */
  ghost predicate Guarded(ops: seq<Op>, cached: TxnId, found: TxnId) {
    forall i :: 0 <= i < |ops| && ops[i].Consume? ==> ops[i].key < cached || ops[i].key < found
  }

  lemma {:induction false} GuardedThen(ops: seq<Op>, op: Op, cached: TxnId, found: TxnId)
    requires Guarded(ops, cached, found) && (op.Consume? ==> op.key < found)
    ensures Guarded(ops + [op], cached, found)
  {
  }

  lemma {:induction false} GuardedNone(cached: TxnId)
    ensures Guarded([], cached, cached)
  {
  }

  lemma {:induction false} GuardedNow(ops: seq<Op>, cached: TxnId, found: TxnId)
    requires Guarded(ops, cached, cached)
    ensures Guarded(ops, cached, found)
  {
  }

  /** mdb_page_alloc succeeded: the pages were free, now the tree has them, and a page of
      the map beyond the last one used is taken only when no run is left in me_pghead. */
  ghost predicate Allocated(s: State, ops: seq<Op>, t: State, pgno: Pgno, n: nat) {
    && Ran(Abs(s), ops, Abs(t)) && Advanced(s, t)
    && Run(pgno, n) !! s.tree && t.tree == s.tree + Run(pgno, n)
    && (t.loose == s.loose || (n == 1 && s.loose != [] && t.loose == s.loose[1..] && pgno == AsPgno(s.loose[0])))
    && (t.next == s.next || (t.next == s.next + n && pgno == s.next && forall p :: !HasRun(t.head, p, n)))
    && t == s.(hasHead := t.hasHead, head := t.head, last := t.last, tree := t.tree, loose := t.loose, next := t.next)
  }

  lemma {:induction false} AllocatedTaken(s: State, ops: seq<Op>, t: State, pgno: Pgno, n: nat)
    requires Allocated(s, ops, t, pgno, n)
    ensures Run(pgno, n) !! s.tree && t.tree == s.tree + Run(pgno, n) && t.freePgs == s.freePgs
  {
  }

  lemma {:induction false} AllocatedLoose(s: State)
    requires Sound(s) && s.loose != []
    ensures Sound(ReusedLoose(s))
    ensures Allocated(s, [ReuseLoose(AsPgno(s.loose[0]))], ReusedLoose(s), AsPgno(s.loose[0]), 1)
  {
    var p := AsPgno(s.loose[0]);
    ReusedLooseIs(s);
    RanOne(Abs(s), ReuseLoose(p));
    assert Run(p, 1) == {p};
    assert At(s.loose, s.loose[0]);
    Apart2(s, InLoose, InTree, p);
  }

  /** What any work on the trees leaves alone: the freeDB records, and what is already on
      mt_free_pgs; me_pglast and the end of the map only grow. */
  ghost predicate OnlyWorked(s: State, t: State) {
    && t == s.(hasHead := t.hasHead, head := t.head, last := t.last, tree := t.tree, loose := t.loose,
               freePgs := t.freePgs, next := t.next)
    && Advanced(s, t) && s.freePgs <= t.freePgs && s.next <= t.next && |t.loose| <= |s.loose|
  }

  lemma {:induction false} FetchedRan(s: State, ops: seq<Op>, t: State)
    requires OnlyFetched(s, ops, t)
    ensures Ran(Abs(s), ops, Abs(t)) && t.tree == s.tree && t.freePgs == s.freePgs && OnlyWorked(s, t)
  {
  }

  lemma {:induction false} OneRun(p: Pgno)
    ensures Run(p, 1) == {p}
    ensures p <= MAX_ID ==> DescRun(p, 1) == [p]
  {
  }

  lemma {:induction false} InTreeBelow(s: State, p: Pgno)
    requires Sound(s) && p in s.tree
    ensures p < s.next < MAX_ID
  {
    Below(s, InTree, p);
  }

  /** A page copied: the new one is in the tree, the old one freed. */
  lemma {:induction false} Replaced(s: State, ops: seq<Op>, t: State, np: Pgno, p: Pgno)
    requires Sound(t) && Allocated(s, ops, t, np, 1) && p in s.tree
    ensures p < MAX_ID && np != p && np !in s.tree && t.tree == s.tree + {np} && t.freePgs == s.freePgs
    ensures Freed(t, p, 1) == t.(freePgs := t.freePgs + [p], tree := t.tree - {p})
    ensures Sound(Freed(t, p, 1)) && OnlyWorked(s, Freed(t, p, 1))
    ensures Ran(Abs(s), ops + [Op.Free(Run(p, 1))], Abs(Freed(t, p, 1)))
  {
    OneRun(p);
    OneRun(np);
    InTreeBelow(t, p);
    FreedIs(t, p, 1);
    RanThen(Abs(s), ops, Abs(t), Op.Free(Run(p, 1)));
  }

  lemma {:induction false} RanOne(l: Ledger, op: Op)
    requires Can(l, op)
    ensures Ran(l, [op], Do(l, op))
  {
    assert [op][1..] == [];
  }

  lemma {:induction false} AllocatedHead(s: State, ops: seq<Op>, t: State, i: nat, n: nat)
    requires OnlyFetched(s, ops, t) && Sound(t) && i > 0 && Found(t.head, i, n)
    ensures Sound(TookRun(t, i, n))
    ensures Allocated(s, ops + [TakeHead(Run(AsPgno(t.head[i - 1]), n))], TookRun(t, i, n), AsPgno(t.head[i - 1]), n)
  {
    var p := AsPgno(t.head[i - 1]);
    TookRunIs(t, i, n);
    RanThen(Abs(s), ops, Abs(t), TakeHead(Run(p, n)));
    forall x | x in Run(p, n) ensures x !in t.tree {
      RunInside(t.head, i, n, x);
      Apart2(t, InHead, InTree, x);
    }
  }

  lemma {:induction false} AllocatedNew(s: State, ops: seq<Op>, t: State, n: nat)
    requires OnlyFetched(s, ops, t) && Sound(t) && Found(t.head, 0, n) && t.next + n <= t.maxPg
    ensures Sound(TookNew(t, n))
    ensures Allocated(s, ops + [TakeNew(n)], TookNew(t, n), t.next, n)
  {
    TookNewIs(t, n);
    RanThen(Abs(s), ops, Abs(t), TakeNew(n));
    forall x | x in Run(t.next, n) ensures x !in t.tree {
      if x in t.tree {
        Below(t, InTree, x);
      }
    }
  }

  /** i is where a run of n free pages ends, or 0 when there is none. */
  ghost predicate Found(head: seq<Id>, i: nat, n: nat) {
    if i == 0 then forall p :: !HasRun(head, p, n)
    else 0 < n <= i <= |head| && head[i - 1] + n <= MAX_ID + 1 && head[i - n..i] == DescRun(head[i - 1], n)
  }

  /** me_pglast only moves to the key of a record in the freeDB. */
  ghost predicate Advanced(s: State, t: State) {
    s.last <= t.last && (s.last < t.last ==> t.last in s.freeDb)
  }

  /** From s to t nothing happened but the consumption of freeDB records. */
  ghost predicate OnlyFetched(s: State, ops: seq<Op>, t: State) {
    Ran(Abs(s), ops, Abs(t)) && Advanced(s, t) && t == s.(hasHead := t.hasHead, head := t.head, last := t.last)
  }

  lemma {:induction false} NothingFetched(s: State)
    ensures OnlyFetched(s, [], s)
  {
  }

  lemma {:induction false} OneFetched(s: State, ops: seq<Op>, t: State, k: TxnId)
    requires OnlyFetched(s, ops, t) && Sound(t) && NextKey(t, k) && k < t.txnid
    ensures OnlyFetched(s, ops + [Consume(k)], Consumed(t, k))
  {
    ConsumedIs(t, k);
    RanThen(Abs(s), ops, Abs(t), Consume(k));
  }

  ghost function KeysAfter(s: State): set<TxnId> {
    set k | k in s.freeDb && s.last < k
  }

  /** How many records could still be consumed. */
  ghost function Left(s: State): nat {
    |KeysAfter(s)|
  }

  lemma {:induction false} FewerLeft(s: State, k: TxnId)
    requires NextKey(s, k)
    ensures Left(Consumed(s, k)) < Left(s)
  {
    assert k in KeysAfter(s) && KeysAfter(Consumed(s, k)) <= KeysAfter(s) - {k};
    Smaller(KeysAfter(Consumed(s, k)), KeysAfter(s) - {k});
  }

  lemma {:induction false} Smaller<T>(a: set<T>, b: set<T>)
    requires a <= b
    ensures |a| <= |b|
    decreases |a|
  {
    if x :| x in a { Smaller(a - {x}, b - {x}); }
  }

  lemma {:induction false} HeadDescends(s: State)
    requires Sound(s)
    ensures StrictlyDescending(s.head)
  {
  }

  lemma {:induction false} TooShort(s: State, n: nat)
    requires Sound(s) && |s.head| < n
    ensures forall p :: !HasRun(s.head, p, n)
  {
    NoRun(s.head, n);
  }

  lemma {:induction false} KeyThere(s: State, k: TxnId)
    requires NextKey(s, k)
    ensures k in s.freeDb && s.last < k
  {
  }
}
