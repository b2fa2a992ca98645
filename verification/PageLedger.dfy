/** Where every page of the data file is, during one top-level write transaction.

    A page number below `next` is in exactly one place: in a tree (`used`), on the
    loose list, on the list of pages freed by this transaction, in the reclaimed
    list `me_pghead`, or in a freeDB record that has not been consumed yet.  The
    operations below are the moves that liblmdb makes between these places. */
module PageLedger {

  type Pgno = nat
  type TxnId = nat

  /** Pages 0 and 1 are the meta pages. */
  const NUM_METAS: nat := 2

  datatype Ledger = Ledger(
    used: set<Pgno>,                   // pages of the main, named and free databases
    loose: set<Pgno>,                  // mt_loose_pgs
    freed: set<Pgno>,                  // mt_free_pgs
    hasHead: bool,                     // me_pghead != NULL
    head: set<Pgno>,                   // me_pghead
    last: TxnId,                       // me_pglast
    records: map<TxnId, set<Pgno>>,    // the freeDB
    next: nat)                         // mt_next_pgno

  datatype Place = InTree | InLoose | InFreed | InHead | InRecord(key: TxnId)

  /** Page p is listed in record k. */
  predicate Listed(records: map<TxnId, set<Pgno>>, k: TxnId, p: Pgno) {
    k in records && p in records[k]
  }

  predicate Has(l: Ledger, place: Place, p: Pgno) {
    match place
    case InTree => p in l.used
    case InLoose => p in l.loose
    case InFreed => p in l.freed
    case InHead => p in l.head
    case InRecord(k) => l.last < k && Listed(l.records, k, p)
  }

  ghost predicate Somewhere(l: Ledger, p: Pgno) {
    exists place :: Has(l, place, p)
  }

  /** Every page number in [2, next) is in exactly one place, and no other is in any. */
  ghost predicate Conserved(l: Ledger) {
    && NUM_METAS <= l.next
    && (!l.hasHead ==> l.head == {} && l.last == 0)
    && (forall p: Pgno :: NUM_METAS <= p < l.next <==> Somewhere(l, p))
    && (forall a, b, p: Pgno :: Has(l, a, p) && Has(l, b, p) ==> a == b)
  }

  /** The page numbers lo, lo+1, ..., lo+n-1. */
  function Run(lo: Pgno, n: nat): (s: set<Pgno>)
    ensures forall p :: p in s <==> lo <= p < lo + n
  {
    if n == 0 then {} else Run(lo, n - 1) + {lo + n - 1}
  }

  datatype Op =
    | ReuseLoose(page: Pgno)           // mdb_page_alloc: take a loose page
    | TakeHead(pages: set<Pgno>)       // mdb_page_alloc: take pages from me_pghead
    | TakeNew(count: nat)              // mdb_page_alloc: extend the file
    | Consume(key: TxnId)              // mdb_page_alloc: merge a freeDB record into me_pghead
    | Free(pages: set<Pgno>)           // mdb_page_touch, mdb_page_loose, mdb_ovpage_free
    | Loosen(page: Pgno)               // mdb_page_loose
    | Release(pages: set<Pgno>)        // mdb_ovpage_free: straight back to me_pghead
    | FreeLoose                        // mdb_freelist_save without me_pghead

  predicate Can(l: Ledger, op: Op) {
    match op
    case ReuseLoose(p) => p in l.loose
    case TakeHead(ps) => ps <= l.head
    case TakeNew(n) => true
    case Consume(k) => l.last < k && k in l.records && forall j :: j in l.records && l.last < j ==> k <= j
    case Free(ps) => ps <= l.used
    case Loosen(p) => p in l.used
    case Release(ps) => l.hasHead && ps <= l.used
    case FreeLoose => !l.hasHead
  }

  function Do(l: Ledger, op: Op): Ledger
    requires Can(l, op)
  {
    match op
    case ReuseLoose(p) => l.(loose := l.loose - {p}, used := l.used + {p})
    case TakeHead(ps) => l.(head := l.head - ps, used := l.used + ps)
    case TakeNew(n) => l.(used := l.used + Run(l.next, n), next := l.next + n)
    case Consume(k) => l.(hasHead := true, head := l.head + l.records[k], last := k)
    case Free(ps) => l.(used := l.used - ps, freed := l.freed + ps)
    case Loosen(p) => l.(used := l.used - {p}, loose := l.loose + {p})
    case Release(ps) => l.(used := l.used - ps, head := l.head + ps)
    case FreeLoose => l.(freed := l.freed + l.loose, loose := {})
  }

  /** Where `op` puts a page that was at `place`. */
  function Moved(l: Ledger, op: Op, place: Place, p: Pgno): Place
    requires Can(l, op)
  {
    match op
    case ReuseLoose(q) => if p == q then InTree else place
    case TakeHead(ps) => if p in ps then InTree else place
    case TakeNew(n) => place
    case Consume(k) => if place == InRecord(k) then InHead else place
    case Free(ps) => if p in ps then InFreed else place
    case Loosen(q) => if p == q then InLoose else place
    case Release(ps) => if p in ps then InHead else place
    case FreeLoose => if place == InLoose then InFreed else place
  }

  /** Every operation keeps each page in exactly one place. */
  lemma DoConserves(l: Ledger, op: Op)
    requires Conserved(l) && Can(l, op)
    ensures Conserved(Do(l, op))
    ensures l.next <= Do(l, op).next
  {
    var m := Do(l, op);
    forall p: Pgno
      ensures NUM_METAS <= p < m.next <==> Somewhere(m, p)
    {
      assert NUM_METAS <= p < l.next <==> Somewhere(l, p);
      if place :| Has(l, place, p) {
        assert Somewhere(l, p);
        assert Has(m, Moved(l, op, place, p), p);
      } else if l.next <= p < m.next {
        assert Has(m, InTree, p);
      }
      if place :| Has(m, place, p) {
        OriginOf(l, op, place, p);
      }
    }
    forall a, b, p: Pgno | Has(m, a, p) && Has(m, b, p)
      ensures a == b
    {
      OriginOf(l, op, a, p);
      OriginOf(l, op, b, p);
    }
  }

  /** A page found somewhere after `op` was moved there by it, or is newly added. */
  lemma OriginOf(l: Ledger, op: Op, place: Place, p: Pgno)
    requires Conserved(l) && Can(l, op) && Has(Do(l, op), place, p)
    ensures NUM_METAS <= p < Do(l, op).next
    ensures l.next <= p ==> place == InTree && !Somewhere(l, p)
    ensures p < l.next ==> exists from :: Has(l, from, p) && place == Moved(l, op, from, p)
  {
    assert Somewhere(l, p) <==> NUM_METAS <= p < l.next;
    if p < l.next {
      var from :=
        match op
        case ReuseLoose(q) => if p == q then InLoose else place
        case TakeHead(ps) => if p in ps then InHead else place
        case TakeNew(n) => place
        case Consume(k) => if place == InHead && p !in l.head then InRecord(k) else place
        case Free(ps) => if p in ps then InTree else place
        case Loosen(q) => if p == q then InTree else place
        case Release(ps) => if p in ps then InTree else place
        case FreeLoose => if place == InFreed && p in l.loose then InLoose else place;
      assert Has(l, from, p);
      assert Somewhere(l, p);
      assert Has(l, place, p) ==> place == from;
      assert place == Moved(l, op, from, p);
    } else {
      assert forall from :: !Has(l, from, p);
      assert forall k :: !Has(l, InRecord(k), p);
      assert !Has(l, place, p) && !Has(l, InTree, p) && !Has(l, InLoose, p) && !Has(l, InHead, p);
      assert op.TakeNew?;
    }
  }

  /** A run of operations, each possible when it is its turn. */
  ghost predicate Ran(l: Ledger, ops: seq<Op>, m: Ledger)
    decreases |ops|
  {
    if ops == [] then m == l
    else Can(l, ops[0]) && Ran(Do(l, ops[0]), ops[1..], m)
  }

  lemma {:induction false} RanConserves(l: Ledger, ops: seq<Op>, m: Ledger)
    requires Conserved(l) && Ran(l, ops, m)
    ensures Conserved(m) && l.next <= m.next
    decreases |ops|
  {
    if ops == [] {
    } else {
      DoConserves(l, ops[0]);
      RanConserves(Do(l, ops[0]), ops[1..], m);
    }
  }

  lemma {:induction false} RanThen(l: Ledger, ops: seq<Op>, m: Ledger, op: Op)
    requires Ran(l, ops, m) && Can(m, op)
    ensures Ran(l, ops + [op], Do(m, op))
    decreases |ops|
  {
    if ops == [] {
      assert [op][1..] == [];
    } else {
      assert (ops + [op])[1..] == ops[1..] + [op];
      RanThen(Do(l, ops[0]), ops[1..], m, op);
    }
  }

  /** The freeDB at commit: unconsumed records stay, `saved` holds what is left of
      me_pghead and the loose pages under keys up to me_pglast, and one record under
      the transaction's own id holds the pages it freed. */
  ghost predicate Saves(l: Ledger, id: TxnId, saved: map<TxnId, set<Pgno>>) {
    && (!l.hasHead ==> l.loose == {})
    && (forall k :: k in saved ==> 1 <= k <= l.last)
    && (forall j, k, p :: Listed(saved, j, p) && Listed(saved, k, p) ==> j == k)
    && (forall p :: p in l.head || p in l.loose <==> exists k :: Listed(saved, k, p))
  }

  function CommittedRecords(l: Ledger, id: TxnId, saved: map<TxnId, set<Pgno>>): map<TxnId, set<Pgno>> {
    (map k | k in l.records && l.last < k :: l.records[k]) + saved
    + (if l.freed == {} then map[] else map[id := l.freed])
  }

  /** A committed snapshot accounts for every page below `next`: it is either in a tree or
      in exactly one freeDB record. */
  ghost predicate Accounted(used: set<Pgno>, records: map<TxnId, set<Pgno>>, next: nat) {
    && NUM_METAS <= next
    && (forall p :: p in used ==> NUM_METAS <= p < next)
    && (forall k, p: Pgno :: Listed(records, k, p) ==> NUM_METAS <= p < next && p !in used)
    && (forall j, k, p :: Listed(records, j, p) && Listed(records, k, p) ==> j == k)
    && (forall p :: NUM_METAS <= p < next ==> p in used || exists k :: Listed(records, k, p))
  }

  /** A transaction starts with nothing loose, freed or reclaimed. */
  function Opened(used: set<Pgno>, records: map<TxnId, set<Pgno>>, next: nat): Ledger {
    Ledger(used, {}, {}, false, {}, 0, records, next)
  }

  lemma OpenedConserved(used: set<Pgno>, records: map<TxnId, set<Pgno>>, next: nat)
    requires Accounted(used, records, next)
    requires forall k :: k in records ==> 1 <= k
    ensures Conserved(Opened(used, records, next))
  {
    var l := Opened(used, records, next);
    forall p: Pgno
      ensures NUM_METAS <= p < l.next <==> Somewhere(l, p)
    {
      if place :| Has(l, place, p) {
        assert NUM_METAS <= p < l.next;
      }
      if NUM_METAS <= p < l.next {
        if p in used { assert Has(l, InTree, p); }
        else {
          var k :| Listed(records, k, p);
          assert Has(l, InRecord(k), p);
        }
      }
    }
  }

  /** Saving the free lists turns a conserved ledger into an accounted snapshot. */
  lemma SavedAccounted(l: Ledger, id: TxnId, saved: map<TxnId, set<Pgno>>)
    requires Conserved(l) && Saves(l, id, saved)
    requires forall k :: k in l.records ==> k < id
    requires l.last < id
    ensures Accounted(l.used, CommittedRecords(l, id, saved), l.next)
  {
    var recs := CommittedRecords(l, id, saved);
    forall p: Pgno, place | Has(l, place, p)
      ensures NUM_METAS <= p < l.next && (place != InTree ==> p !in l.used)
    {
      assert Somewhere(l, p);
      assert p in l.used ==> Has(l, InTree, p);
    }
    assert forall p :: p in l.used ==> Has(l, InTree, p);
    forall k, p: Pgno | Listed(recs, k, p)
      ensures NUM_METAS <= p < l.next && p !in l.used
      ensures exists place :: place != InTree && Has(l, place, p) && PlaceFits(l, id, k, place)
    {
      var place := if k == id then InFreed
                   else if k in saved then (if p in l.head then InHead else InLoose) else InRecord(k);
      assert k in saved && k != id ==> Listed(saved, k, p);
      assert Has(l, place, p);
    }
    forall j, k, p | Listed(recs, j, p) && Listed(recs, k, p)
      ensures j == k
    {
      var a :| a != InTree && Has(l, a, p) && PlaceFits(l, id, j, a);
      var b :| b != InTree && Has(l, b, p) && PlaceFits(l, id, k, b);
      assert a == b;
      if j != k { SavedBoth(l, id, saved, j, p); SavedBoth(l, id, saved, k, p); }
    }
    forall p | NUM_METAS <= p < l.next
      ensures p in l.used || exists k :: Listed(recs, k, p)
    {
      assert Somewhere(l, p);
      var place :| Has(l, place, p);
      match place
      case InTree =>
      case InFreed => assert Listed(recs, id, p);
      case InRecord(k) => assert Listed(recs, k, p);
      case _ =>
        var k :| Listed(saved, k, p);
        assert Listed(recs, k, p);
    }
  }

  /** A page of me_pghead or of the loose list is listed by a record saved for them. */
  lemma SavedBoth(l: Ledger, id: TxnId, saved: map<TxnId, set<Pgno>>, k: TxnId, p: Pgno)
    requires Saves(l, id, saved) && l.last < id && k <= l.last
    requires Listed(CommittedRecords(l, id, saved), k, p)
    ensures Listed(saved, k, p)
  {
  }

  predicate PlaceFits(l: Ledger, id: TxnId, key: TxnId, place: Place) {
    if key == id then place == InFreed
    else if key <= l.last then place == InHead || place == InLoose
    else place == InRecord(key)
  }
}
