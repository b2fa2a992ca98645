/** mt_dirty_room over whole runs of nested transactions: until mdb_freelist_save it is
    the list capacity minus the number of dirty pages visible to the transaction.
    mdb_freelist_save takes loose pages off the dirty list without giving their room back,
    so from then on it is at most that. */
module DirtyRoom {
  import opened IdList

  /** A write transaction with its chain of ancestors. */
  datatype Txn = NoTxn | Txn(parent: Txn, dirty: set<Id>, spilled: set<Id>, room: int, saving: bool)

  /** Dirty pages a transaction can see: its own, and its ancestors' that no later
      transaction spilled. */
  function Visible(t: Txn): set<Id> {
    if t.NoTxn? then {} else t.dirty + (Visible(t.parent) - t.spilled)
  }

  predicate SpilledIn(t: Txn, p: Id) {
    t.Txn? && (p in t.spilled || SpilledIn(t.parent, p))
  }

  /** The page is on a dirty or spill list of the chain. */
  predicate Known(t: Txn, p: Id) {
    t.Txn? && (p in t.dirty || p in t.spilled || Known(t.parent, p))
  }

  /** The room is exact, or too small once a top-level transaction saves its free lists; no
      page is in two lists of the transaction, or spilled in an ancestor as well. */
  ghost predicate Own(t: Txn)
    requires t.Txn?
  {
    && t.dirty !! t.spilled && (forall p :: p in t.spilled ==> !SpilledIn(t.parent, p))
    && 0 <= t.room && t.room + |Visible(t)| <= IDL_UM_MAX
    && (!t.saving ==> t.room + |Visible(t)| == IDL_UM_MAX)
  }

  /** That holds of every transaction in the chain. */
  ghost predicate Inv(t: Txn) {
    t.Txn? ==> Own(t) && (t.parent.Txn? ==> !t.saving && !t.parent.saving) && Inv(t.parent)
  }

  datatype Step =
    | Dirty(page: Id)            // mdb_page_dirty: a page just allocated
    | CopyUp(page: Id)           // mdb_page_touch: an ancestor's dirty page
    | Spill(pages: set<Id>)      // mdb_page_spill
    | Unspill(page: Id)          // mdb_page_unspill
    | FreeOverflow(page: Id)     // mdb_ovpage_free
    | FreeLoose(pages: set<Id>)  // mdb_freelist_save without me_pghead: loose pages
    | BeginChild                 // mdb_txn_begin with a parent
    | AbortChild                 // mdb_txn_abort
    | CommitChild                // mdb_txn_commit

  predicate Can(t: Txn, e: Step)
    requires t.Txn?
  {
    match e
    case Dirty(p) => t.room > 0 && !Known(t, p)
    case CopyUp(p) => p in Visible(t) && p !in t.dirty
    case Spill(ps) => ps <= t.dirty && forall p :: p in ps ==> !SpilledIn(t.parent, p)
    case Unspill(p) => t.room > 0 && p !in Visible(t) && SpilledIn(t, p)
    case FreeOverflow(p) => t.parent.NoTxn? && (p in t.dirty || p in t.spilled)
    case FreeLoose(ps) => t.parent.NoTxn? && ps <= t.dirty
    case BeginChild => !t.saving
    case AbortChild => t.parent.Txn?
    case CommitChild => t.parent.Txn?
  }

  /** What committing a child leaves in its parent. */
  function Committed(t: Txn): Txn
    requires t.Txn? && t.parent.Txn?
  {
    var p := t.parent;
    Txn(p.parent, t.dirty + (p.dirty - t.spilled), (p.spilled - t.dirty) + t.spilled, t.room, p.saving)
  }

  function Next(t: Txn, e: Step): Txn
    requires t.Txn? && Can(t, e)
  {
    match e
    case Dirty(p) => t.(dirty := t.dirty + {p}, room := t.room - 1)
    case CopyUp(p) => t.(dirty := t.dirty + {p})
    case Spill(ps) => t.(dirty := t.dirty - ps, spilled := t.spilled + ps, room := t.room + |ps|)
    case Unspill(p) => t.(dirty := t.dirty + {p}, spilled := t.spilled - {p}, room := t.room - 1)
    case FreeOverflow(p) =>
      if p in t.dirty then t.(dirty := t.dirty - {p}, room := t.room + 1) else t.(spilled := t.spilled - {p})
    case FreeLoose(ps) => t.(dirty := t.dirty - ps, saving := true)
    case BeginChild => Txn(t, {}, {}, t.room, false)
    case AbortChild => t.parent
    case CommitChild => Committed(t)
  }

  lemma {:induction false} VisibleKnown(t: Txn, p: Id)
    requires p in Visible(t)
    ensures Known(t, p)
  {
    if p !in t.dirty {
      VisibleKnown(t.parent, p);
    }
  }

  /** Committing a child leaves the parent seeing exactly what the child saw. */
  lemma {:induction false} CommitSees(t: Txn)
    requires t.Txn? && t.parent.Txn?
    ensures Visible(Committed(t)) == Visible(t)
  {
  }

  /** What each step does to the dirty pages a transaction sees. */
  lemma {:induction false} VisibleStep(t: Txn, e: Step)
    requires t.Txn? && Can(t, e)
    ensures var u := Next(t, e);
            match e
            case Dirty(p) => p !in Visible(t) && Visible(u) == Visible(t) + {p}
            case CopyUp(p) => p in u.dirty && Visible(u) == Visible(t)
            case Spill(ps) => t.dirty !! t.spilled ==> Visible(u) == Visible(t) - ps && forall p :: p in ps ==> SpilledIn(u, p)
            case Unspill(p) => p !in Visible(t) && Visible(u) == Visible(t) + {p} && p !in u.spilled
            case FreeOverflow(p) => t.dirty !! t.spilled ==> Visible(u) == Visible(t) - {p} && !Known(u, p)
            case FreeLoose(ps) => Visible(u) == Visible(t) - ps
            case BeginChild => Visible(u) == Visible(t) && u.parent == t
            case AbortChild => u == t.parent
            case CommitChild => Visible(u) == Visible(t) && u.parent == t.parent.parent
  {
    match e
    case Dirty(p) =>
      if p in Visible(t) { VisibleKnown(t, p); }
    case FreeOverflow(p) => assert Visible(t.parent) == {};
    case FreeLoose(ps) => assert Visible(t.parent) == {};
    case CommitChild => CommitSees(t);
    case _ =>
  }

  /** When a page can be brought in, taken back, or taken off the lists. */
  lemma {:induction false} PageSteps(t: Txn, p: Id)
    requires t.Txn?
    ensures Can(t, Dirty(p)) <==> t.room > 0 && !Known(t, p)
    ensures Can(t, Unspill(p)) <==> t.room > 0 && SpilledIn(t, p) && p !in Visible(t)
    ensures t.parent.NoTxn? ==> (Can(t, FreeOverflow(p)) <==> Known(t, p))
    ensures p in Visible(t) ==> p in t.dirty || Can(t, CopyUp(p))
  {
  }

  lemma {:induction false} DirtyOwn(t: Txn, p: Id)
    requires t.Txn? && Own(t) && Can(t, Dirty(p))
    ensures Own(Next(t, Dirty(p)))
  {
    var u := Next(t, Dirty(p));
    assert p !in Visible(t) by { if p in Visible(t) { VisibleKnown(t, p); } }
    assert Visible(u) == Visible(t) + {p};
  }

  lemma {:induction false} CopyUpOwn(t: Txn, p: Id)
    requires t.Txn? && Own(t) && Can(t, CopyUp(p))
    ensures Own(Next(t, CopyUp(p)))
  {
    assert Visible(Next(t, CopyUp(p))) == Visible(t);
  }

  lemma {:induction false} SpillOwn(t: Txn, ps: set<Id>)
    requires t.Txn? && Own(t) && Can(t, Spill(ps))
    ensures Own(Next(t, Spill(ps)))
  {
    var u := Next(t, Spill(ps));
    assert Visible(u) == Visible(t) - ps;
    assert Visible(t) == Visible(u) + ps;
  }

  lemma {:induction false} UnspillOwn(t: Txn, p: Id)
    requires t.Txn? && Own(t) && Can(t, Unspill(p))
    ensures Own(Next(t, Unspill(p)))
  {
    assert Visible(Next(t, Unspill(p))) == Visible(t) + {p};
  }

  lemma {:induction false} FreeOverflowOwn(t: Txn, p: Id)
    requires t.Txn? && Own(t) && Can(t, FreeOverflow(p))
    ensures Own(Next(t, FreeOverflow(p)))
  {
    var u := Next(t, FreeOverflow(p));
    assert Visible(t.parent) == {};
    assert Visible(u) == if p in t.dirty then Visible(t) - {p} else Visible(t);
  }

  lemma {:induction false} FreeLooseOwn(t: Txn, ps: set<Id>)
    requires t.Txn? && Own(t) && Can(t, FreeLoose(ps))
    ensures Own(Next(t, FreeLoose(ps)))
  {
    Fewer(Visible(Next(t, FreeLoose(ps))), Visible(t));
  }

  lemma {:induction false} Fewer(a: set<Id>, b: set<Id>)
    requires a <= b
    ensures |a| <= |b|
  {
    assert b == a + (b - a);
  }

  lemma {:induction false} CommitOwn(t: Txn)
    requires t.Txn? && t.parent.Txn? && Own(t) && Own(t.parent) && !t.saving && !t.parent.saving
    ensures Own(Committed(t))
  {
    CommitSees(t);
  }

  lemma {:induction false} StepInv(t: Txn, e: Step)
    requires t.Txn? && Inv(t) && Can(t, e)
    ensures Next(t, e).Txn? && Inv(Next(t, e))
  {
    hide Own, Visible;
    match e
    case Dirty(p) => DirtyOwn(t, p);
    case CopyUp(p) => CopyUpOwn(t, p);
    case Spill(ps) => SpillOwn(t, ps);
    case Unspill(p) => UnspillOwn(t, p);
    case FreeOverflow(p) => FreeOverflowOwn(t, p);
    case FreeLoose(ps) => FreeLooseOwn(t, ps);
    case BeginChild => ChildOwn(t);
    case AbortChild =>
    case CommitChild => CommitOwn(t);
  }

  lemma {:induction false} ChildOwn(t: Txn)
    requires t.Txn? && Own(t) && !t.saving
    ensures Own(Txn(t, {}, {}, t.room, false))
  {
    assert Visible(Txn(t, {}, {}, t.room, false)) == Visible(t);
  }

  // ---- whole runs -----------------------------------------------------------------

  ghost predicate RunTo(steps: seq<Step>, t: Txn)
    decreases |steps|
  {
    if steps == [] then t == Txn(NoTxn, {}, {}, IDL_UM_MAX, false)
    else
      var n := |steps| - 1;
      exists s: Txn :: RunTo(steps[..n], s) && s.Txn? && Can(s, steps[n]) && t == Next(s, steps[n])
  }

  lemma {:induction false} RunInv(steps: seq<Step>, t: Txn)
    requires RunTo(steps, t)
    ensures t.Txn? && Inv(t)
    decreases |steps|
  {
    if steps == [] {
    } else {
      var n := |steps| - 1;
      var s: Txn :| RunTo(steps[..n], s) && s.Txn? && Can(s, steps[n]) && t == Next(s, steps[n]);
      RunInv(steps[..n], s);
      StepInv(s, steps[n]);
    }
  }

  /** What mdb_txn_commit relies on: the child's dirty and spilled pages are apart, and so are
      the live entries of the two spill lists; with a single ancestor the merged list has
      exactly MDB_IDL_UM_MAX - mt_dirty_room pages, with more it has at most as many. */
  lemma {:induction false} RoomAtCommit(steps: seq<Step>, t: Txn)
    requires RunTo(steps, t) && t.Txn? && t.parent.Txn?
    ensures var merged := t.dirty + (t.parent.dirty - t.spilled);
            && t.dirty !! t.spilled && t.parent.spilled !! t.spilled
            && 0 <= t.room <= IDL_UM_MAX
            && |merged| <= IDL_UM_MAX - t.room
            && (t.parent.parent.NoTxn? ==> |merged| == IDL_UM_MAX - t.room)
  {
    RunInv(steps, t);
    var merged := t.dirty + (t.parent.dirty - t.spilled);
    assert Visible(t) == merged + (Visible(t) - merged);
    if t.parent.parent.NoTxn? {
      assert Visible(t.parent.parent) == {};
      assert Visible(t.parent) == t.parent.dirty;
      assert merged == Visible(t);
    }
  }
}
