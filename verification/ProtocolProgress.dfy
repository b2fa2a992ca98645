/** What the steps of the protocol are there to do: a reader gets the newest snapshot, a scan
    finds the oldest reader, and a transaction that reaches its end is committed. */
module ProtocolProgress {
  import opened Wrappers
  import opened PageLedger
  import opened SnapshotProtocol

  /** These steps lead from s to t. */
  ghost predicate Path(s: State, steps: seq<Step>, t: State)
    decreases |steps|
  {
    if steps == [] then t == s
    else |s.metas| == 2 && Enabled(s, steps[0]) && Path(Next(s, steps[0]), steps[1..], t)
  }

  lemma {:induction false} PathOne(s: State, e: Step, steps: seq<Step>, t: State)
    requires |s.metas| == 2 && Enabled(s, e) && Path(Next(s, e), steps, t)
    ensures Path(s, [e] + steps, t)
  {
    assert ([e] + steps)[1..] == steps;
  }

  // ---- readers -----------------------------------------------------------------------------------

  /** A reader with a slot that is not overtaken by a commit gets the last committed
      snapshot. */
  lemma {:induction false} ReaderStarts(s: State, r: nat) returns (t: State)
    requires Inv(s) && |s.metas| == 2 && r < |s.readers| && s.readers[r].pid && s.readers[r].pc.Resting?
    ensures Path(s, [ReaderStep(r, Load), ReaderStep(r, Store), ReaderStep(r, Recheck), ReaderStep(r, CopyMeta)], t)
    ensures t.metas == s.metas && r < |t.readers| && t.readers[r].pc == Active(s.metas[s.txnid % 2]) && s.metas[s.txnid % 2].id
         == s.txnid
    ensures t.readers[r].slot == SlotId.At(s.txnid)
  {
    hide Inv, Enabled, Next;
    var e, f, g, h := ReaderStep(r, Load), ReaderStep(r, Store), ReaderStep(r, Recheck), ReaderStep(r, CopyMeta);
    var a, b, c;
    a, b, c, t := ReaderGets(s, r);
    PathOne(c, h, [], t);
    PathOne(b, g, [h], t);
    PathOne(a, f, [g] + [h], t);
    PathOne(s, e, [f] + ([g] + [h]), t);
    assert [e, f, g, h] == [e] + ([f] + ([g] + [h]));
  }

  lemma {:induction false} ReaderGets(s: State, r: nat) returns (a: State, b: State, c: State, t: State)
    requires Inv(s) && |s.metas| == 2 && r < |s.readers| && s.readers[r].pid && s.readers[r].pc.Resting?
    ensures |a.metas| == 2 && |b.metas| == 2 && |c.metas| == 2
    ensures Enabled(s, ReaderStep(r, Load)) && a == Next(s, ReaderStep(r, Load))
    ensures Enabled(a, ReaderStep(r, Store)) && b == Next(a, ReaderStep(r, Store))
    ensures Enabled(b, ReaderStep(r, Recheck)) && c == Next(b, ReaderStep(r, Recheck))
    ensures Enabled(c, ReaderStep(r, CopyMeta)) && t == Next(c, ReaderStep(r, CopyMeta))
    ensures t.metas == s.metas && r < |t.readers| && t.readers[r].pc == Active(s.metas[s.txnid % 2])
    ensures t.readers[r].slot == SlotId.At(s.txnid) && s.metas[s.txnid % 2].id == s.txnid
  {
    assert MetasOk(s);
    hide Inv;
    a := Next(s, ReaderStep(r, Load));
    b := Next(a, ReaderStep(r, Store));
    c := Next(b, ReaderStep(r, Recheck));
    t := Next(c, ReaderStep(r, CopyMeta));
  }

  /** A new slot, once its process has put its pid there, is ready for a reader. */
  lemma {:induction false} ReaderRegisters(s: State)
    requires |s.metas| == 2
    ensures var t := Next(s, AddSlot);
            var r := |s.readers|;
            && Enabled(s, AddSlot) && |t.metas| == 2 && Enabled(t, ReaderStep(r, SetPid))
            && Next(t, ReaderStep(r, SetPid)) == s.(readers := s.readers + [Reader(true, Unset, Resting)])
  {
    var t, r := Next(s, AddSlot), |s.readers|;
    assert Next(t, ReaderStep(r, SetPid)).readers == s.readers + [Reader(true, Unset, Resting)];
  }

  /** A reader that ends holds nothing back. */
  lemma ReaderEnds(s: State, r: nat)
    requires |s.metas| == 2 && r < |s.readers| && s.readers[r].pc.Active?
    ensures Enabled(s, ReaderStep(r, EndRead))
    ensures var t := Next(s, ReaderStep(r, EndRead));
            && !t.readers[r].slot.At? && t.readers[r].pc.Resting? && t == s.(readers := s.readers[r := t.readers[r]])
            && (s.readers[r].pid ==> Enabled(t, ReaderStep(r, FreeSlot)) && !Next(t, ReaderStep(r, FreeSlot)).readers[r].pid)
  {
  }

  // ---- the scan ----------------------------------------------------------------------------------

  predicate Holds(rd: Reader, id: TxnId) { rd.pid && rd.slot == SlotId.At(id) }

  /** The smallest of the first k published ids and o. */
  function OldestOf(readers: seq<Reader>, k: nat, o: TxnId): TxnId
    requires k <= |readers|
  {
    if k == 0 then o
    else
      var rd := readers[k - 1];
      OldestOf(readers, k - 1, if rd.pid && rd.slot.At? then Min(o, rd.slot.id) else o)
  }

  lemma {:induction false} OldestIs(readers: seq<Reader>, k: nat, o: TxnId)
    requires k <= |readers|
    ensures var m := OldestOf(readers, k, o);
            && m <= o && (m == o || exists i :: 0 <= i < k && Holds(readers[i], m))
            && forall i, id :: 0 <= i < k && Holds(readers[i], id) ==> m <= id
    decreases k
  {
    if k == 0 {
    } else {
      var rd := readers[k - 1];
      OldestIs(readers, k - 1, if rd.pid && rd.slot.At? then Min(o, rd.slot.id) else o);
    }
  }

  predicate OnlyScans(steps: seq<Step>) {
    forall i :: 0 <= i < |steps| ==> steps[i].ScanStep?
  }

  /** The rest of a scan that is not disturbed. */
  lemma {:induction false} ScanRest(s: State, o: TxnId, k: nat) returns (steps: seq<Step>, t: State)
    requires |s.metas| == 2 && InPhase(s, Working) && s.writer.value.scan == Scanning(k, o, false) && k <= |s.readers|
    ensures Path(s, steps, t) && OnlyScans(steps)
    ensures var w := s.writer.value;
            t == s.(pgoldest := s.pgoldest[w.process := OldestOf(s.readers, k, o)], writer := Some(w.(scan := NoScan)))
    decreases k
  {
    if k == 0 {
      var e := ScanStep(ScanEnd);
      t := Next(s, e);
      steps := [e] + [];
      PathOne(s, e, [], t);
    } else {
      var rd := s.readers[k - 1];
      var e := ScanStep(ScanPid);
      var a := Next(s, e);
      if rd.pid {
        var f := ScanStep(ScanSlot);
        var b := Next(a, f);
        var rest;
        rest, t := ScanRest(b, if rd.slot.At? then Min(o, rd.slot.id) else o, k - 1);
        PathOne(a, f, rest, t);
        PathOne(s, e, [f] + rest, t);
        steps := [e] + ([f] + rest);
      } else {
        var rest;
        rest, t := ScanRest(a, o, k - 1);
        PathOne(s, e, rest, t);
        steps := [e] + rest;
      }
    }
  }

  /** mdb_find_oldest, not disturbed: what is cached is the smallest of the published ids
      and the last committed one. */
  lemma {:induction false} ScanFinds(s: State) returns (steps: seq<Step>, t: State)
    requires |s.metas| == 2 && InPhase(s, Working) && s.writer.value.scan == NoScan && s.writer.value.id > 0
    ensures Path(s, steps, t) && OnlyScans(steps)
    ensures var w, m := s.writer.value, Oldest(t, s.writer.value.process);
            && t == s.(pgoldest := s.pgoldest[w.process := m])
            && m <= w.id - 1 && (m == w.id - 1 || exists i :: 0 <= i < |s.readers| && Holds(s.readers[i], m))
            && forall i, id :: 0 <= i < |s.readers| && Holds(s.readers[i], id) ==> m <= id
  {
    var e := ScanStep(ScanStart);
    var rest;
    rest, t := ScanRest(Next(s, e), s.writer.value.id - 1, |s.readers|);
    PathOne(s, e, rest, t);
    steps := [e] + rest;
    OldestIs(s.readers, |s.readers|, s.writer.value.id - 1);
    assert s.writer.value.(scan := NoScan) == s.writer.value;
  }

  // ---- the writer's pages --------------------------------------------------------------------------

  /** Exactly when a move of pages is possible. */
  lemma MoveEnabled(s: State, op: Op, c: Content)
    requires InPhase(s, Working)
    ensures var w := s.writer.value;
            Enabled(s, WorkStep(PageOp(op, c))) <==>
              && Can(w.ledger, op) && (op.Consume? ==> op.key < Oldest(s, w.process))
              && (op.Loosen? ==> op.page in w.mem)
              && (op.Release? ==> forall p :: p in op.pages ==> p in w.own)
  {
  }

  /** Pages handed out, and pages taken back, can be written. */
  lemma GivenWritable(s: State, op: Op, c: Content, p: Pgno, c': Content)
    requires |s.metas| == 2 && Enabled(s, WorkStep(PageOp(op, c))) && p in Given(s.writer.value.ledger, op)
    ensures Enabled(Next(s, WorkStep(PageOp(op, c))), WorkStep(Write(p, c')))
  {
  }

  lemma UnspillWritable(s: State, p: Pgno, c: Content)
    requires |s.metas| == 2 && InPhase(s, Working) && Inv(s) && p in s.writer.value.own && p !in s.writer.value.mem
    ensures Enabled(s, WorkStep(Unspill(p))) && Enabled(Next(s, WorkStep(Unspill(p))), WorkStep(Write(p, c)))
  {
    assert p in s.cache;
    hide Inv;
  }

  /** What is written can be spilled, and is no longer in memory then. */
  lemma SpillFrees(s: State, p: Pgno)
    requires |s.metas| == 2 && InPhase(s, Working) && p in s.writer.value.mem && p in s.writer.value.own
    ensures Enabled(s, WorkStep(Spill(p))) && p !in Next(s, WorkStep(Spill(p))).writer.value.mem
  {
    hide Written;
  }

  /** Whatever mdb_page_alloc does, the protocol allows: moves out of the loose list, the
      reclaimed list and the map, and records below the oldest id. */
  lemma {:induction false} AllocationAllowed(s: State, ops: seq<Op>, m: Ledger, c: Content) returns (steps: seq<Step>, t: State)
    requires |s.metas| == 2 && InPhase(s, Working) && Ran(s.writer.value.ledger, ops, m)
    requires forall i :: 0 <= i < |ops| ==> ops[i].ReuseLoose? || ops[i].TakeHead? || ops[i].TakeNew? || ops[i].Consume?
    requires forall i :: 0 <= i < |ops| && ops[i].Consume? ==> ops[i].key < Oldest(s, s.writer.value.process)
    ensures Path(s, steps, t) && |steps| == |ops| && t.writer.Some? && t.writer.value.ledger == m
    decreases |ops|
  {
    if ops == [] {
      steps, t := [], s;
    } else {
      var e := WorkStep(PageOp(ops[0], c));
      MoveEnabled(s, ops[0], c);
      var u := Next(s, e);
      assert u.writer.value.ledger == Do(s.writer.value.ledger, ops[0]) && Oldest(u,
             u.writer.value.process) == Oldest(s, s.writer.value.process);
      var rest;
      rest, t := AllocationAllowed(u, ops[1..], m, c);
      PathOne(s, e, rest, t);
      steps := [e] + rest;
    }
  }

  // ---- a transaction -----------------------------------------------------------------------------

  /** The five steps of a commit are possible one after the other, and then the next
      transaction and the next reader find what this one wrote. */
  lemma {:induction false} CommitRuns(s: State, saved: map<TxnId, set<Pgno>>) returns (t: State)
    requires Inv(s) && |s.metas| == 2 && InPhase(s, Working) && s.writer.value.scan == NoScan
    requires Saves(s.writer.value.ledger, s.writer.value.id, saved)
    ensures Path(s, [CommitStep(Save(saved)), CommitStep(Flush), CommitStep(Sync), CommitStep(WriteMeta), EndStep(EndCommit)], t)
    ensures t.writer.None? && t.txnid == s.txnid + 1 && |t.metas| == 2 && t.readers == s.readers
    ensures t.metas[s.txnid % 2] == s.metas[s.txnid % 2]
    ensures var w, m := s.writer.value, t.metas[t.txnid % 2];
            && m.id == t.txnid && m.used == w.ledger.used && m.next == w.ledger.next
            && m.records == CommittedRecords(w.ledger, w.id, saved) && m.view == WriterView(s.metas[s.txnid % 2], w)
  {
    hide Inv, Enabled, Next, WriterView, CommittedRecords, Saves;
    var a, b, c := ToSynced(s, saved);
    var d, e := CommitStep(WriteMeta), EndStep(EndCommit);
    t := FromSynced(c);
    ViewSame(s.metas[s.txnid % 2], s.writer.value, c.writer.value);
    PathOne(Next(c, d), e, [], t);
    PathOne(c, d, [e], t);
    PathOne(b, CommitStep(Sync), [d] + [e], t);
    PathOne(a, CommitStep(Flush), [CommitStep(Sync)] + ([d] + [e]), t);
    PathOne(s, CommitStep(Save(saved)), [CommitStep(Flush)] + ([CommitStep(Sync)] + ([d] + [e])), t);
    assert [CommitStep(Save(saved)), CommitStep(Flush), CommitStep(Sync), d, e]
        == [CommitStep(Save(saved))] + ([CommitStep(Flush)] + ([CommitStep(Sync)] + ([d] + [e])));
  }

  lemma ViewSame(base: Snapshot, v: Writer, w: Writer)
    requires w.ledger == v.ledger && w.own == v.own
    ensures WriterView(base, w) == WriterView(base, v)
  {
  }

  lemma {:induction false} ToSynced(s: State, saved: map<TxnId, set<Pgno>>) returns (a: State, b: State, c: State)
    requires Inv(s) && |s.metas| == 2 && InPhase(s, Working) && s.writer.value.scan == NoScan
    requires Saves(s.writer.value.ledger, s.writer.value.id, saved)
    ensures |a.metas| == 2 && |b.metas| == 2 && Enabled(s, CommitStep(Save(saved))) && a == Next(s, CommitStep(Save(saved)))
    ensures Enabled(a, CommitStep(Flush)) && b == Next(a, CommitStep(Flush)) && Enabled(b, CommitStep(Sync)) && c
         == Next(b, CommitStep(Sync))
    ensures c.metas == s.metas && c.txnid == s.txnid && c.readers == s.readers && c.writer.Some?
    ensures var v, w := s.writer.value, c.writer.value;
            && w.id == v.id == s.txnid + 1 && w.ledger == v.ledger && w.own == v.own
            && w.phase == Synced(CommittedRecords(v.ledger, v.id, saved))
  {
    var w := s.writer.value;
    assert w.mem <= w.own.Keys && w.id == s.txnid + 1;
    hide Inv, Saves, CommittedRecords, FlushWrites, Written;
    a := Next(s, CommitStep(Save(saved)));
    b := Next(a, CommitStep(Flush));
    c := Next(b, CommitStep(Sync));
  }

  lemma {:induction false} FromSynced(c: State) returns (t: State)
    requires |c.metas| == 2 && c.writer.Some? && c.writer.value.phase.Synced? && c.writer.value.id == c.txnid + 1
    ensures Enabled(c, CommitStep(WriteMeta)) && |Next(c, CommitStep(WriteMeta)).metas| == 2
    ensures Enabled(Next(c, CommitStep(WriteMeta)), EndStep(EndCommit)) && t
         == Next(Next(c, CommitStep(WriteMeta)), EndStep(EndCommit))
    ensures t.writer.None? && t.txnid == c.txnid + 1 && |t.metas| == 2 && t.readers == c.readers
    ensures t.metas[c.txnid % 2] == c.metas[c.txnid % 2]
    ensures var w, m := c.writer.value, t.metas[t.txnid % 2];
            && m.id == t.txnid && m.used == w.ledger.used && m.next == w.ledger.next
            && m.records == w.phase.recs && m.view == WriterView(c.metas[c.txnid % 2], w)
  {
    hide WriterView;
    t := Next(Next(c, CommitStep(WriteMeta)), EndStep(EndCommit));
  }

  /** A transaction that is given up leaves everything as it was, but for pages that no
      snapshot uses. */
  lemma AbortKeeps(s: State)
    requires |s.metas| == 2 && s.writer.Some? && !s.writer.value.phase.MetaWritten?
    ensures Enabled(s, EndStep(Abort)) && Next(s, EndStep(Abort)) == s.(writer := None)
  {
  }
}
