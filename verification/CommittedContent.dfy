/** What a transaction commits: the pages its operations leave in the trees, each with the
    content it was given last. */
module CommittedContent {
  import opened Wrappers
  import opened PageLedger
  import opened SnapshotProtocol

  // ---- the steps of one transaction --------------------------------------------------------------

  predicate Ends(e: Step) { e.EndStep? || e.Crash? }

  /** From b a transaction of `process` began, and has got to t by these steps of its own and
      of the readers. */
  ghost predicate During(b: State, process: Process, steps: seq<Step>, t: State)
    requires |b.metas| == 2 && b.writer.None?
    decreases |steps|
  {
    if steps == [] then t == Next(b, Begin(process))
    else
      var n := |steps| - 1;
      exists s :: During(b, process, steps[..n], s) && |s.metas| == 2 && Enabled(s,
             steps[n]) && !Ends(steps[n]) && t == Next(s, steps[n])
  }

  /** The moves of pages among them. */
  function Moves(steps: seq<Step>): seq<Op> {
    if steps == [] then []
    else
      var n := |steps| - 1;
      var e := steps[n];
      Moves(steps[..n]) + if e.WorkStep? && e.work.PageOp? then [e.work.op] else []
  }

  /** mt_next_pgno after them. */
  function NextAfter(next: nat, ops: seq<Op>): nat {
    if ops == [] then next
    else
      var n := |ops| - 1;
      NextAfter(next, ops[..n]) + if ops[n].TakeNew? then ops[n].count else 0
  }

  datatype Effect = Keeps | Gives(content: Content) | Drops

  /** What a step does to the content of page p; pages from `next` on are new. */
  function EffectOn(e: Step, p: Pgno, next: nat): Effect {
    match e
    case WorkStep(PageOp(ReuseLoose(q), c)) => if p == q then Gives(c) else Keeps
    case WorkStep(PageOp(TakeHead(ps), c)) => if p in ps then Gives(c) else Keeps
    case WorkStep(PageOp(TakeNew(n), c)) => if next <= p < next + n then Gives(c) else Keeps
    case WorkStep(PageOp(Release(ps), c)) => if p in ps then Drops else Keeps
    case WorkStep(Write(q, c)) => if p == q then Gives(c) else Keeps
    case _ => Keeps
  }

  /** The content that page p was given last. */
  function LastContent(steps: seq<Step>, next: nat, p: Pgno): Option<Content> {
    if steps == [] then None
    else
      var n := |steps| - 1;
      match EffectOn(steps[n], p, NextAfter(next, Moves(steps[..n])))
      case Gives(c) => Some(c)
      case Drops => None
      case Keeps => LastContent(steps[..n], next, p)
  }

  // ---- the writer keeps to them --------------------------------------------------------------------

  function Base(b: State): Snapshot
    requires |b.metas| == 2
  {
    b.metas[b.txnid % 2]
  }

  function BaseLedger(b: State): Ledger
    requires |b.metas| == 2
  {
    Opened(Base(b).used, Base(b).records, Base(b).next)
  }

  ghost predicate OwnFollows(own: map<Pgno, Content>, steps: seq<Step>, next: nat) {
    forall p :: LastContent(steps, next, p) == if p in own then Some(own[p]) else None
  }

  /** The new meta page, once it is written. */
  ghost predicate MetaFollows(b: State, t: State, w: Writer)
    requires |b.metas| == 2 && |t.metas| == 2
  {
    w.phase.MetaWritten? ==>
      var m := t.metas[(b.txnid + 1) % 2];
      m.used == w.ledger.used && m.next == w.ledger.next && m.view == WriterView(Base(b), w)
  }

  ghost predicate Follows(b: State, steps: seq<Step>, t: State)
    requires |b.metas| == 2
  {
    && |t.metas| == 2 && t.txnid == b.txnid && Base(t) == Base(b) && t.writer.Some?
    && var w := t.writer.value;
       && w.id == b.txnid + 1
       && Ran(BaseLedger(b), Moves(steps), w.ledger) && w.ledger.next == NextAfter(Base(b).next, Moves(steps))
       && OwnFollows(w.own, steps, Base(b).next)
       && MetaFollows(b, t, w)
  }

  lemma {:induction false} MovesThen(steps: seq<Step>, e: Step)
    ensures Moves(steps + [e]) == if e.WorkStep? && e.work.PageOp? then Moves(steps) + [e.work.op] else Moves(steps)
  {
    assert (steps + [e])[..|steps|] == steps;
  }

  lemma {:induction false} NextThen(next: nat, ops: seq<Op>, op: Op)
    ensures NextAfter(next, ops + [op]) == NextAfter(next, ops) + if op.TakeNew? then op.count else 0
  {
    assert (ops + [op])[..|ops|] == ops;
  }

  lemma {:induction false} LastThen(steps: seq<Step>, e: Step, next: nat, p: Pgno)
    ensures LastContent(steps + [e], next, p)
         == match EffectOn(e, p, NextAfter(next, Moves(steps)))
            case Gives(c) => Some(c)
            case Drops => None
            case Keeps => LastContent(steps, next, p)
  {
    assert (steps + [e])[..|steps|] == steps;
  }

  predicate Quiet(e: Step) {
    !e.WorkStep? || e.work.Spill? || e.work.Unspill?
  }

  /** A step that gives no page a content. */
  lemma {:induction false} OwnKept(own: map<Pgno, Content>, steps: seq<Step>, e: Step, next: nat)
    requires OwnFollows(own, steps, next) && Quiet(e)
    ensures OwnFollows(own, steps + [e], next)
  {
    hide LastContent;
    forall p ensures LastContent(steps + [e], next, p) == if p in own then Some(own[p]) else None {
      LastThen(steps, e, next, p);
    }
  }

  lemma {:induction false} OwnWritten(own: map<Pgno, Content>, steps: seq<Step>, q: Pgno, c: Content, next: nat)
    requires OwnFollows(own, steps, next)
    ensures OwnFollows(own[q := c], steps + [WorkStep(Write(q, c))], next)
  {
    hide LastContent;
    var own', e := own[q := c], WorkStep(Write(q, c));
    forall p ensures LastContent(steps + [e], next, p) == if p in own' then Some(own'[p]) else None {
      LastThen(steps, e, next, p);
    }
  }

  lemma {:induction false} OwnMoved(w: Writer, steps: seq<Step>, op: Op, c: Content, next: nat)
    requires OwnFollows(w.own, steps, next) && Can(w.ledger, op) && w.ledger.next == NextAfter(next, Moves(steps))
    ensures OwnFollows(WriterDo(w, op, c).own, steps + [WorkStep(PageOp(op, c))], next)
  {
    hide LastContent, NextAfter, Moves;
    var own', e := WriterDo(w, op, c).own, WorkStep(PageOp(op, c));
    forall p ensures LastContent(steps + [e], next, p) == if p in own' then Some(own'[p]) else None {
      LastThen(steps, e, next, p);
    }
  }

  lemma {:induction false} MoveFollows(b: State, steps: seq<Step>, s: State, op: Op, c: Content)
    requires |b.metas| == 2 && Follows(b, steps, s) && CanWork(s, PageOp(op, c))
    ensures Follows(b, steps + [WorkStep(PageOp(op, c))], AfterWork(s, PageOp(op, c)))
  {
    var w, e := s.writer.value, WorkStep(PageOp(op, c));
    MovesThen(steps, e);
    NextThen(Base(b).next, Moves(steps), op);
    RanThen(BaseLedger(b), Moves(steps), w.ledger, op);
    OwnMoved(w, steps, op, c, Base(b).next);
    hide OwnFollows, Ran, NextAfter, Moves;
  }

  lemma {:induction false} WriteFollows(b: State, steps: seq<Step>, s: State, q: Pgno, c: Content)
    requires |b.metas| == 2 && Follows(b, steps, s) && CanWork(s, Write(q, c))
    ensures Follows(b, steps + [WorkStep(Write(q, c))], AfterWork(s, Write(q, c)))
  {
    MovesThen(steps, WorkStep(Write(q, c)));
    OwnWritten(s.writer.value.own, steps, q, c, Base(b).next);
    hide OwnFollows, Ran, NextAfter, Moves;
  }

  /** Taking back a spilled page changes nothing: the map still has its content. */
  lemma {:induction false} UnspillSame(s: State, p: Pgno)
    requires Inv(s) && CanWork(s, Unspill(p))
    ensures Worked(s, Unspill(p)).own == s.writer.value.own
  {
    hide InvRest, Fresh, Conserved, ScanOk;
    assert s.cache[p] == s.writer.value.own[p];
  }

  lemma {:induction false} SpillFollows(b: State, steps: seq<Step>, s: State, a: WorkAct)
    requires |b.metas| == 2 && Follows(b, steps, s) && Inv(s) && CanWork(s, a) && (a.Spill? || a.Unspill?)
    ensures Follows(b, steps + [WorkStep(a)], AfterWork(s, a))
  {
    hide Inv;
    MovesThen(steps, WorkStep(a));
    OwnKept(s.writer.value.own, steps, WorkStep(a), Base(b).next);
    if a.Unspill? {
      UnspillSame(s, a.page);
    }
    hide OwnFollows, Ran, NextAfter, Moves, Written;
  }

  /** Steps that leave the writer's pages and the meta pages alone. */
  lemma {:induction false} SameFollows(b: State, steps: seq<Step>, s: State, e: Step, t: State)
    requires |b.metas| == 2 && Follows(b, steps, s) && Quiet(e) && !Ends(e)
    requires t.metas == s.metas && t.txnid == s.txnid && t.writer.Some?
    requires var v, w := s.writer.value, t.writer.value;
             w.id == v.id && w.ledger == v.ledger && w.own == v.own && (w.phase.MetaWritten? <==> v.phase.MetaWritten?)
    ensures Follows(b, steps + [e], t)
  {
    MovesThen(steps, e);
    OwnKept(s.writer.value.own, steps, e, Base(b).next);
    hide OwnFollows, Ran, NextAfter, Moves;
  }

  lemma {:induction false} MetaFollowsOn(b: State, steps: seq<Step>, s: State)
    requires |b.metas| == 2 && Follows(b, steps, s) && CanCommit(s, WriteMeta)
    ensures Follows(b, steps + [CommitStep(WriteMeta)], Committed(s, WriteMeta))
  {
    MovesThen(steps, CommitStep(WriteMeta));
    OwnKept(s.writer.value.own, steps, CommitStep(WriteMeta), Base(b).next);
    hide OwnFollows, Ran, NextAfter, Moves, WriterView;
  }

  /** Steps of the readers, of the scan, and of the commit. */
  lemma {:induction false} OtherFollows(b: State, steps: seq<Step>, s: State, e: Step)
    requires |b.metas| == 2 && |s.metas| == 2 && Follows(b, steps, s) && Enabled(s, e) && !e.WorkStep? && !Ends(e)
    ensures Follows(b, steps + [e], Next(s, e))
  {
    hide Follows, Written, Read, Scanned, CommittedRecords, Saves;
    if e.CommitStep? {
      CommitFollows(b, steps, s, e.commit);
    } else {
      assert s.writer.Some? by { FollowsMetas(b, steps, s); }
      SameFollows(b, steps, s, e, Next(s, e));
    }
  }

  lemma {:induction false} CommitFollows(b: State, steps: seq<Step>, s: State, a: CommitAct)
    requires |b.metas| == 2 && |s.metas| == 2 && Follows(b, steps, s) && CanCommit(s, a)
    ensures Follows(b, steps + [CommitStep(a)], Committed(s, a))
  {
    hide Follows, Written, CommittedRecords, Saves;
    if a.WriteMeta? {
      MetaFollowsOn(b, steps, s);
    } else {
      SameFollows(b, steps, s, CommitStep(a), Committed(s, a));
    }
  }

  lemma {:induction false} StepFollows(b: State, steps: seq<Step>, s: State, e: Step)
    requires |b.metas| == 2 && Follows(b, steps, s) && Inv(s) && Enabled(s, e) && !Ends(e)
    ensures Follows(b, steps + [e], Next(s, e))
  {
    hide Inv, Follows;
    if e.WorkStep? {
      match e.work
      case PageOp(op, c) => MoveFollows(b, steps, s, op, c);
      case Write(q, c) => WriteFollows(b, steps, s, q, c);
      case _ => SpillFollows(b, steps, s, e.work);
    } else {
      assert |s.metas| == 2 by { FollowsMetas(b, steps, s); }
      OtherFollows(b, steps, s, e);
    }
  }

  lemma FollowsMetas(b: State, steps: seq<Step>, s: State)
    requires |b.metas| == 2 && Follows(b, steps, s)
    ensures |s.metas| == 2 && s.writer.Some?
  {
  }

  lemma {:induction false} BeginFollows(b: State, process: Process)
    requires |b.metas| == 2 && b.writer.None?
    ensures Follows(b, [], Next(b, Begin(process)))
  {
  }

  lemma {:induction false} DuringFollows(b: State, process: Process, steps: seq<Step>, t: State)
    requires Inv(b) && |b.metas| == 2 && b.writer.None? && During(b, process, steps, t)
    ensures Inv(t) && Follows(b, steps, t)
    decreases |steps|
  {
    hide Inv, Follows, Next;
    if steps == [] {
      BeginFollows(b, process);
      StepInv(b, Begin(process));
    } else {
      var n := |steps| - 1;
      var s :| During(b, process, steps[..n], s) && |s.metas| == 2 && Enabled(s,
             steps[n]) && !Ends(steps[n]) && t == Next(s, steps[n]);
      hide Enabled;
      DuringFollows(b, process, steps[..n], s);
      StepFollows(b, steps[..n], s, steps[n]);
      StepInv(s, steps[n]);
      assert steps[..n] + [steps[n]] == steps;
    }
  }

  /** In every run: when the meta page of a transaction is written, its snapshot has the
      pages that the transaction's moves leave in the trees, each with the content it was given last,
      or, if it was given none, with the one it had in the snapshot the transaction began
      from; and that is what the map holds. */
  lemma {:induction false} CommitsLastContent(before: seq<Step>, b: State, process: Process, steps: seq<Step>,
         t: State) returns (l: Ledger)
    requires RunTo(before, b) && |b.metas| == 2 && b.writer.None?
    requires During(b, process, steps, t) && InPhase(t, MetaWritten) && |t.metas| == 2
    ensures Ran(BaseLedger(b), Moves(steps), l) && Newest(t).used == l.used && Newest(t).next == l.next
    ensures Newest(t).id == b.txnid + 1
    ensures forall p :: p in l.used ==>
              && p in Newest(t).view && p in t.cache && t.cache[p] == Newest(t).view[p]
              && match LastContent(steps, Base(b).next, p)
                 case Some(c) => Newest(t).view[p] == c
                 case None => p in Base(b).view && Newest(t).view[p] == Base(b).view[p]
  {
    hide Inv, Ran, LastContent, RunTo, During, Next;
    RunInv(before, b);
    DuringFollows(b, process, steps, t);
    l := t.writer.value.ledger;
    var m := Newest(t);
    NewestOk(t);
    ViewFollows(Base(b), t.writer.value, m.view, steps);
  }

  lemma {:induction false} NewestOk(t: State)
    requires Inv(t) && |t.metas| == 2
    ensures SnapshotOk(t, Newest(t)) && (Committing(t) ==> Newest(t).id == t.txnid + 1)
  {
    hide DurableOk, CacheOk, RecordsOk, ReadersOk, OldestOk, WriterOk, Accounted;
    assert Live(t, Newest(t));
  }

  lemma {:induction false} ViewFollows(base: Snapshot, w: Writer, view: map<Pgno, Content>, steps: seq<Step>)
    requires view == WriterView(base, w) && view.Keys == w.ledger.used && OwnFollows(w.own, steps, base.next)
    ensures forall p :: p in view ==>
              match LastContent(steps, base.next, p)
              case Some(c) => view[p] == c
              case None => p in base.view && view[p] == base.view[p]
  {
    hide LastContent;
  }
}
