/** Lock-free readers against a single writer, as interleaved steps.

    Readers publish a transaction id in their slot without a lock and re-check it;
    the writer scans the slots one read at a time, reclaims freeDB records below
    the oldest id it saw (cached per process in me_pgoldest), and commits by
    writing one of two meta pages.  Page writes reach the disk only at a sync, so
    a crash may keep any subset of the writes made since the last one. */
module SnapshotProtocol {
  import opened Wrappers
  import opened PageLedger

  type Content = int
  type Process = nat

  /** What a meta page points to: the committed trees and freeDB, with the
      contents its pages had when it was committed. */
  datatype Snapshot = Snapshot(
    id: TxnId, used: set<Pgno>, records: map<TxnId, set<Pgno>>, next: nat,
    view: map<Pgno, Content>)

  datatype SlotId = Unset | At(id: TxnId)

  datatype ReaderPc = Resting | Loaded(v: TxnId) | Stored | Validated | Active(snap: Snapshot)

  datatype Reader = Reader(pid: bool, slot: SlotId, pc: ReaderPc)

  /** mdb_find_oldest in progress: slots below `left` are still to be read. */
  datatype Scan = NoScan | Scanning(left: nat, oldest: TxnId, sawPid: bool)

  datatype Phase =
    | Working
    | Saved(recs: map<TxnId, set<Pgno>>)
    | Flushed(recs: map<TxnId, set<Pgno>>)
    | Synced(recs: map<TxnId, set<Pgno>>)
    | MetaWritten

  datatype Writer = Writer(
    process: Process,
    id: TxnId,
    ledger: Ledger,
    own: map<Pgno, Content>,  // pages handed out in this transaction, as last written
    mem: set<Pgno>,           // those in memory only; the others were spilled
    scan: Scan,
    phase: Phase)

  datatype State = State(
    metas: seq<Snapshot>,
    txnid: TxnId,                          // mti_txnid
    readers: seq<Reader>,
    pgoldest: map<Process, TxnId>,
    writer: Option<Writer>,
    cache: map<Pgno, Content>,             // what any process reads from the map
    durable: map<Pgno, set<Content>>)      // what a crash may leave

  function Oldest(s: State, process: Process): TxnId {
    if process in s.pgoldest then s.pgoldest[process] else 0
  }

  /** mdb_env_pick_meta */
  function PickMeta(s: State): Snapshot
    requires |s.metas| == 2
  {
    if s.metas[0].id < s.metas[1].id then s.metas[1] else s.metas[0]
  }

  function Init(): State {
    var empty := Snapshot(0, {}, map[], NUM_METAS, map[]);
    State([empty, empty], 0, [], map[], None, map[], map[])
  }

  /** What one reader thread, named by its slot, does next. */
  datatype ReaderAct = SetPid | Load | Store | Recheck | CopyMeta | EndRead | FreeSlot

  datatype ScanAct = ScanStart | ScanPid | ScanSlot | ScanEnd

  datatype WorkAct =
    | PageOp(op: Op, content: Content)
    | Write(page: Pgno, content: Content)
    | Spill(page: Pgno)
    | Unspill(page: Pgno)

  datatype CommitAct = Save(saved: map<TxnId, set<Pgno>>) | Flush | Sync | WriteMeta

  datatype EndAct = EndCommit | Abort | WriterDies

  datatype Step =
    | AddSlot
    | ReaderStep(r: nat, read: ReaderAct)
    | Begin(process: Process)
    | ScanStep(scan: ScanAct)
    | WorkStep(work: WorkAct)
    | CommitStep(commit: CommitAct)
    | EndStep(end: EndAct)
    | Crash(left: map<Pgno, Content>)

  // ---- readers -------------------------------------------------------------

  predicate At(s: State, r: nat, pc: ReaderPc) {
    r < |s.readers| && s.readers[r].pc == pc
  }

  predicate CanRead(s: State, r: nat, a: ReaderAct) {
    && r < |s.readers|
    && var rd := s.readers[r];
       match a
       case SetPid => rd.pc.Resting? && !rd.pid
       case Load => rd.pc.Resting? && rd.pid
       case Store => rd.pc.Loaded?
       case Recheck => rd.pc.Stored?
       case CopyMeta => rd.pc.Validated? && rd.slot.At?
       case EndRead => rd.pc.Active?
       case FreeSlot => rd.pc.Resting? && rd.pid && rd.slot == Unset
  }

  function Read(s: State, r: nat, a: ReaderAct): Reader
    requires |s.metas| == 2 && CanRead(s, r, a)
  {
    var rd := s.readers[r];
    match a
    case SetPid => rd.(pid := true, slot := Unset)
    case Load => rd.(pc := Loaded(s.txnid))
    case Store => rd.(slot := SlotId.At(rd.pc.v), pc := Stored)
    case Recheck => rd.(pc := if rd.slot == SlotId.At(s.txnid) then Validated else Resting)
    case CopyMeta => rd.(pc := Active(s.metas[rd.slot.id % 2]))
    case EndRead => rd.(slot := Unset, pc := Resting)
    case FreeSlot => rd.(pid := false)
  }

  // ---- the writer at work --------------------------------------------------

  predicate InPhase(s: State, phase: Phase) {
    s.writer.Some? && s.writer.value.phase == phase
  }

  function Began(s: State, process: Process): Writer
    requires |s.metas| == 2
  {
    var m := s.metas[s.txnid % 2];
    Writer(process, s.txnid + 1, Opened(m.used, m.records, m.next), map[], {}, NoScan, Working)
  }

  /** mdb_find_oldest reads mr_pid and mr_txnid of one slot after the other. */
  predicate CanScan(s: State, a: ScanAct) {
    && InPhase(s, Working)
    && var sc := s.writer.value.scan;
       match a
       case ScanStart => sc == NoScan
       case ScanPid => sc.Scanning? && 0 < sc.left <= |s.readers| && !sc.sawPid
       case ScanSlot => sc.Scanning? && 0 < sc.left <= |s.readers| && sc.sawPid
       case ScanEnd => sc.Scanning? && sc.left == 0
  }

  function Min(a: nat, b: nat): nat { if a < b then a else b }

  function Scanned(s: State, a: ScanAct): Scan
    requires CanScan(s, a)
  {
    var sc := s.writer.value.scan;
    match a
    case ScanStart => Scanning(|s.readers|, if s.writer.value.id > 0 then s.writer.value.id - 1 else 0, false)
    case ScanPid => if s.readers[sc.left - 1].pid then sc.(sawPid := true) else sc.(left := sc.left - 1)
    case ScanSlot =>
      var slot := s.readers[sc.left - 1].slot;
      Scanning(sc.left - 1, if slot.At? then Min(sc.oldest, slot.id) else sc.oldest, false)
    case ScanEnd => NoScan
  }

  /** What mdb_page_alloc and the callers of the other moves check first. */
  predicate MayDo(s: State, w: Writer, op: Op) {
    && Can(w.ledger, op)
    && match op
       case Consume(k) => k < Oldest(s, w.process)
       case Loosen(p) => p in w.mem
       case Release(ps) => ps <= w.own.Keys
       case _ => true
  }

  predicate CanWork(s: State, a: WorkAct) {
    && InPhase(s, Working)
    && var w := s.writer.value;
       match a
       case PageOp(op, _) => MayDo(s, w, op)
       case Write(p, _) => p in w.mem
       case Spill(p) => p in w.mem && p in w.own
       case Unspill(p) => p in w.own && p in s.cache && p !in w.mem
  }

  /** Pages an operation hands out. */
  function Given(l: Ledger, op: Op): set<Pgno> {
    match op
    case ReuseLoose(p) => {p}
    case TakeHead(ps) => ps
    case TakeNew(n) => Run(l.next, n)
    case _ => {}
  }

  function Gone(op: Op): set<Pgno> {
    if op.Release? then op.pages else {}
  }

  function WriterDo(w: Writer, op: Op, c: Content): Writer
    requires Can(w.ledger, op)
  {
    var given := Given(w.ledger, op);
    w.(ledger := Do(w.ledger, op),
       own := (w.own + map p | p in given :: c) - Gone(op),
       mem := (w.mem + given) - Gone(op))
  }

  function Worked(s: State, a: WorkAct): Writer
    requires CanWork(s, a)
  {
    var w := s.writer.value;
    match a
    case PageOp(op, c) => WriterDo(w, op, c)
    case Write(p, c) => w.(own := w.own[p := c])
    case Spill(p) => w.(mem := w.mem - {p})
    case Unspill(p) => w.(own := w.own[p := s.cache[p]], mem := w.mem + {p})
  }

  function Spilled(s: State, p: Pgno): map<Pgno, Content>
    requires CanWork(s, Spill(p))
  {
    map[p := s.writer.value.own[p]]
  }

  /** Writes to the page cache: a crash may leave the old or the new content. */
  function Written(durable: map<Pgno, set<Content>>, writes: map<Pgno, Content>): map<Pgno, set<Content>> {
    map p | p in durable.Keys + writes.Keys ::
      (if p in durable then durable[p] else {}) + (if p in writes then {writes[p]} else {})
  }

  // ---- commit and failure --------------------------------------------------

  ghost predicate CanCommit(s: State, a: CommitAct) {
    && s.writer.Some?
    && var w := s.writer.value;
       match a
       case Save(saved) => w.phase.Working? && w.scan == NoScan && Saves(w.ledger, w.id, saved)
       case Flush => w.phase.Saved? && w.mem <= w.own.Keys
       case Sync => w.phase.Flushed?
       case WriteMeta => w.phase.Synced?
  }

  function WriterView(base: Snapshot, w: Writer): map<Pgno, Content> {
    map p | p in w.ledger.used && (p in w.own || p in base.view) ::
      if p in w.own then w.own[p] else base.view[p]
  }

  /** The pages mdb_page_flush writes. */
  function FlushWrites(w: Writer): map<Pgno, Content> {
    map p | p in w.mem && p !in w.ledger.loose && p in w.own :: w.own[p]
  }

  ghost function Committed(s: State, a: CommitAct): State
    requires |s.metas| == 2 && CanCommit(s, a)
  {
    var w := s.writer.value;
    match a
    case Save(saved) => s.(writer := Some(w.(phase := Saved(CommittedRecords(w.ledger, w.id, saved)))))
    case Flush =>
      s.(cache := s.cache + FlushWrites(w), durable := Written(s.durable, FlushWrites(w)),
         writer := Some(w.(mem := w.mem * w.ledger.loose, phase := Flushed(w.phase.recs))))
    case Sync =>
      s.(durable := map p | p in s.cache :: {s.cache[p]}, writer := Some(w.(phase := Synced(w.phase.recs))))
    case WriteMeta =>
      var base := s.metas[s.txnid % 2];
      s.(metas := s.metas[w.id % 2 := Snapshot(w.id, w.ledger.used, w.phase.recs, w.ledger.next, WriterView(base, w))],
         writer := Some(w.(phase := MetaWritten)))
  }

  predicate CanEnd(s: State, a: EndAct) {
    && s.writer.Some?
    && match a
       case EndCommit => s.writer.value.phase.MetaWritten?
       case Abort => !s.writer.value.phase.MetaWritten?
       case WriterDies => true
  }

  /** EndCommit is the last store of mdb_env_write_meta; after a dead writer,
      mdb_mutex_failed sets mti_txnid from the newest meta page. */
  function Ended(s: State, a: EndAct): State
    requires |s.metas| == 2 && CanEnd(s, a)
  {
    match a
    case EndCommit => s.(txnid := s.writer.value.id, writer := None)
    case Abort => s.(writer := None)
    case WriterDies => s.(txnid := PickMeta(s).id, writer := None)
  }

  /** Each page keeps one of the contents written to it since the last sync. */
  ghost predicate CanLeave(s: State, left: map<Pgno, Content>) {
    && left.Keys == s.cache.Keys == s.durable.Keys
    && forall p :: p in left ==> left[p] in s.durable[p]
  }

  function Crashed(s: State, left: map<Pgno, Content>): State
    requires |s.metas| == 2
  {
    State(s.metas, PickMeta(s).id, [], map[], None, left, map p | p in left :: {left[p]})
  }

  // ---- one step ------------------------------------------------------------

  ghost predicate Enabled(s: State, e: Step) {
    match e
    case AddSlot => true
    case ReaderStep(r, a) => CanRead(s, r, a)
    case Begin(_) => s.writer.None?
    case ScanStep(a) => CanScan(s, a)
    case WorkStep(a) => CanWork(s, a)
    case CommitStep(a) => CanCommit(s, a)
    case EndStep(a) => CanEnd(s, a)
    case Crash(left) => CanLeave(s, left)
  }

  ghost function Next(s: State, e: Step): State
    requires |s.metas| == 2 && Enabled(s, e)
  {
    match e
    case AddSlot => s.(readers := s.readers + [Reader(false, Unset, Resting)])
    case ReaderStep(r, a) => s.(readers := s.readers[r := Read(s, r, a)])
    case Begin(process) => s.(writer := Some(Began(s, process)))
    case ScanStep(a) => AfterScan(s, a)
    case WorkStep(a) => AfterWork(s, a)
    case CommitStep(a) => Committed(s, a)
    case EndStep(a) => Ended(s, a)
    case Crash(left) => Crashed(s, left)
  }

  function AfterScan(s: State, a: ScanAct): State
    requires CanScan(s, a)
  {
    var w := s.writer.value;
    s.(pgoldest := if a.ScanEnd? then s.pgoldest[w.process := w.scan.oldest] else s.pgoldest,
       writer := Some(w.(scan := Scanned(s, a))))
  }

  function AfterWork(s: State, a: WorkAct): State
    requires CanWork(s, a)
  {
    var t := s.(writer := Some(Worked(s, a)));
    if a.Spill? then
      t.(cache := s.cache + Spilled(s, a.page), durable := Written(s.durable, Spilled(s, a.page)))
    else t
  }

  // ---- the invariant -------------------------------------------------------

  /** A snapshot somebody may still read: both meta pages, and those that active
      readers copied. */
  ghost predicate Live(s: State, snap: Snapshot)
    requires |s.metas| == 2
  {
    || snap == s.metas[0]
    || snap == s.metas[1]
    || exists r: nat :: At(s, r, Active(snap))
  }

  /** No snapshot in use holds page p. */
  ghost predicate Fresh(s: State, p: Pgno)
    requires |s.metas| == 2
  {
    forall snap :: Live(s, snap) ==> p !in snap.used
  }

  predicate Committing(s: State) { InPhase(s, MetaWritten) }

  /** The snapshot that the next writer will build on. */
  function Newest(s: State): Snapshot
    requires |s.metas| == 2
  {
    s.metas[(if Committing(s) then s.txnid + 1 else s.txnid) % 2]
  }

  ghost predicate MetasOk(s: State)
    requires |s.metas| == 2
  {
    var n := Newest(s).id;
    var other := s.metas[(n + 1) % 2];
    && n == (if Committing(s) then s.txnid + 1 else s.txnid)
    && other.id == (if n == 0 then 0 else n - 1)
  }

  ghost predicate SnapshotOk(s: State, snap: Snapshot)
    requires |s.metas| == 2
  {
    && snap.id <= Newest(s).id
    && snap.next <= Newest(s).next
    && Accounted(snap.used, snap.records, snap.next)
    && (forall k :: k in snap.records ==> 1 <= k <= snap.id)
    && snap.view.Keys == snap.used
    && (forall p :: p in snap.used ==> p in s.cache && s.cache[p] == snap.view[p])
  }

  ghost predicate LiveOk(s: State)
    requires |s.metas| == 2
  {
    forall snap :: Live(s, snap) ==> SnapshotOk(s, snap)
  }

  /** Both committed snapshots would survive a crash. */
  ghost predicate DurableOk(s: State)
    requires |s.metas| == 2
  {
    Survives(s.durable, s.metas[0]) && Survives(s.durable, s.metas[1])
  }

  ghost predicate Survives(durable: map<Pgno, set<Content>>, m: Snapshot) {
    forall p :: p in m.used ==> p in durable && p in m.view && durable[p] == {m.view[p]}
  }

  ghost predicate CacheOk(s: State) {
    s.cache.Keys == s.durable.Keys && forall p :: p in s.cache ==> s.cache[p] in s.durable[p]
  }

  /** No cached me_pgoldest is ahead of the last commit. */
  ghost predicate OldestOk(s: State) {
    forall q :: Oldest(s, q) <= s.txnid
  }

  /** A page freed by transaction k is in no live snapshot from k on. */
  ghost predicate RecordsOk(s: State, records: map<TxnId, set<Pgno>>)
    requires |s.metas| == 2
  {
    forall k: TxnId, p, snap :: Listed(records, k, p) && Live(s, snap) && k <= snap.id ==> p !in snap.used
  }

  predicate Published(rd: Reader) { rd.pc.Validated? || rd.pc.Active? }

  ghost predicate ReadersOk(s: State) {
    forall r: nat :: r < |s.readers| ==> ReaderOk(s, s.readers[r])
  }

  ghost predicate ReaderOk(s: State, rd: Reader) {
    && (!rd.pc.Resting? ==> rd.pid)
    && (rd.pc.Stored? ==> rd.slot.At?)
    && (Published(rd) ==>
          && rd.slot.At? && rd.slot.id <= s.txnid
          && forall q :: Oldest(s, q) <= rd.slot.id)
    && (rd.pc.Active? ==> rd.slot.id <= rd.pc.snap.id)
  }

  ghost predicate ScanOk(s: State, w: Writer) {
    w.scan.Scanning? ==>
      && w.scan.oldest <= s.txnid
      && w.scan.left <= |s.readers|
      && (w.scan.sawPid ==> 0 < w.scan.left)
      && forall r: nat :: r < |s.readers| && Published(s.readers[r]) ==>
           r < w.scan.left || (s.readers[r].slot.At? && w.scan.oldest <= s.readers[r].slot.id)
  }

  ghost predicate PagesOk(s: State, w: Writer)
    requires |s.metas| == 2
  {
    var base := s.metas[s.txnid % 2];
    && w.id == s.txnid + 1
    && Conserved(w.ledger)
    && w.ledger.records == base.records
    && w.ledger.last <= s.txnid
    && base.next <= w.ledger.next
    && (forall p :: p in w.own || p in w.ledger.head ==> Fresh(s, p))
    && (forall p :: p in w.ledger.loose ==> p in w.own)
    && (forall p :: p in w.ledger.used ==> p in w.own || p in base.used)
    && w.mem <= w.own.Keys
    && (forall p :: p in w.own && p !in w.mem ==> p in s.cache && s.cache[p] == w.own[p])
  }

  /** The freeDB about to be committed accounts for every page. */
  ghost predicate RecsOk(s: State, w: Writer, recs: map<TxnId, set<Pgno>>)
    requires |s.metas| == 2
  {
    && Accounted(w.ledger.used, recs, w.ledger.next)
    && (forall k :: k in recs ==> 1 <= k <= w.id)
    && (forall k, p :: Listed(recs, k, p) ==> k == w.id || Fresh(s, p) || Listed(s.metas[s.txnid % 2].records, k, p))
  }

  ghost predicate WriterOk(s: State, w: Writer)
    requires |s.metas| == 2
  {
    match w.phase
    case Working => PagesOk(s, w) && ScanOk(s, w)
    case Saved(recs) => PagesOk(s, w) && RecsOk(s, w, recs)
    case Flushed(recs) => PagesOk(s, w) && RecsOk(s, w, recs) && w.mem !! w.ledger.used
    case Synced(recs) => PagesOk(s, w) && RecsOk(s, w, recs) && w.mem !! w.ledger.used
                         && (forall p :: p in s.cache ==> p in s.durable && s.durable[p] == {s.cache[p]})
    case MetaWritten => w.id == s.txnid + 1
  }

  /** All of the invariant except what it says of the writer. */
  ghost predicate InvRest(s: State) {
    && |s.metas| == 2
    && MetasOk(s)
    && LiveOk(s) && DurableOk(s) && CacheOk(s)
    && RecordsOk(s, Newest(s).records)
    && ReadersOk(s) && OldestOk(s)
  }

  ghost predicate Inv(s: State) {
    && InvRest(s)
    && (s.writer.Some? ==> WriterOk(s, s.writer.value))
  }

  lemma InitInv()
    ensures Inv(Init())
  {
  }

  // ---- preservation --------------------------------------------------------

  ghost predicate NoNewLive(s: State, t: State)
    requires |s.metas| == |t.metas| == 2
  {
    forall snap :: Live(t, snap) ==> Live(s, snap)
  }

  /** Nothing about the committed snapshots depends on the readers beyond the set of
      live snapshots. */
  lemma SnapshotsFrame(s: State, t: State)
    requires InvRest(s)
    requires t == s.(readers := t.readers)
    requires NoNewLive(s, t)
    ensures MetasOk(t) && LiveOk(t) && DurableOk(t) && RecordsOk(t, Newest(t).records)
  {
    assert DurableOk(t);
    hide ReadersOk, OldestOk, DurableOk, CacheOk, Accounted, Live;
    assert Newest(t) == Newest(s);
    forall snap | Live(t, snap)
      ensures SnapshotOk(t, snap)
    {
      assert SnapshotOk(s, snap);
    }
  }

  /** Nor do the writer's pages. */
  lemma PagesFrame(s: State, t: State, w: Writer)
    requires |s.metas| == 2 && t == s.(readers := t.readers) && NoNewLive(s, t)
    requires PagesOk(s, w)
    ensures PagesOk(t, w)
    ensures forall recs :: RecsOk(s, w, recs) ==> RecsOk(t, w, recs)
  {
    hide Accounted, Conserved, Live;
    assert forall p: Pgno :: Fresh(s, p) ==> Fresh(t, p);
  }

  lemma ReaderOnly(s: State, t: State)
    requires Inv(s) && t == s.(readers := t.readers) && NoNewLive(s, t) && ReadersOk(t)
    requires InPhase(s, Working) ==> ScanOk(t, s.writer.value)
    ensures Inv(t)
  {
    hide MetasOk, LiveOk, DurableOk, CacheOk, RecordsOk, ReadersOk, PagesOk, RecsOk, ScanOk, NoNewLive;
    SnapshotsFrame(s, t);
    OldestSame(s, t);
    CacheSame(s, t);
    if s.writer.Some? && !s.writer.value.phase.MetaWritten? {
      PagesFrame(s, t, s.writer.value);
    }
  }

  lemma OldestSame(s: State, t: State)
    requires t.pgoldest == s.pgoldest
    ensures forall q :: Oldest(t, q) == Oldest(s, q)
  {
  }

  lemma CacheSame(s: State, t: State)
    requires CacheOk(s) && t.cache == s.cache && t.durable == s.durable
    ensures CacheOk(t)
  {
  }

  /** What the writer relies on when nothing it reads has changed. */
  lemma PagesSame(s: State, t: State, w: Writer)
    requires |s.metas| == 2 && t.metas == s.metas && t.readers == s.readers && t.txnid == s.txnid && t.cache == s.cache
    requires PagesOk(s, w)
    ensures PagesOk(t, w)
  {
    hide Conserved, Live;
    SameLive(s, t);
  }

  lemma RecsSame(s: State, t: State, w: Writer, w': Writer, recs: map<TxnId, set<Pgno>>)
    requires |s.metas| == 2 && t.metas == s.metas && t.readers == s.readers && t.txnid == s.txnid
    requires w'.ledger == w.ledger && w'.id == w.id && RecsOk(s, w, recs)
    ensures RecsOk(t, w', recs)
  {
    hide Accounted, Live;
    SameLive(s, t);
  }

  lemma ScanSame(s: State, t: State, w: Writer, w': Writer)
    requires t.readers == s.readers && t.txnid == s.txnid && w'.scan == w.scan && ScanOk(s, w)
    ensures ScanOk(t, w')
  {
  }

  lemma ReadKeeps(s: State, r: nat, a: ReaderAct)
    requires Inv(s) && CanRead(s, r, a)
    ensures var rd := Read(s, r, a);
            && ReaderOk(s, rd)
            && (rd.pc.Active? ==> Live(s, rd.pc.snap))
            && (Published(rd) ==> || (Published(s.readers[r]) && rd.slot == s.readers[r].slot)
                                  || rd.slot == SlotId.At(s.txnid))
  {
    assert ReaderOk(s, s.readers[r]);
    assert a.EndRead? || s.readers[r].pc.Active? ==> At(s, r, s.readers[r].pc);
  }

  lemma ReadLive(s: State, r: nat, a: ReaderAct)
    requires Inv(s) && CanRead(s, r, a)
    ensures NoNewLive(s, Next(s, ReaderStep(r, a)))
  {
    var t := Next(s, ReaderStep(r, a));
    ReadKeeps(s, r, a);
    hide InvRest, WriterOk, Read, CanRead;
    forall snap | Live(t, snap)
      ensures Live(s, snap)
    {
      if i: nat :| At(t, i, Active(snap)) {
        assert i == r || At(s, i, Active(snap));
      }
    }
  }

  lemma ReadReaders(s: State, r: nat, a: ReaderAct)
    requires Inv(s) && CanRead(s, r, a)
    ensures ReadersOk(Next(s, ReaderStep(r, a)))
  {
    var t := Next(s, ReaderStep(r, a));
    ReadKeeps(s, r, a);
    OldestSame(s, t);
    hide WriterOk, MetasOk, LiveOk, DurableOk, CacheOk, RecordsOk, OldestOk, Read, CanRead;
    forall i: nat | i < |t.readers|
      ensures ReaderOk(t, t.readers[i])
    {
      assert ReaderOk(s, if i == r then Read(s, r, a) else s.readers[i]);
    }
  }

  /** A reader that publishes its id after the scan has passed it publishes a newer one. */
  lemma ReadScan(s: State, r: nat, a: ReaderAct)
    requires Inv(s) && CanRead(s, r, a) && InPhase(s, Working)
    ensures ScanOk(Next(s, ReaderStep(r, a)), s.writer.value)
  {
    ReadKeeps(s, r, a);
    hide MetasOk, LiveOk, DurableOk, CacheOk, RecordsOk, OldestOk, ReadersOk, PagesOk, Read, CanRead;
  }

  /** A step of a reader thread. */
  lemma ReadInv(s: State, r: nat, a: ReaderAct)
    requires Inv(s) && CanRead(s, r, a)
    ensures Inv(Next(s, ReaderStep(r, a)))
  {
    ReadLive(s, r, a);
    ReadReaders(s, r, a);
    if InPhase(s, Working) { ReadScan(s, r, a); }
    var t := Next(s, ReaderStep(r, a));
    hide Inv, ReadersOk, ScanOk, NoNewLive, CanRead, Read;
    ReaderOnly(s, t);
  }

  lemma AddSlotInv(s: State)
    requires Inv(s)
    ensures Inv(Next(s, AddSlot))
  {
    var t := Next(s, AddSlot);
    forall snap | Live(t, snap)
      ensures Live(s, snap)
    {
      if i: nat :| At(t, i, Active(snap)) {
        assert At(s, i, Active(snap));
      }
    }
    forall i: nat | i < |t.readers|
      ensures ReaderOk(t, t.readers[i])
    {
      assert forall q :: Oldest(t, q) == Oldest(s, q);
      assert i < |s.readers| ==> ReaderOk(s, s.readers[i]);
    }
    ReaderOnly(s, t);
  }

  lemma SameLive(s: State, t: State)
    requires |s.metas| == 2 && t.metas == s.metas && t.readers == s.readers
    ensures forall snap :: Live(t, snap) == Live(s, snap)
    ensures forall p: Pgno :: Fresh(t, p) == Fresh(s, p)
  {
    assert forall r: nat, pc :: At(t, r, pc) == At(s, r, pc);
  }

  lemma ReadersFrame(s: State, t: State)
    requires ReadersOk(s) && t.readers == s.readers && t.txnid == s.txnid && t.pgoldest == s.pgoldest
    ensures ReadersOk(t)
    ensures forall q :: Oldest(t, q) == Oldest(s, q)
  {
    assert forall q :: Oldest(t, q) == Oldest(s, q);
    forall r: nat | r < |t.readers|
      ensures ReaderOk(t, t.readers[r])
    {
      assert ReaderOk(s, s.readers[r]);
    }
  }

  predicate IsWrite(s: State, t: State, writes: map<Pgno, Content>) {
    && t == s.(cache := s.cache + writes, durable := Written(s.durable, writes), writer := t.writer)
    && Committing(t) == Committing(s)
  }

  lemma WriteKeepsSnapshot(s: State, t: State, writes: map<Pgno, Content>, snap: Snapshot)
    requires |s.metas| == 2 && IsWrite(s, t, writes)
    requires Live(s, snap) && SnapshotOk(s, snap)
    requires forall p :: p in writes ==> Fresh(s, p)
    ensures SnapshotOk(t, snap)
  {
    assert Newest(t) == Newest(s);
    assert forall p :: p in snap.used ==> p !in writes;
  }

  lemma WriteKeepsDurable(s: State, writes: map<Pgno, Content>, snap: Snapshot)
    requires |s.metas| == 2 && Live(s, snap) && Survives(s.durable, snap)
    requires forall p :: p in writes ==> Fresh(s, p)
    ensures Survives(Written(s.durable, writes), snap)
  {
    assert forall p :: p in snap.used ==> p !in writes;
    hide Fresh, Live;
  }

  /** Writing pages that no live snapshot holds leaves every snapshot intact. */
  lemma WritesFrame(s: State, t: State, writes: map<Pgno, Content>)
    requires InvRest(s) && IsWrite(s, t, writes)
    requires forall p :: p in writes ==> Fresh(s, p)
    ensures InvRest(t)
    ensures forall p: Pgno :: Fresh(t, p) == Fresh(s, p)
  {
    SameLive(s, t);
    ReadersFrame(s, t);
    assert Newest(t) == Newest(s);
    WritesLive(s, t, writes);
    WritesDurable(s, t, writes);
    hide LiveOk, DurableOk, ReadersOk, Fresh;
  }

  lemma WritesLive(s: State, t: State, writes: map<Pgno, Content>)
    requires InvRest(s) && IsWrite(s, t, writes)
    requires forall p :: p in writes ==> Fresh(s, p)
    ensures LiveOk(t)
  {
    SameLive(s, t);
    forall snap | Live(t, snap)
      ensures SnapshotOk(t, snap)
    {
      WriteKeepsSnapshot(s, t, writes, snap);
    }
  }

  lemma WritesDurable(s: State, t: State, writes: map<Pgno, Content>)
    requires InvRest(s) && IsWrite(s, t, writes)
    requires forall p :: p in writes ==> Fresh(s, p)
    ensures DurableOk(t) && CacheOk(t)
  {
    WriteKeepsDurable(s, writes, s.metas[0]);
    WriteKeepsDurable(s, writes, s.metas[1]);
    hide Survives, LiveOk, MetasOk, RecordsOk, ReadersOk, OldestOk, Fresh;
  }

  /** Changing the writer's record changes nothing else that the invariant mentions. */
  lemma WriterFrame(s: State, t: State)
    requires InvRest(s)
    requires t == s.(writer := t.writer) && Committing(t) == Committing(s)
    ensures InvRest(t)
    ensures forall p: Pgno :: Fresh(t, p) == Fresh(s, p)
  {
    assert s.cache + map[] == s.cache;
    var d := Written(s.durable, map[]);
    assert d.Keys == s.durable.Keys && forall p :: p in d ==> d[p] == s.durable[p];
    hide InvRest;
    WritesFrame(s, t, map[]);
  }

  lemma BeginInv(s: State, process: Process)
    requires Inv(s) && s.writer.None?
    ensures Inv(Next(s, Begin(process)))
  {
    var t := Next(s, Begin(process));
    BeginPages(s, process);
    WriterFrame(s, t);
    PagesSame(s, t, Began(s, process));
    hide InvRest, PagesOk, Fresh;
  }

  lemma BeginPages(s: State, process: Process)
    requires InvRest(s) && s.writer.None?
    ensures PagesOk(s, Began(s, process))
  {
    var m := s.metas[s.txnid % 2];
    assert Live(s, m);
    assert SnapshotOk(s, m);
    OpenedConserved(m.used, m.records, m.next);
  }

  lemma ScanKeeps(s: State, a: ScanAct)
    requires Inv(s) && CanScan(s, a)
    ensures ScanOk(s, s.writer.value.(scan := Scanned(s, a)))
  {
    var sc := Scanned(s, a);
    forall r: nat | sc.Scanning? && r < |s.readers| && Published(s.readers[r])
      ensures r < sc.left || (s.readers[r].slot.At? && sc.oldest <= s.readers[r].slot.id)
    {
      assert ReaderOk(s, s.readers[r]);
    }
  }

  /** The value cached in me_pgoldest is no later than any published slot. */
  lemma ScanEndReaders(s: State)
    requires Inv(s) && CanScan(s, ScanEnd)
    ensures ReadersOk(AfterScan(s, ScanEnd)) && OldestOk(AfterScan(s, ScanEnd))
  {
    hide MetasOk, LiveOk, DurableOk, CacheOk, RecordsOk, PagesOk;
    var t := AfterScan(s, ScanEnd);
    var w := s.writer.value;
    assert forall q :: Oldest(t, q) == if q == w.process then w.scan.oldest else Oldest(s, q);
    forall r: nat | r < |t.readers|
      ensures ReaderOk(t, t.readers[r])
    {
      assert ReaderOk(s, s.readers[r]);
    }
  }

  lemma ScanInv(s: State, a: ScanAct)
    requires Inv(s) && CanScan(s, a)
    ensures Inv(Next(s, ScanStep(a)))
  {
    var t, w := AfterScan(s, a), s.writer.value.(scan := Scanned(s, a));
    var u := s.(writer := Some(w));
    ScanKeeps(s, a);
    WriterFrame(s, u);
    if a.ScanEnd? {
      ScanEndReaders(s);
      ScanEndRest(u, t);
    } else {
      assert t == u;
    }
    PagesScanned(s, t, w);
    ScanSame(s, t, w, w);
    hide InvRest, PagesOk, ScanOk, ReadersOk, OldestOk, Fresh, Scanned;
  }

  lemma PagesScanned(s: State, t: State, w: Writer)
    requires |s.metas| == 2 && s.writer.Some? && t == s.(pgoldest := t.pgoldest, writer := Some(w))
    requires w == s.writer.value.(scan := w.scan) && PagesOk(s, s.writer.value)
    ensures PagesOk(t, w)
  {
    hide Conserved, Live;
    SameLive(s, t);
  }

  /** Only the readers depend on what is cached. */
  lemma ScanEndRest(u: State, t: State)
    requires InvRest(u) && t == u.(pgoldest := t.pgoldest) && ReadersOk(t) && OldestOk(t)
    ensures InvRest(t)
  {
    SameLive(u, t);
    assert DurableOk(t);
    hide ReadersOk, OldestOk, DurableOk, Accounted, Live;
    assert Newest(t) == Newest(u);
    forall snap | Live(t, snap)
      ensures SnapshotOk(t, snap)
    {
      assert SnapshotOk(u, snap);
    }
  }

  /** The heart of the protocol: pages of a record that the cached me_pgoldest
      allows to be consumed are in no live snapshot. */
  lemma ConsumedFresh(s: State, w: Writer, k: TxnId, p: Pgno)
    requires InvRest(s) && !Committing(s)
    requires w.ledger.records == s.metas[s.txnid % 2].records
    requires Listed(w.ledger.records, k, p) && k < Oldest(s, w.process)
    ensures Fresh(s, p)
  {
    forall snap | Live(s, snap)
      ensures p !in snap.used
    {
      if r: nat :| At(s, r, Active(snap)) {
        assert ReaderOk(s, s.readers[r]);
        assert k <= snap.id;
      } else {
        assert Newest(s).id == s.txnid && s.metas[(s.txnid + 1) % 2].id + 1 == s.txnid;
      }
    }
  }

  /** A page beyond the newest snapshot's end is in no live snapshot. */
  lemma NewFresh(s: State, p: Pgno)
    requires InvRest(s) && Newest(s).next <= p
    ensures Fresh(s, p)
  {
    forall snap | Live(s, snap)
      ensures p !in snap.used
    {
      assert SnapshotOk(s, snap);
    }
  }

  /** mdb_page_alloc hands out only pages that no live snapshot holds. */
  lemma GivenFresh(s: State, op: Op, p: Pgno)
    requires Inv(s) && InPhase(s, Working) && MayDo(s, s.writer.value, op)
    requires p in Given(s.writer.value.ledger, op)
    ensures Fresh(s, p)
  {
    if op.TakeNew? {
      NewFresh(s, p);
    }
  }

  lemma PageOpPages(s: State, op: Op, c: Content)
    requires Inv(s) && InPhase(s, Working) && MayDo(s, s.writer.value, op)
    ensures PagesOk(s, WriterDo(s.writer.value, op, c))
  {
    var w := s.writer.value;
    var w' := WriterDo(w, op, c);
    DoConserves(w.ledger, op);
    forall p | p in w'.own || p in w'.ledger.head
      ensures Fresh(s, p)
    {
      if p in Given(w.ledger, op) {
        GivenFresh(s, op, p);
      } else if op.Consume? && p in w.ledger.records[op.key] {
        ConsumedFresh(s, w, op.key, p);
      }
    }
    if op.Release? {
      forall p | p in w'.ledger.loose ensures p in w'.own { LooseStay(w.ledger, op, p); }
    }
  }

  lemma LooseStay(l: Ledger, op: Op, p: Pgno)
    requires Conserved(l) && op.Release? && Can(l, op) && p in l.loose
    ensures p !in op.pages
  {
    assert Has(l, InLoose, p) && (p in l.used ==> Has(l, InTree, p));
  }

  lemma SpillPages(s: State, p: Pgno)
    requires Inv(s) && |s.metas| == 2 && CanWork(s, Spill(p))
    ensures PagesOk(AfterWork(s, Spill(p)), Worked(s, Spill(p)))
    ensures forall q :: q in Spilled(s, p) ==> Fresh(s, q)
  {
    hide InvRest, PagesOk, ScanOk, Fresh, Written;
    var t, w := AfterWork(s, Spill(p)), s.writer.value;
    assert t.cache == s.cache[p := w.own[p]];
    PagesWritten(s, t, w, Worked(s, Spill(p)), p);
  }

  lemma PagesWritten(s: State, t: State, w: Writer, w': Writer, p: Pgno)
    requires |s.metas| == 2 && t.metas == s.metas && t.readers == s.readers && t.txnid == s.txnid
    requires PagesOk(s, w) && p in w.own && t.cache == s.cache[p := w.own[p]] && w' == w.(mem := w.mem - {p})
    ensures PagesOk(t, w') && Fresh(s, p)
  {
    SameLive(s, t);
    hide Conserved, Live, Fresh;
  }

  /** What is read back from the map is what was spilled. */
  lemma UnspillReads(s: State, p: Pgno)
    requires Inv(s) && CanWork(s, Unspill(p))
    ensures Worked(s, Unspill(p)).own == s.writer.value.own
  {
  }

  lemma WorkPages(s: State, a: WorkAct)
    requires Inv(s) && CanWork(s, a) && !a.Spill?
    ensures PagesOk(s, Worked(s, a))
  {
    if a.PageOp? {
      PageOpPages(s, a.op, a.content);
    } else if a.Unspill? {
      UnspillReads(s, a.page);
    }
  }

  lemma WorkInv(s: State, a: WorkAct)
    requires Inv(s) && CanWork(s, a)
    ensures Inv(Next(s, WorkStep(a)))
  {
    if a.Spill? {
      SpillInv(s, a.page);
    } else {
      hide InvRest;
      var t := AfterWork(s, a);
      WorkedScan(s, a);
      ScanSame(s, t, s.writer.value, Worked(s, a));
      WorkPages(s, a);
      WriterFrame(s, t);
      PagesSame(s, t, Worked(s, a));
      hide InvRest, PagesOk, ScanOk, Worked, Fresh, CanWork;
    }
  }

  lemma SpillInv(s: State, p: Pgno)
    requires Inv(s) && CanWork(s, Spill(p))
    ensures Inv(Next(s, WorkStep(Spill(p))))
  {
    var t := AfterWork(s, Spill(p));
    WorkedScan(s, Spill(p));
    ScanSame(s, t, s.writer.value, Worked(s, Spill(p)));
    SpillPages(s, p);
    WritesFrame(s, t, Spilled(s, p));
    hide InvRest, PagesOk, ScanOk, Worked, Fresh, Spilled, Written;
  }

  lemma WorkedScan(s: State, a: WorkAct)
    requires CanWork(s, a)
    ensures var w := s.writer.value; Worked(s, a).scan == w.scan && Worked(s, a).phase == w.phase == Working
  {
  }

  // ---- commit --------------------------------------------------------------

  lemma SaveRecs(s: State, saved: map<TxnId, set<Pgno>>)
    requires Inv(s) && CanCommit(s, Save(saved))
    ensures var w := s.writer.value; RecsOk(s, w, CommittedRecords(w.ledger, w.id, saved))
  {
    var w := s.writer.value;
    var base := s.metas[s.txnid % 2];
    assert Live(s, base);
    assert SnapshotOk(s, base);
    SavedAccounted(w.ledger, w.id, saved);
    var recs := CommittedRecords(w.ledger, w.id, saved);
    hide LiveOk, DurableOk, CacheOk, ReadersOk, OldestOk, Accounted, Conserved, Live, Fresh, ScanOk;
    forall k, p | Listed(recs, k, p)
      ensures k == w.id || Fresh(s, p) || Listed(base.records, k, p)
    {
      if k != w.id && k in saved { assert Listed(saved, k, p); }
    }
  }

  lemma SaveInv(s: State, saved: map<TxnId, set<Pgno>>)
    requires Inv(s) && CanCommit(s, Save(saved))
    ensures Inv(Next(s, CommitStep(Save(saved))))
  {
    var t, w := Committed(s, Save(saved)), s.writer.value;
    SaveRecs(s, saved);
    WriterFrame(s, t);
    PagesPhase(s, t, w, w.(phase := t.writer.value.phase));
    RecsSame(s, t, w, t.writer.value, t.writer.value.phase.recs);
    hide InvRest, PagesOk, RecsOk, Fresh, Saves, CommittedRecords;
  }

  lemma PagesPhase(s: State, t: State, w: Writer, w': Writer)
    requires |s.metas| == 2 && t.metas == s.metas && t.readers == s.readers && t.txnid == s.txnid && t.cache == s.cache
    requires PagesOk(s, w) && w' == w.(phase := w'.phase)
    ensures PagesOk(t, w')
  {
    hide Conserved, Live;
    SameLive(s, t);
  }

  lemma FlushInv(s: State)
    requires Inv(s) && CanCommit(s, Flush)
    ensures Inv(Next(s, CommitStep(Flush)))
  {
    var t, w := Committed(s, Flush), s.writer.value;
    FlushFresh(s);
    WritesFrame(s, t, FlushWrites(w));
    FlushPages(s);
    RecsSame(s, t, w, t.writer.value, w.phase.recs);
    hide InvRest, PagesOk, RecsOk, Fresh, FlushWrites, Written;
  }

  lemma FlushFresh(s: State)
    requires Inv(s) && CanCommit(s, Flush)
    ensures forall p :: p in FlushWrites(s.writer.value) ==> Fresh(s, p)
  {
    hide InvRest, RecsOk, Fresh, Conserved;
  }

  lemma FlushPages(s: State)
    requires Inv(s) && CanCommit(s, Flush)
    ensures var t := Committed(s, Flush); PagesOk(t, t.writer.value) && t.writer.value.mem !! t.writer.value.ledger.used
  {
    var t, w := Committed(s, Flush), s.writer.value;
    SameLive(s, t);
    LooseApart(w.ledger);
    hide MetasOk, LiveOk, DurableOk, CacheOk, RecordsOk, ReadersOk, OldestOk, RecsOk, Conserved, Live, Written;
  }

  lemma LooseApart(l: Ledger)
    requires Conserved(l)
    ensures l.loose !! l.used
  {
    forall p | p in l.loose
      ensures p !in l.used
    {
      assert Has(l, InLoose, p) && (p in l.used ==> Has(l, InTree, p));
    }
  }

  lemma SyncSnapshots(s: State)
    requires Inv(s) && CanCommit(s, Sync)
    ensures var t := Committed(s, Sync); LiveOk(t) && DurableOk(t) && CacheOk(t)
  {
    var t := Committed(s, Sync);
    SameLive(s, t);
    hide WriterOk, Accounted, RecordsOk, ReadersOk, OldestOk;
    forall snap | Live(t, snap)
      ensures SnapshotOk(t, snap)
    {
      assert SnapshotOk(s, snap);
    }
    assert SnapshotOk(s, s.metas[0]) && SnapshotOk(s, s.metas[1]);
    assert DurableOk(t);
  }

  lemma SyncInv(s: State)
    requires Inv(s) && CanCommit(s, Sync)
    ensures Inv(Next(s, CommitStep(Sync)))
  {
    var t, w := Committed(s, Sync), s.writer.value;
    SyncSnapshots(s);
    SameLive(s, t);
    ReadersFrame(s, t);
    PagesPhase(s, t, w, t.writer.value);
    RecsSame(s, t, w, t.writer.value, w.phase.recs);
    assert Newest(t) == Newest(s);
    hide LiveOk, DurableOk, CacheOk, ReadersOk, PagesOk, RecsOk, Fresh, Live;
  }

  lemma WriterViewOnDisk(s: State, w: Writer)
    requires Inv(s) && s.writer == Some(w) && w.phase.Synced?
    ensures var base := s.metas[s.txnid % 2]; var view := WriterView(base, w);
            view.Keys == w.ledger.used
            && forall p :: p in w.ledger.used ==>
                 p in s.cache && s.cache[p] == view[p] && p in s.durable && s.durable[p] == {view[p]}
  {
    var base := s.metas[s.txnid % 2];
    assert Live(s, base);
    assert SnapshotOk(s, base);
  }

  /** Which snapshots are live after the new meta page is written. */
  lemma WriteMetaLive(s: State, snap: Snapshot)
    requires Inv(s) && CanCommit(s, WriteMeta)
    requires Live(Committed(s, WriteMeta), snap)
    ensures snap == Newest(Committed(s, WriteMeta)) || Live(s, snap)
  {
    var t := Committed(s, WriteMeta);
    if r: nat :| At(t, r, Active(snap)) {
      assert At(s, r, Active(snap));
    }
  }

  lemma WriteMetaSnapshots(s: State)
    requires Inv(s) && CanCommit(s, WriteMeta)
    ensures LiveOk(Committed(s, WriteMeta))
  {
    var t := Committed(s, WriteMeta);
    NewSnapshotOk(s);
    forall snap | Live(t, snap)
      ensures SnapshotOk(t, snap)
    {
      WriteMetaLive(s, snap);
      if snap != Newest(t) { OldSnapshotOk(s, snap); }
    }
  }

  lemma NewSnapshotOk(s: State)
    requires Inv(s) && CanCommit(s, WriteMeta)
    ensures var t := Committed(s, WriteMeta); SnapshotOk(t, Newest(t))
  {
    WriterViewOnDisk(s, s.writer.value);
    hide LiveOk, DurableOk, CacheOk, RecordsOk, ReadersOk, OldestOk, Accounted, Fresh;
  }

  lemma OldSnapshotOk(s: State, snap: Snapshot)
    requires Inv(s) && CanCommit(s, WriteMeta) && Live(s, snap)
    ensures SnapshotOk(Committed(s, WriteMeta), snap)
  {
    assert SnapshotOk(s, snap);
    hide LiveOk, DurableOk, CacheOk, RecordsOk, ReadersOk, OldestOk, Accounted, Fresh, RecsOk;
  }

  lemma WriteMetaRecords(s: State)
    requires Inv(s) && CanCommit(s, WriteMeta)
    ensures var t := Committed(s, WriteMeta); RecordsOk(t, Newest(t).records)
  {
    var t := Committed(s, WriteMeta);
    var recs := s.writer.value.phase.recs;
    WriteMetaNewest(s);
    hide Inv, Live, Listed, Committed, Newest;
    forall k: TxnId, p, snap | Listed(recs, k, p) && Live(t, snap) && k <= snap.id
      ensures p !in snap.used
    {
      WriteMetaLive(s, snap);
      if snap == Newest(t) {
        NewRecord(s, k, p);
      } else {
        OldRecord(s, snap, k, p);
      }
    }
  }

  lemma WriteMetaNewest(s: State)
    requires Inv(s) && CanCommit(s, WriteMeta)
    ensures var t, w := Committed(s, WriteMeta), s.writer.value;
            |t.metas| == 2 && Newest(t).records == w.phase.recs && Newest(t).used == w.ledger.used
  {
    hide MetasOk, LiveOk, DurableOk, CacheOk, RecordsOk, ReadersOk, OldestOk, RecsOk;
  }

  /** A page of a new record is not used by the new snapshot. */
  lemma NewRecord(s: State, k: TxnId, p: Pgno)
    requires Inv(s) && CanCommit(s, WriteMeta) && Listed(s.writer.value.phase.recs, k, p)
    ensures p !in s.writer.value.ledger.used
  {
    hide InvRest, PagesOk;
  }

  /** Nor, if it could be consumed, by an older one. */
  lemma OldRecord(s: State, snap: Snapshot, k: TxnId, p: Pgno)
    requires Inv(s) && CanCommit(s, WriteMeta) && Listed(s.writer.value.phase.recs, k, p)
    requires Live(s, snap) && k <= snap.id
    ensures p !in snap.used
  {
    assert SnapshotOk(s, snap);
    hide SnapshotOk, DurableOk, CacheOk, ReadersOk, OldestOk, Accounted, Live;
  }

  lemma WriteMetaDurable(s: State)
    requires Inv(s) && CanCommit(s, WriteMeta)
    ensures DurableOk(Committed(s, WriteMeta))
  {
    WriterViewOnDisk(s, s.writer.value);
    hide LiveOk, CacheOk, RecordsOk, ReadersOk, OldestOk, PagesOk, RecsOk;
  }

  lemma WriteMetaMetas(s: State)
    requires Inv(s) && CanCommit(s, WriteMeta)
    ensures MetasOk(Committed(s, WriteMeta))
  {
    hide LiveOk, DurableOk, CacheOk, RecordsOk, ReadersOk, OldestOk, RecsOk, Conserved, Fresh;
  }

  lemma WriteMetaInv(s: State)
    requires Inv(s) && CanCommit(s, WriteMeta)
    ensures Inv(Next(s, CommitStep(WriteMeta)))
  {
    var t := Committed(s, WriteMeta);
    WriteMetaMetas(s);
    WriteMetaDurable(s);
    WriteMetaSnapshots(s);
    WriteMetaRecords(s);
    ReadersFrame(s, t);
    CacheSame(s, t);
    hide MetasOk, LiveOk, DurableOk, CacheOk, RecordsOk, ReadersOk, RecsOk, Conserved, Fresh;
  }

  /** The writer goes away: committed if its meta page was written, else undone. */
  lemma EndInv(s: State, a: EndAct)
    requires Inv(s) && CanEnd(s, a)
    ensures Inv(Next(s, EndStep(a)))
    ensures Newest(Next(s, EndStep(a))) == Newest(s)
  {
    var t := Ended(s, a);
    SameLive(s, t);
    EndMetas(s, a);
    EndLive(s, a);
    EndReaders(s, a);
    CacheSame(s, t);
    hide MetasOk, LiveOk, CacheOk, ReadersOk, OldestOk, Live, Ended, CanEnd, WriterOk;
    EndKeeps(s, a);
  }

  lemma EndKeeps(s: State, a: EndAct)
    requires |s.metas| == 2 && CanEnd(s, a)
    ensures var t := Ended(s, a);
            t.metas == s.metas && t.durable == s.durable && t.cache == s.cache && t.readers == s.readers && t.writer.None?
  {
  }

  lemma EndMetas(s: State, a: EndAct)
    requires InvRest(s) && CanEnd(s, a) && WriterOk(s, s.writer.value)
    ensures MetasOk(Ended(s, a)) && Newest(Ended(s, a)) == Newest(s) && s.txnid <= Ended(s, a).txnid
  {
    hide LiveOk, DurableOk, CacheOk, RecordsOk, ReadersOk, OldestOk, PagesOk, RecsOk, ScanOk;
    assert s.writer.value.phase.MetaWritten? ==> s.writer.value.id == s.txnid + 1;
  }

  lemma EndLive(s: State, a: EndAct)
    requires InvRest(s) && CanEnd(s, a) && WriterOk(s, s.writer.value)
    ensures LiveOk(Ended(s, a))
  {
    var t := Ended(s, a);
    SameLive(s, t);
    EndMetas(s, a);
    hide MetasOk, DurableOk, CacheOk, RecordsOk, ReadersOk, OldestOk, WriterOk, Accounted, Live;
    forall snap | Live(t, snap)
      ensures SnapshotOk(t, snap)
    {
      assert SnapshotOk(s, snap);
    }
  }

  lemma EndReaders(s: State, a: EndAct)
    requires InvRest(s) && CanEnd(s, a) && WriterOk(s, s.writer.value)
    ensures ReadersOk(Ended(s, a)) && OldestOk(Ended(s, a))
  {
    var t := Ended(s, a);
    EndMetas(s, a);
    OldestSame(s, t);
    hide MetasOk, LiveOk, DurableOk, CacheOk, RecordsOk, WriterOk;
    forall r: nat | r < |t.readers|
      ensures ReaderOk(t, t.readers[r])
    {
      assert ReaderOk(s, s.readers[r]);
    }
  }

  lemma CrashInv(s: State, left: map<Pgno, Content>)
    requires Inv(s) && CanLeave(s, left)
    ensures Inv(Next(s, Crash(left)))
    ensures Newest(Next(s, Crash(left))) == Newest(s)
  {
    CrashMetas(s, left);
    CrashLive(s, left);
    CrashRecords(s, left);
    CrashDurable(s, left);
    hide MetasOk, LiveOk, DurableOk, RecordsOk;
  }

  lemma CrashMetas(s: State, left: map<Pgno, Content>)
    requires Inv(s)
    ensures MetasOk(Crashed(s, left)) && Newest(Crashed(s, left)) == Newest(s)
    ensures Crashed(s, left).metas == s.metas
  {
    hide LiveOk, DurableOk, CacheOk, RecordsOk, ReadersOk, OldestOk, PagesOk, RecsOk, ScanOk;
  }

  /** Only the meta pages are left. */
  lemma CrashedLive(s: State, left: map<Pgno, Content>, snap: Snapshot)
    requires |s.metas| == 2 && Live(Crashed(s, left), snap)
    ensures Live(s, snap) && (snap == s.metas[0] || snap == s.metas[1])
  {
    var t := Crashed(s, left);
    assert forall r: nat :: !At(t, r, Active(snap));
  }

  lemma CrashLive(s: State, left: map<Pgno, Content>)
    requires Inv(s) && CanLeave(s, left)
    ensures LiveOk(Crashed(s, left))
  {
    var t := Crashed(s, left);
    CrashMetas(s, left);
    forall snap | Live(t, snap)
      ensures SnapshotOk(t, snap)
    {
      CrashedLive(s, left, snap);
      assert SnapshotOk(s, snap);
      hide MetasOk, LiveOk, RecordsOk, ReadersOk, OldestOk, WriterOk, Accounted, Live;
    }
  }

  lemma CrashRecords(s: State, left: map<Pgno, Content>)
    requires Inv(s)
    ensures var t := Crashed(s, left); RecordsOk(t, Newest(t).records)
  {
    var t := Crashed(s, left);
    CrashMetas(s, left);
    forall k: TxnId, p, snap | Listed(Newest(t).records, k, p) && Live(t, snap) && k <= snap.id
      ensures p !in snap.used
    {
      CrashedLive(s, left, snap);
    }
  }

  lemma CrashDurable(s: State, left: map<Pgno, Content>)
    requires Inv(s) && CanLeave(s, left)
    ensures DurableOk(Crashed(s, left))
  {
    hide MetasOk, LiveOk, RecordsOk, ReadersOk, OldestOk, WriterOk;
  }

  /** Every step keeps the invariant. */
  lemma StepInv(s: State, e: Step)
    requires Inv(s) && Enabled(s, e)
    ensures Inv(Next(s, e))
  {
    hide Inv, Next;
    match e
    case AddSlot => AddSlotInv(s);
    case ReaderStep(r, a) => ReadInv(s, r, a);
    case Begin(process) => BeginInv(s, process);
    case ScanStep(a) => ScanInv(s, a);
    case WorkStep(a) => WorkInv(s, a);
    case CommitStep(a) =>
      match a {
        case Save(saved) => SaveInv(s, saved);
        case Flush => FlushInv(s);
        case Sync => SyncInv(s);
        case WriteMeta => WriteMetaInv(s);
      }
    case EndStep(a) => EndInv(s, a);
    case Crash(left) => CrashInv(s, left);
  }

  // ---- whole runs ----------------------------------------------------------

  /** `t` is reached from a new environment by some interleaving of steps. */
  ghost predicate RunTo(steps: seq<Step>, t: State)
    decreases |steps|
  {
    if steps == [] then t == Init()
    else
      var n := |steps| - 1;
      exists s :: RunTo(steps[..n], s) && |s.metas| == 2 && Enabled(s, steps[n]) && t == Next(s, steps[n])
  }

  lemma {:induction false} RunInv(steps: seq<Step>, t: State)
    requires RunTo(steps, t)
    ensures Inv(t)
    decreases |steps|
  {
    if steps == [] {
      InitInv();
    } else {
      var n := |steps| - 1;
      var s :| RunTo(steps[..n], s) && |s.metas| == 2 && Enabled(s, steps[n]) && t == Next(s, steps[n]);
      RunInv(steps[..n], s);
      StepInv(s, steps[n]);
    }
  }

  /** In every run, each page of a snapshot that an active reader copied, or that a
      meta page points to, still reads as it did when that snapshot was committed. */
  lemma SnapshotIsolation(steps: seq<Step>, t: State, snap: Snapshot)
    requires RunTo(steps, t) && |t.metas| == 2 && Live(t, snap)
    ensures forall p :: p in snap.used ==> p in t.cache && p in snap.view && t.cache[p] == snap.view[p]
    ensures Accounted(snap.used, snap.records, snap.next)
  {
    RunInv(steps, t);
    assert SnapshotOk(t, snap);
  }

  /** In every run, mdb_page_alloc never hands out a page that an active reader or
      one of the two latest committed snapshots holds. */
  lemma AllocationSafety(steps: seq<Step>, t: State, op: Op, c: Content, snap: Snapshot)
    requires RunTo(steps, t) && |t.metas| == 2 && Enabled(t, WorkStep(PageOp(op, c))) && Live(t, snap)
    ensures Given(t.writer.value.ledger, op) !! snap.used
  {
    RunInv(steps, t);
    forall p | p in Given(t.writer.value.ledger, op)
      ensures p !in snap.used
    {
      GivenFresh(t, op, p);
    }
  }

  /** In every run, each page is in exactly one place of the open transaction. */
  lemma ConservationInRuns(steps: seq<Step>, t: State)
    requires RunTo(steps, t) && t.writer.Some? && !t.writer.value.phase.MetaWritten?
    ensures Conserved(t.writer.value.ledger)
  {
    RunInv(steps, t);
  }

  /** Whenever the system stops, whatever subset of the unsynced writes survives,
      reopening finds the last snapshot whose meta page was written, complete. */
  lemma CrashSafety(steps: seq<Step>, t: State, left: map<Pgno, Content>)
    requires RunTo(steps, t) && |t.metas| == 2 && Enabled(t, Crash(left))
    ensures var u := Next(t, Crash(left));
            var snap := PickMeta(u);
            && snap == Newest(t) && snap.id == u.txnid >= t.txnid
            && Accounted(snap.used, snap.records, snap.next)
            && forall p :: p in snap.used ==> p in left && p in snap.view && left[p] == snap.view[p]
  {
    RunInv(steps, t);
    CrashInv(t, left);
    NewestIntact(Next(t, Crash(left)));
  }

  lemma NewestIntact(s: State)
    requires Inv(s) && s.writer.None?
    ensures var snap := PickMeta(s);
            && snap == Newest(s) && snap.id == s.txnid
            && Accounted(snap.used, snap.records, snap.next)
            && forall p :: p in snap.used ==> p in s.cache && p in snap.view && s.cache[p] == snap.view[p]
  {
    assert PickMeta(s) == Newest(s);
    assert Live(s, Newest(s));
    assert SnapshotOk(s, Newest(s));
  }

  /** A reader never sees a snapshot older than the id it published, and what it
      published was current when it re-checked. */
  lemma ReaderFreshness(steps: seq<Step>, t: State, r: nat)
    requires RunTo(steps, t) && r < |t.readers| && t.readers[r].pc.Active?
    ensures t.readers[r].slot.At? && t.readers[r].slot.id <= t.readers[r].pc.snap.id
    ensures forall q :: Oldest(t, q) <= t.readers[r].slot.id
  {
    RunInv(steps, t);
    assert ReaderOk(t, t.readers[r]);
  }
}
