/** The compacting copy: the walking thread (provider) fills one of two buffers while the
    writer thread drains the other (mdb_env_cthr_toggle and mdb_env_copythr).  Every step
    below is one access to shared state or one critical section. */
module CopyHandoff {
  import opened Words

  /** mc_wbuf[i] up to mc_wlen[i], and the overflow tail mc_over[i] up to mc_olen[i]. */
  datatype Buffer = Buffer(data: seq<Byte>, tail: seq<Byte>)

  /** The mutex, and who holds it. */
  datatype Owner = Nobody | Provider | Writer

  datatype ProviderAt =
    | Filling                              // walking the tree, without the mutex
    | Full                                 // a tail is set, the buffer has to be handed over
    | Locking(eof: bool)                   // in mdb_env_cthr_toggle, wants the mutex
    | Testing(eof: bool)                   // has handed over, tests mc_new & 2
    | Waiting(eof: bool, woken: bool)      // in pthread_cond_wait
    | Switching(eof: bool)                 // mutex released, about to flip mc_toggle
    | Finished

  datatype WriterAt =
    | Starting
    | Checking                             // tests mc_new
    | Sleeping(woken: bool)                // in pthread_cond_wait
    | Draining(left: seq<Byte>, inTail: bool)
    | Exited

  datatype State = State(
    bufs: seq<Buffer>,
    count: nat,                            // mc_new without MDB_EOF
    eof: bool,                             // MDB_EOF in mc_new
    p: nat,                                // mc_toggle
    w: nat,                                // the writer's toggle
    owner: Owner,
    provider: ProviderAt,
    writer: WriterAt,
    failed: bool,                          // mc_error
    out: seq<Byte>,                        // written to the file so far
    handed: seq<Byte>)                     // all buffers and tails handed over, in order

  datatype Step =
    | Fill(chunk: seq<Byte>)
    | SetTail(tail: seq<Byte>)
    | GiveUp                               // the provider sets mc_error
    | HandOver(last: bool)
    | Lock
    | Test
    | Wake(spurious: bool)
    | Switch
    | Start
    | Check
    | WakeWriter(spuriously: bool)
    | Write(n: nat)
    | Fail                                 // a write fails
    | Drained

  function Other(i: nat): nat { if i == 0 then 1 else 0 }

  predicate Enabled(s: State, step: Step) {
    && |s.bufs| == 2 && s.p < 2 && s.w < 2
    && match step
       case Fill(chunk) => s.provider.Filling?
       case SetTail(tail) => s.provider.Filling? && tail != []
       case GiveUp => s.provider.Filling? || s.provider.Full?
       case HandOver(last) => s.provider.Filling? || s.provider.Full?
       case Lock => s.provider.Locking? && s.owner.Nobody?
       case Test => s.provider.Testing? && s.owner.Provider?
       case Wake(spurious) => s.provider.Waiting? && s.owner.Nobody? && (s.provider.woken || spurious)
       case Switch => s.provider.Switching?
       case Start => s.writer.Starting? && s.owner.Nobody?
       case Check => s.writer.Checking? && s.owner.Writer?
       case WakeWriter(spuriously) => s.writer.Sleeping? && s.owner.Nobody? && (s.writer.woken || spuriously)
       case Write(n) => s.writer.Draining? && !s.failed && 0 < n <= |s.writer.left|
       case Fail => s.writer.Draining? && !s.failed && s.writer.left != []
       case Drained => s.writer.Draining? && s.owner.Writer? && s.count > 0 && (s.writer.left == [] || s.failed)
  }

  /** pthread_cond_signal reaches the other thread if it waits. */
  function SignalWriter(w: WriterAt): WriterAt {
    if w.Sleeping? then Sleeping(true) else w
  }

  function SignalProvider(p: ProviderAt): ProviderAt {
    if p.Waiting? then Waiting(p.eof, true) else p
  }

  function Content(b: Buffer): seq<Byte> { b.data + b.tail }

  /** The buffer is counted, or the end announced, and the writer signalled. */
  function AfterLock(s: State): State
    requires s.provider.Locking? && s.p < |s.bufs|
  {
    s.(owner := Provider, count := s.count + 1, eof := s.eof || s.provider.eof, handed := s.handed + Content(s.bufs[s.p]),
       writer := SignalWriter(s.writer), provider := Testing(s.provider.eof))
  }

  function ProviderStep(s: State, step: Step): State
    requires Enabled(s, step)
  {
    match step
    case Fill(chunk) => s.(bufs := s.bufs[s.p := s.bufs[s.p].(data := s.bufs[s.p].data + chunk)])
    case SetTail(tail) => s.(bufs := s.bufs[s.p := s.bufs[s.p].(tail := tail)], provider := Full)
    case GiveUp => s.(failed := true)
    case HandOver(last) => s.(provider := Locking(last))
    case Lock => AfterLock(s)
    case Test =>
      if s.count / 2 % 2 == 1 then s.(owner := Nobody, provider := Waiting(s.provider.eof, false))
      else s.(owner := Nobody, provider := Switching(s.provider.eof))
    case Wake(_) => s.(owner := Provider, provider := Testing(s.provider.eof))
    case Switch =>
      s.(p := Other(s.p), bufs := s.bufs[Other(s.p) := s.bufs[Other(s.p)].(data := [])],
         provider := if s.provider.eof then Finished else Filling)
    case _ => s
  }

  function AfterWrite(s: State, n: nat): State
    requires s.writer.Draining? && n <= |s.writer.left|
  {
    s.(out := s.out + s.writer.left[..n], writer := Draining(s.writer.left[n..], s.writer.inTail))
  }

  function WriterStep(s: State, step: Step): State
    requires Enabled(s, step)
  {
    match step
    case Start => s.(owner := Writer, writer := Checking)
    case Check =>
      if s.count == 0 && !s.eof then s.(owner := Nobody, writer := Sleeping(false))
      else if s.count == 0 then s.(owner := Nobody, writer := Exited)
      else s.(writer := Draining(s.bufs[s.w].data, false))
    case WakeWriter(_) => s.(owner := Writer, writer := Checking)
    case Write(n) => AfterWrite(s, n)
    case Fail => s.(failed := true)
    case Drained =>
      if s.bufs[s.w].tail != [] then
        s.(bufs := s.bufs[s.w := s.bufs[s.w].(tail := [])], writer := Draining(s.bufs[s.w].tail, true))
      else
        s.(bufs := s.bufs[s.w := s.bufs[s.w].(data := [])], w := Other(s.w), count := s.count - 1,
           provider := SignalProvider(s.provider), writer := Checking)
    case _ => s
  }

  predicate ByProvider(step: Step) {
    step.Fill? || step.SetTail? || step.GiveUp? || step.HandOver? || step.Lock? || step.Test? || step.Wake? || step.Switch?
  }

  function Next(s: State, step: Step): State
    requires Enabled(s, step)
  {
    if ByProvider(step) then ProviderStep(s, step) else WriterStep(s, step)
  }

  function Initial(): State {
    State([Buffer([], []), Buffer([], [])], 0, false, 0, 0, Nobody, Filling, Starting, false, [], [])
  }

  // ---- the invariant ------------------------------------------------------------------------------

  /** Between handing a buffer over and switching to the other one. */
  predicate Handing(p: ProviderAt) { p.Testing? || p.Waiting? || p.Switching? }

  predicate Ended(p: ProviderAt) { p.Finished? || (Handing(p) && p.eof) }

  /** Mutex, counters and buffer numbers. */
  ghost predicate Control(s: State) {
    && |s.bufs| == 2 && s.p < 2 && s.w < 2 && s.count <= 2
    && (s.owner == Provider <==> s.provider.Testing?)
    && (s.owner == Writer <==> s.writer.Checking? || s.writer.Draining?)
    && (s.eof <==> Ended(s.provider))
    && (if Handing(s.provider) then s.p == (s.w + s.count + 1) % 2 else s.p == (s.w + s.count) % 2 && s.count <= 1)
    && (s.provider.Switching? ==> s.count <= 1)
    && (s.writer.Draining? ==> s.count >= 1)
    && (s.writer.Exited? ==> s.count == 0 && s.eof)
    && (s.provider.Waiting? && !s.provider.woken ==> s.count == 2)
    && (s.writer.Sleeping? && !s.writer.woken ==> s.count == 0 && !s.eof)
  }

  /** Buffer i is handed over and not yet returned. */
  predicate Outstanding(s: State, i: nat) {
    (s.count >= 1 && i == s.w) || (s.count == 2 && i == Other(s.w))
  }

  /** What is left of the buffer at the front. */
  function Front(s: State): seq<Byte>
    requires |s.bufs| == 2 && s.w < 2
  {
    if s.writer.Draining? then s.writer.left + (if s.writer.inTail then [] else s.bufs[s.w].tail)
    else Content(s.bufs[s.w])
  }

  function Pending(s: State): seq<Byte>
    requires |s.bufs| == 2 && s.w < 2
  {
    if s.count == 0 then [] else if s.count == 1 then Front(s) else Front(s) + Content(s.bufs[Other(s.w)])
  }

  /** Nothing is lost, doubled or reordered between handing over and writing. */
  ghost predicate Bytes(s: State)
    requires |s.bufs| == 2 && s.w < 2
  {
    !s.failed ==> s.out + Pending(s) == s.handed
  }

  /** A buffer that is not outstanding has no tail, unless the provider has just set it. */
  ghost predicate Tails(s: State)
    requires |s.bufs| == 2 && s.w < 2
  {
    && (forall i :: 0 <= i < 2 && !Outstanding(s, i) ==> s.bufs[i].tail == [] || (i == s.p && (s.provider.Full? || s.provider.Locking?)))
    && (s.writer.Draining? && s.writer.inTail ==> s.bufs[s.w].tail == [])
  }

  ghost predicate Data(s: State)
    requires |s.bufs| == 2 && s.w < 2
  {
    Bytes(s) && Tails(s)
  }

  ghost predicate Inv(s: State) {
    Control(s) && Data(s)
  }

  predicate Walking(step: Step) { step.Fill? || step.SetTail? || step.GiveUp? || step.HandOver? }

  predicate Toggling(step: Step) { step.Lock? || step.Test? || step.Wake? || step.Switch? }

  predicate Dozing(step: Step) { step.Start? || step.Check? || step.WakeWriter? }

  lemma ControlWalking(s: State, step: Step)
    requires Control(s) && Enabled(s, step) && Walking(step)
    ensures Control(Next(s, step))
  {
  }

  lemma ControlToggling(s: State, step: Step)
    requires Control(s) && Enabled(s, step) && Toggling(step)
    ensures Control(Next(s, step))
  {
  }

  lemma ControlDozing(s: State, step: Step)
    requires Control(s) && Enabled(s, step) && Dozing(step)
    ensures Control(Next(s, step))
  {
  }

  lemma ControlDraining(s: State, step: Step)
    requires Control(s) && Enabled(s, step) && !ByProvider(step) && !Dozing(step)
    ensures Control(Next(s, step))
  {
  }

  lemma ControlStep(s: State, step: Step)
    requires Control(s) && Enabled(s, step)
    ensures Control(Next(s, step))
  {
    hide Control, Enabled, Next;
    if Walking(step) { ControlWalking(s, step); }
    else if Toggling(step) { ControlToggling(s, step); }
    else if Dozing(step) { ControlDozing(s, step); }
    else { ControlDraining(s, step); }
  }

  /** Steps that touch neither a buffer nor what is pending. */
  predicate Quiet(step: Step) {
    step.GiveUp? || step.HandOver? || step.Test? || step.Wake? || step.Start? || step.WakeWriter? || step.Fail?
  }

  lemma DataSame(s: State, t: State)
    requires |s.bufs| == 2 && s.w < 2 && s.p < 2 && Data(s)
    requires t.bufs == s.bufs && t.count == s.count && t.w == s.w && t.p == s.p && t.out == s.out && t.handed == s.handed
    requires s.failed ==> t.failed
    requires t.writer == s.writer || (!t.writer.Draining? && !s.writer.Draining?)
    requires s.provider.Full? || s.provider.Locking? ==> t.provider.Full? || t.provider.Locking?
    ensures Data(t)
  {
    assert Front(t) == Front(s);
    forall i | 0 <= i < 2 ensures Outstanding(t, i) == Outstanding(s, i) {
    }
  }

  lemma DataQuiet(s: State, step: Step)
    requires Inv(s) && Enabled(s, step) && Quiet(step)
    ensures Data(Next(s, step))
  {
    hide Data, Control;
    DataSame(s, Next(s, step));
  }

  /** The provider works on a buffer that is not outstanding. */
  lemma DataFill(s: State, step: Step)
    requires Inv(s) && Enabled(s, step) && (step.Fill? || step.SetTail? || step.Switch?)
    ensures Data(Next(s, step))
  {
    var t := Next(s, step);
    var i := if step.Switch? then Other(s.p) else s.p;
    assert !Outstanding(s, i);
    assert t.bufs[Other(i)] == s.bufs[Other(i)];
    assert Pending(t) == Pending(s);
  }

  lemma DataLock(s: State)
    requires Inv(s) && Enabled(s, Lock)
    ensures Data(Next(s, Lock))
  {
    assert Next(s, Lock) == AfterLock(s);
    assert s.p == (s.w + s.count) % 2 && s.count <= 1 && (s.writer.Draining? ==> s.count >= 1);
    hide Next, Enabled, Control;
    BytesLock(s);
    TailsLock(s);
  }

  lemma BytesLock(s: State)
    requires |s.bufs| == 2 && s.w < 2 && s.provider.Locking? && s.count <= 1 && s.p == (s.w + s.count) % 2
    requires s.writer.Draining? ==> s.count >= 1
    requires Bytes(s)
    ensures Bytes(AfterLock(s))
  {
    hide Content;
    var c := Content(s.bufs[s.p]);
    assert Pending(AfterLock(s)) == Pending(s) + c;
    Associate(s.out, Pending(s), c);
  }

  lemma TailsLock(s: State)
    requires |s.bufs| == 2 && s.w < 2 && s.provider.Locking? && s.count <= 1 && s.p == (s.w + s.count) % 2
    requires s.writer.Draining? ==> s.count >= 1
    requires Tails(s)
    ensures Tails(AfterLock(s))
  {
    hide Content;
    forall i | 0 <= i < 2 && !Outstanding(AfterLock(s), i) ensures s.bufs[i].tail == [] {
      assert !Outstanding(s, i);
    }
  }

  lemma DataCheck(s: State)
    requires Inv(s) && Enabled(s, Check)
    ensures Data(Next(s, Check))
  {
    assert Pending(Next(s, Check)) == Pending(s);
  }

  lemma DataWrite(s: State, n: nat)
    requires Inv(s) && Enabled(s, Write(n))
    ensures Data(Next(s, Write(n)))
  {
    assert Next(s, Write(n)) == AfterWrite(s, n);
    assert s.count == 1 || s.count == 2;
    hide Next, Enabled, Control;
    BytesWrite(s, n);
    TailsWrite(s, n);
  }

  lemma BytesWrite(s: State, n: nat)
    requires |s.bufs| == 2 && s.w < 2 && s.writer.Draining? && n <= |s.writer.left| && (s.count == 1 || s.count == 2)
    requires Bytes(s)
    ensures Bytes(AfterWrite(s, n))
  {
    hide Content;
    var left, rest := s.writer.left, if s.writer.inTail then [] else s.bufs[s.w].tail;
    if s.count == 1 {
      Moved(s.out, left, n, rest);
    } else {
      var more := Content(s.bufs[Other(s.w)]);
      Moved(s.out, left, n, rest + more);
      Associate(left, rest, more);
      Associate(left[n..], rest, more);
    }
  }

  lemma TailsWrite(s: State, n: nat)
    requires |s.bufs| == 2 && s.w < 2 && s.writer.Draining? && n <= |s.writer.left|
    requires Tails(s)
    ensures Tails(AfterWrite(s, n))
  {
    forall i | 0 <= i < 2 ensures Outstanding(AfterWrite(s, n), i) == Outstanding(s, i) {
    }
  }

  lemma {:induction false} Moved(out: seq<Byte>, left: seq<Byte>, n: nat, rest: seq<Byte>)
    requires n <= |left|
    ensures out + left[..n] + (left[n..] + rest) == out + (left + rest)
  {
    assert left == left[..n] + left[n..];
  }

  lemma DataDrained(s: State)
    requires Inv(s) && Enabled(s, Drained)
    ensures Data(Next(s, Drained))
  {
    var t := Next(s, Drained);
    if s.bufs[s.w].tail != [] {
      assert !s.failed ==> Front(t) == Front(s);
      assert t.bufs[Other(s.w)] == s.bufs[Other(s.w)];
      assert !s.failed ==> Pending(t) == Pending(s);
    } else {
      assert !s.failed ==> Front(s) == [];
      assert t.bufs[Other(s.w)] == s.bufs[Other(s.w)];
      assert !s.failed ==> Pending(t) == Pending(s);
    }
  }

  /** Every step keeps the invariant. */
  lemma StepInv(s: State, step: Step)
    requires Inv(s) && Enabled(s, step)
    ensures Inv(Next(s, step))
  {
    hide Next, Control, Data, Enabled;
    ControlStep(s, step);
    match step
    case Fill(_) => DataFill(s, step);
    case SetTail(_) => DataFill(s, step);
    case Switch => DataFill(s, step);
    case Lock => DataLock(s);
    case Check => DataCheck(s);
    case Write(n) => DataWrite(s, n);
    case Drained => DataDrained(s);
    case _ => DataQuiet(s, step);
  }

  // ---- runs ------------------------------------------------------------------------------------------

  ghost predicate Run(s: State, steps: seq<Step>, t: State)
    decreases |steps|
  {
    if steps == [] then t == s
    else Enabled(s, steps[0]) && Run(Next(s, steps[0]), steps[1..], t)
  }

  lemma {:induction false} RunInv(s: State, steps: seq<Step>, t: State)
    requires Inv(s) && Run(s, steps, t)
    ensures Inv(t)
    decreases |steps|
  {
    if steps == [] {
    } else {
      StepInv(s, steps[0]);
      RunInv(Next(s, steps[0]), steps[1..], t);
    }
  }

  lemma InitialInv()
    ensures Inv(Initial())
  {
  }

  /** In every interleaving the provider works on a buffer the writer does not have, and
      the low part of mc_new is 0, 1 or 2. */
  lemma {:induction false} BuffersApart(steps: seq<Step>, t: State)
    requires Run(Initial(), steps, t)
    ensures t.count <= 2
    ensures t.provider.Filling? || t.provider.Full? ==> !Outstanding(t, t.p)
    ensures t.provider.Switching? ==> !Outstanding(t, Other(t.p))
    ensures t.writer.Draining? ==> Outstanding(t, t.w)
  {
    InitialInv();
    RunInv(Initial(), steps, t);
  }

  /** The step a thread would take next without a spurious wakeup. */
  function ProviderMove(s: State): Step {
    match s.provider
    case Filling => HandOver(true)
    case Full => HandOver(false)
    case Locking(_) => Lock
    case Testing(_) => Test
    case Waiting(_, _) => Wake(false)
    case _ => Switch
  }

  function WriterMove(s: State): Step {
    match s.writer
    case Starting => Start
    case Checking => Check
    case Sleeping(_) => WakeWriter(false)
    case Draining(left, _) => if left == [] || s.failed then Drained else Write(1)
    case Exited => Drained
  }

  /** The threads never both wait for the other's signal, and until both are done one of
      them can go on without a spurious wakeup. */
  lemma {:induction false} NoDeadlock(steps: seq<Step>, t: State)
    requires Run(Initial(), steps, t)
    ensures !(t.provider.Waiting? && !t.provider.woken && t.writer.Sleeping? && !t.writer.woken)
    ensures (t.provider.Finished? && t.writer.Exited?) || Enabled(t, ProviderMove(t)) || Enabled(t, WriterMove(t))
  {
    hide Data, Enabled, Run;
    InitialInv();
    RunInv(Initial(), steps, t);
    Progress(t);
  }

  lemma Progress(t: State)
    requires Control(t)
    ensures (t.provider.Finished? && t.writer.Exited?) || Enabled(t, ProviderMove(t)) || Enabled(t, WriterMove(t))
  {
    match t.owner
    case Provider => assert Enabled(t, ProviderMove(t));
    case Writer => assert Enabled(t, WriterMove(t));
    case Nobody =>
      if t.provider.Waiting? && !t.provider.woken {
        assert t.writer.Starting? || t.writer.Sleeping?;
      }
  }

  /** Without errors the file holds exactly the buffers and tails handed over, in order,
      once the writer thread has ended; before that, a prefix of them. */
  lemma {:induction false} AllWritten(steps: seq<Step>, t: State)
    requires Run(Initial(), steps, t) && !t.failed
    ensures t.out <= t.handed
    ensures t.writer.Exited? ==> t.out == t.handed
  {
    InitialInv();
    RunInv(Initial(), steps, t);
    assert t.out + Pending(t) == t.handed;
    assert t.out + [] == t.out;
  }

  // ---- what the provider put in ------------------------------------------------------------------------

  /** The bytes the provider's own steps hand over, starting from a buffer that holds
      `data` and `tail`; the writer's steps do not count. */
  function Given(steps: seq<Step>, data: seq<Byte>, tail: seq<Byte>): seq<Byte>
    decreases |steps|
  {
    if steps == [] then []
    else match steps[0]
      case Fill(chunk) => Given(steps[1..], data + chunk, tail)
      case SetTail(t) => Given(steps[1..], data, t)
      case Lock => data + tail + Given(steps[1..], [], [])
      case _ => Given(steps[1..], data, tail)
  }

  predicate HasBuffer(p: ProviderAt) { p.Filling? || p.Full? || p.Locking? }

  predicate Linked(s: State, data: seq<Byte>, tail: seq<Byte>) {
    |s.bufs| == 2 && s.p < 2 && if HasBuffer(s.provider) then s.bufs[s.p] == Buffer(data, tail) else data == [] && tail == []
  }

  function DataAfter(step: Step, data: seq<Byte>): seq<Byte> {
    if step.Fill? then data + step.chunk else if step.Lock? then [] else data
  }

  function TailAfter(step: Step, tail: seq<Byte>): seq<Byte> {
    if step.SetTail? then step.tail else if step.Lock? then [] else tail
  }

  lemma LinkedWalking(s: State, step: Step, data: seq<Byte>, tail: seq<Byte>)
    requires Enabled(s, step) && Walking(step) && Linked(s, data, tail)
    ensures Linked(Next(s, step), DataAfter(step, data), TailAfter(step, tail))
  {
  }

  lemma LinkedToggling(s: State, step: Step, data: seq<Byte>, tail: seq<Byte>)
    requires Inv(s) && Enabled(s, step) && Toggling(step) && Linked(s, data, tail)
    ensures Linked(Next(s, step), DataAfter(step, data), TailAfter(step, tail))
  {
    if step.Switch? {
      LinkedSwitch(s);
    } else {
      hide Inv, Enabled, Next, Linked;
      LinkedWaiting(s, step, data, tail);
    }
  }

  lemma LinkedWaiting(s: State, step: Step, data: seq<Byte>, tail: seq<Byte>)
    requires Enabled(s, step) && Toggling(step) && !step.Switch? && Linked(s, data, tail)
    ensures Linked(Next(s, step), DataAfter(step, data), TailAfter(step, tail))
  {
    var t := Next(s, step);
    assert !HasBuffer(t.provider) && t.bufs == s.bufs && t.p == s.p;
    assert step.Lock? || !HasBuffer(s.provider);
    hide Next, Enabled;
  }

  lemma LinkedStep(s: State, step: Step, data: seq<Byte>, tail: seq<Byte>)
    requires Inv(s) && Enabled(s, step) && Linked(s, data, tail)
    ensures Linked(Next(s, step), DataAfter(step, data), TailAfter(step, tail))
  {
    hide Inv, Enabled, Linked, Next;
    if Walking(step) { LinkedWalking(s, step, data, tail); }
    else if Toggling(step) { LinkedToggling(s, step, data, tail); }
    else { LinkedWriter(s, step, data, tail); }
  }

  lemma LinkedSwitch(s: State)
    requires Inv(s) && Enabled(s, Switch)
    ensures Linked(Next(s, Switch), [], [])
  {
    assert !Outstanding(s, Other(s.p));
  }

  lemma LinkedWriter(s: State, step: Step, data: seq<Byte>, tail: seq<Byte>)
    requires Inv(s) && Enabled(s, step) && !ByProvider(step) && Linked(s, data, tail)
    ensures Linked(Next(s, step), data, tail)
  {
    assert HasBuffer(s.provider) ==> !Outstanding(s, s.p);
    assert step.Drained? ==> Outstanding(s, s.w);
    hide Data, Control;
  }

  lemma HandedStep(s: State, step: Step, data: seq<Byte>, tail: seq<Byte>)
    requires Enabled(s, step) && Linked(s, data, tail)
    ensures Next(s, step).handed == s.handed + HandedBy(step, data, tail)
  {
  }

  lemma {:induction false} HandedFrom(s: State, steps: seq<Step>, t: State, data: seq<Byte>, tail: seq<Byte>)
    requires Inv(s) && Run(s, steps, t) && Linked(s, data, tail)
    ensures t.handed == s.handed + Given(steps, data, tail)
    decreases |steps|
  {
    if steps != [] {
      hide Inv, Next, Enabled, Linked, Given, Run, DataAfter, TailAfter;
      var step := steps[0];
      RunFirst(s, steps, t);
      StepInv(s, step);
      LinkedStep(s, step, data, tail);
      HandedStep(s, step, data, tail);
      HandedFrom(Next(s, step), steps[1..], t, DataAfter(step, data), TailAfter(step, tail));
      Unrolled(steps, data, tail);
      Associate(s.handed, HandedBy(step, data, tail), Given(steps[1..], DataAfter(step, data), TailAfter(step, tail)));
    } else {
      assert s.handed + [] == s.handed;
    }
  }

  function HandedBy(step: Step, data: seq<Byte>, tail: seq<Byte>): seq<Byte> {
    if step.Lock? then data + tail else []
  }

  lemma {:induction false} Associate(a: seq<Byte>, b: seq<Byte>, c: seq<Byte>)
    ensures a + (b + c) == (a + b) + c
  {
  }

  lemma {:induction false} RunFirst(s: State, steps: seq<Step>, t: State)
    requires Run(s, steps, t) && steps != []
    ensures Enabled(s, steps[0]) && Run(Next(s, steps[0]), steps[1..], t)
  {
  }

  lemma {:induction false} Unrolled(steps: seq<Step>, data: seq<Byte>, tail: seq<Byte>)
    requires steps != []
    ensures Given(steps, data, tail)
         == HandedBy(steps[0], data, tail) + Given(steps[1..], DataAfter(steps[0], data), TailAfter(steps[0], tail))
  {
  }

  /** Without errors the bytes in the file at the end are exactly what the provider put into
      the buffers, in the order it did, whatever the interleaving was. */
  lemma {:induction false} CopyIsFaithful(steps: seq<Step>, t: State)
    requires Run(Initial(), steps, t) && t.writer.Exited? && !t.failed
    ensures t.out == Given(steps, [], [])
  {
    InitialInv();
    AllWritten(steps, t);
    HandedFrom(Initial(), steps, t, [], []);
  }
}
