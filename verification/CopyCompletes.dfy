/** The compacting copy comes to its end, and errors are not forgotten. */
module CopyCompletes {
  import opened Words
  import opened CopyHandoff

  // ---- a measure that every step of work lowers ------------------------------------------------------

  function ProviderRank(p: ProviderAt): nat {
    match p
    case Finished => 0
    case Switching(eof) => if eof then 10 else 360
    case Waiting(eof, woken) => (if eof then 20 else 370) + if woken then 20 else 0
    case Testing(eof) => if eof then 30 else 380
    case Locking(eof) => if eof then 340 else 700
    case Filling => 350
    case Full => 710
  }

  function WriterRank(w: WriterAt): nat {
    match w
    case Exited => 0
    case Sleeping(woken) => if woken then 11 else 1
    case Draining(_, inTail) => if inTail then 6 else 8
    case Checking => 10
    case Starting => 12
  }

  function Rank(s: State): nat {
    ProviderRank(s.provider) + 100 * s.count + WriterRank(s.writer)
  }

  function BytesLeft(s: State): nat {
    if s.writer.Draining? then |s.writer.left| else 0
  }

  /** Not a step of walking the tree, of giving up, or of a wakeup without a signal. */
  predicate Works(s: State, step: Step) {
    match step
    case Fill(_) => false
    case SetTail(_) => false
    case GiveUp => false
    case Fail => false
    case HandOver(last) => last || s.provider.Full?
    case Wake(_) => s.provider.Waiting? && s.provider.woken
    case WakeWriter(_) => s.writer.Sleeping? && s.writer.woken
    case _ => true
  }

  lemma ProviderWorks(s: State, step: Step)
    requires Control(s) && Enabled(s, step) && Works(s, step) && ByProvider(step)
    ensures Rank(Next(s, step)) < Rank(s)
  {
    match step
    case Lock => assert SignalWriter(s.writer) == s.writer || s.writer.Sleeping?;
    case _ =>
  }

  lemma WriterWorks(s: State, step: Step)
    requires Control(s) && Enabled(s, step) && Works(s, step) && !ByProvider(step)
    requires s.writer.Draining? && s.writer.inTail ==> s.bufs[s.w].tail == []
    ensures Rank(Next(s, step)) < Rank(s) || (Rank(Next(s, step)) == Rank(s) && BytesLeft(Next(s, step)) < BytesLeft(s))
  {
  }

  /** However the threads take turns, work comes to an end: no thread can go round in
      circles. */
  lemma WorkLowers(s: State, step: Step)
    requires Inv(s) && Enabled(s, step) && Works(s, step)
    ensures Rank(Next(s, step)) < Rank(s) || (Rank(Next(s, step)) == Rank(s) && BytesLeft(Next(s, step)) < BytesLeft(s))
  {
    hide Bytes;
    if ByProvider(step) {
      ProviderWorks(s, step);
    } else {
      WriterWorks(s, step);
    }
  }

  // ---- to the end --------------------------------------------------------------------------------

  predicate Done(s: State) { s.provider.Finished? && s.writer.Exited? }

  lemma MoveWorks(s: State)
    requires Control(s) && !Done(s)
    ensures (Enabled(s, ProviderMove(s)) && Works(s, ProviderMove(s))) || (Enabled(s, WriterMove(s)) && Works(s, WriterMove(s)))
  {
    Progress(s);
  }

  lemma {:induction false} RunOne(s: State, step: Step, steps: seq<Step>, t: State)
    requires Enabled(s, step) && Run(Next(s, step), steps, t)
    ensures Run(s, [step] + steps, t)
  {
    assert ([step] + steps)[1..] == steps;
  }

  /** From every state the copy can be brought to its end. */
  lemma {:induction false} Finish(s: State) returns (steps: seq<Step>, t: State)
    requires Inv(s)
    ensures Run(s, steps, t) && Done(t)
    decreases Rank(s), BytesLeft(s)
  {
    if Done(s) {
      steps, t := [], s;
    } else {
      hide Data, Enabled, Next, Rank, BytesLeft, Done;
      assert Control(s);
      hide Inv;
      MoveWorks(s);
      var step := if Enabled(s, ProviderMove(s)) && Works(s, ProviderMove(s)) then ProviderMove(s) else WriterMove(s);
      StepInv(s, step);
      WorkLowers(s, step);
      var rest;
      rest, t := Finish(Next(s, step));
      RunOne(s, step, rest, t);
      steps := [step] + rest;
    }
  }

  lemma {:induction false} Completes(steps: seq<Step>, t: State) returns (more: seq<Step>, u: State)
    requires Run(Initial(), steps, t)
    ensures Run(t, more, u) && Done(u)
  {
    InitialInv();
    RunInv(Initial(), steps, t);
    more, u := Finish(t);
  }

  // ---- errors --------------------------------------------------------------------------------------

  predicate IsError(step: Step) { step.Fail? || step.GiveUp? }

  /** mc_error is set exactly when a thread has met an error. */
  lemma {:induction false} ErrorsKept(s: State, steps: seq<Step>, t: State)
    requires Run(s, steps, t)
    ensures t.failed <==> s.failed || exists i :: 0 <= i < |steps| && IsError(steps[i])
    decreases |steps|
  {
    if steps == [] {
    } else {
      var u := Next(s, steps[0]);
      ErrorsKept(u, steps[1..], t);
      assert u.failed <==> s.failed || IsError(steps[0]);
      if t.failed && !u.failed {
        var i :| 0 <= i < |steps[1..]| && IsError(steps[1..][i]);
        assert IsError(steps[i + 1]);
      }
      if exists i :: 0 <= i < |steps| && IsError(steps[i]) {
        var i :| 0 <= i < |steps| && IsError(steps[i]);
        if i > 0 {
          assert steps[1..][i - 1] == steps[i];
        }
      }
    }
  }
}
