/**
 Whether the codec can be released under a writer. The finalizer's comment says that no writer remains
 once it may run. That rests on the port not being reopened while a thread stands between learning
 that the task is gone and entering the finalizer: an output task in its tail, or a closer that has
 finished waiting. The claim is proved here for runs that reopen with nobody there, together with the
 order of writes; that neither holds otherwise is in `PlaybackReopen`.
 */
module PlaybackWriter {
  import opened Wrappers
  import opened PcmFormat
  import opened PlaybackPort
  import opened PlaybackRuns

  predicate InTail(pc: Pc) { pc.Tail? || pc.Finalizing? }

  predicate NobodyInTail(s: System) { forall i | 0 <= i < |s.threads| :: !InTail(s.threads[i].pc) }

  /** Whether the step opens a closed port. */
  predicate Reopens(l: Limits, s: System, step: Step) {
    step.OpenCall? && !s.port.closing && !s.port.open && Opens(l, step.formatMs) && step.outcome.Succeeds?
  }

  /** A run in which the port is opened only while nobody stands in the tail. */
  ghost predicate Disciplined(l: Limits, steps: seq<Step>) {
    steps == [] ||
    var before := steps[..|steps| - 1];
    && Disciplined(l, before)
    && (Reopens(l, Run(l, before), steps[|steps| - 1]) ==> NobodyInTail(Run(l, before)))
  }

  /** A codec handle is about to be released, or was released in a cleanup under way, while a task writes. */
  predicate ReleasedUnderWriter(s: System) {
    exists i, j | 0 <= i < |s.threads| && 0 <= j < |s.threads| ::
      InCleanup(s.threads[i].pc) && s.threads[j].pc.Writing?
  }

  /** What a live task, a thread in the tail and the record of writes look like in disciplined runs. */
  predicate TaskInv(p: Port, opens: nat, popped: seq<nat>, written: seq<nat>, pc: Pc) {
    && (IsLive(pc) ==> p.task && p.open && !p.cleanup)
    && (InTail(pc) ==> pc.seen == opens && !p.task)
    && (pc.Holding? ==> popped == written + [pc.frame])
  }

  predicate WriterInv(s: System) {
    && (forall i | 0 <= i < |s.threads| :: TaskInv(s.port, |s.handles|, s.popped, s.written, s.threads[i].pc))
    && (forall i, j | 0 <= i < |s.threads| && 0 <= j < |s.threads| && IsLive(s.threads[i].pc) && IsLive(s.threads[j].pc) ::
          i == j)
    && ((forall i | 0 <= i < |s.threads| :: !s.threads[i].pc.Holding?) ==> s.popped == s.written)
    && (s.port.cleanup ==> !s.port.task)
  }

  lemma WriterOpen(l: Limits, s: System, step: Step)
    requires WriterInv(s) && CloseInv(s) && step.OpenCall?
    requires Reopens(l, s, step) ==> NobodyInTail(s)
    ensures WriterInv(NextOpen(l, s, step.formatMs, step.outcome))
  {
    hide Opens;
    var s' := NextOpen(l, s, step.formatMs, step.outcome);
    if Reopens(l, s, step) {
      assert forall i | 0 <= i < |s.threads| :: !IsLive(s.threads[i].pc);
    }
    assert (forall i | 0 <= i < |s'.threads| :: !s'.threads[i].pc.Holding?) ==>
        forall i | 0 <= i < |s.threads| :: s'.threads[i] == s.threads[i];
  }

  /** Steps in which no live task takes part: threads may be added, and threads that are not live may move. */
  lemma WriterQuiet(s: System, s': System)
    requires WriterInv(s) && |s.threads| <= |s'.threads|
    requires forall i | 0 <= i < |s.threads| ::
               s'.threads[i].pc == s.threads[i].pc || (!IsLive(s.threads[i].pc) && !IsLive(s'.threads[i].pc))
    requires forall i | |s.threads| <= i < |s'.threads| :: !IsLive(s'.threads[i].pc)
    requires s'.popped == s.popped && s'.written == s.written && (s'.port.cleanup ==> !s'.port.task)
    requires forall i | 0 <= i < |s'.threads| ::
               TaskInv(s'.port, |s'.handles|, s'.popped, s'.written, s'.threads[i].pc)
    ensures WriterInv(s')
  {
    if forall i | 0 <= i < |s'.threads| :: !s'.threads[i].pc.Holding? {
      forall i | 0 <= i < |s.threads| ensures !s.threads[i].pc.Holding? {
        assert s'.threads[i].pc == s.threads[i].pc || !IsLive(s.threads[i].pc);
      }
    }
    forall i, j | 0 <= i < |s'.threads| && 0 <= j < |s'.threads| && IsLive(s'.threads[i].pc) && IsLive(s'.threads[j].pc)
      ensures i == j
    {
      assert i < |s.threads| && j < |s.threads|;
      assert s'.threads[i].pc == s.threads[i].pc && s'.threads[j].pc == s.threads[j].pc;
    }
  }

  lemma TaskInvKept(s: System)
    requires WriterInv(s)
    ensures forall i | 0 <= i < |s.threads| :: TaskInv(s.port, |s.handles|, s.popped, s.written, s.threads[i].pc)
    ensures s.port.cleanup ==> !s.port.task
  {
  }

  lemma WriterCall(l: Limits, s: System, step: Step)
    requires WriterInv(s) && IsCall(step) && !step.OpenCall?
    ensures WriterInv(NextCall(l, s, step))
  {
    TaskInvKept(s);
    hide Playable, WriterInv;
    WriterQuiet(s, NextCall(l, s, step));
  }

  lemma WriterPush(l: Limits, s: System, id: nat)
    requires WriterInv(s) && id < |s.threads|
    ensures WriterInv(NextPush(l, s, id))
  {
    TaskInvKept(s);
    hide PcmDurationMs, WriterInv;
    WriterQuiet(s, NextPush(l, s, id));
  }

  lemma WriterWait(s: System, step: Step)
    requires step.SeeTaskGone? || step.SeeClosed? || step.GiveUp?
    requires WriterInv(s) && step.id < |s.threads|
    ensures WriterInv(NextWait(s, step))
  {
    TaskInvKept(s);
    hide WriterInv;
    WriterQuiet(s, NextWait(s, step));
  }

  lemma WriterCleanup(s: System, step: Step)
    requires step.BeginCleanup? || step.Release? || step.FinishCleanup?
    requires WriterInv(s) && CloseInv(s) && step.id < |s.threads|
    ensures WriterInv(NextCleanup(s, step))
  {
    TaskInvKept(s);
    CloserOf(s, step.id);
    hide WriterInv, CloseInv;
    WriterQuiet(s, NextCleanup(s, step));
  }

  /** A live task is the only one: no other thread is live. */
  lemma OnlyLive(s: System, id: nat)
    requires WriterInv(s) && id < |s.threads| && IsLive(s.threads[id].pc)
    ensures forall i | 0 <= i < |s.threads| && i != id :: !IsLive(s.threads[i].pc)
    ensures !s.threads[id].pc.Holding? ==> s.popped == s.written
    ensures s.threads[id].pc.Holding? ==> s.popped == s.written + [s.threads[id].pc.frame]
    ensures s.port.task && s.port.open && !s.port.cleanup
    ensures forall i | 0 <= i < |s.threads| :: !InTail(s.threads[i].pc)
  {
  }

  /** The live task moves while every other thread stays. */
  lemma WriterLive(s: System, id: nat, s': System)
    requires id < |s.threads| == |s'.threads|
    requires forall i | 0 <= i < |s.threads| && i != id ::
               s'.threads[i] == s.threads[i] && !IsLive(s.threads[i].pc) && !InTail(s.threads[i].pc)
    requires TaskInv(s'.port, |s'.handles|, s'.popped, s'.written, s'.threads[id].pc)
    requires s'.threads[id].pc.Holding? || s'.popped == s'.written
    requires !s'.port.cleanup
    ensures WriterInv(s')
  {
    forall i | 0 <= i < |s'.threads|
      ensures TaskInv(s'.port, |s'.handles|, s'.popped, s'.written, s'.threads[i].pc)
    {
      if i != id { assert s'.threads[i] == s.threads[i]; }
    }
    assert forall i | 0 <= i < |s'.threads| && i != id :: s'.threads[i] == s.threads[i];
  }

  lemma WriterTask(s: System, step: Step)
    requires step.Pop? || step.BeginWrite? || step.EndWrite? || step.MarkDone? || step.ReadClosing?
    requires WriterInv(s) && step.id < |s.threads|
    ensures WriterInv(NextTask(s, step))
  {
    hide SumMs;
    TaskInvKept(s);
    if IsLive(s.threads[step.id].pc) {
      OnlyLive(s, step.id);
      hide WriterInv;
      if NextTask(s, step) != s {
        WriterLive(s, step.id, NextTask(s, step));
      }
    } else {
      hide WriterInv;
      WriterQuiet(s, NextTask(s, step));
    }
  }

  lemma WriterStep(l: Limits, s: System, step: Step)
    requires WriterInv(s) && CloseInv(s)
    requires Reopens(l, s, step) ==> NobodyInTail(s)
    ensures WriterInv(Next(l, s, step))
  {
    hide WriterInv, CloseInv, NextOpen, NextCall, NextPush, NextTask, NextWait, NextCleanup;
    if step.OpenCall? {
      WriterOpen(l, s, step);
    } else if IsCall(step) {
      WriterCall(l, s, step);
    } else if step.id < |s.threads| {
      if step.PushWake? {
        WriterPush(l, s, step.id);
      } else if step.Pop? || step.BeginWrite? || step.EndWrite? || step.MarkDone? || step.ReadClosing? {
        WriterTask(s, step);
      } else if step.SeeTaskGone? || step.SeeClosed? || step.GiveUp? {
        WriterWait(s, step);
      } else {
        WriterCleanup(s, step);
      }
    }
  }

  lemma {:induction false} WriterInvAlways(l: Limits, steps: seq<Step>)
    requires Disciplined(l, steps)
    ensures WriterInv(Run(l, steps))
    decreases |steps|
  {
    if steps != [] {
      var before := steps[..|steps| - 1];
      WriterInvAlways(l, before);
      InvAlways(l, before);
      hide WriterInv, CloseInv, QueueInv, Next, Reopens;
      WriterStep(l, Run(l, before), steps[|steps| - 1]);
    }
  }

  /**
   In every disciplined run: nobody is writing, or may still write, while a cleanup is under way; at
   most one task is live; and the frames reach the codec in the order they were accepted, each once,
   the last popped one at most still on its way.
   */
  lemma WritersAreOrderly(l: Limits, steps: seq<Step>)
    requires Disciplined(l, steps)
    ensures !ReleasedUnderWriter(Run(l, steps))
    ensures Increasing(Run(l, steps).written)
    ensures var s := Run(l, steps); s.popped == s.written || exists k :: s.popped == s.written + [k]
  {
    WriterInvAlways(l, steps);
    InvAlways(l, steps);
    var s := Run(l, steps);
    hide Run, SumMs, PcmDurationMs, Disciplined;
    assert s.popped == s.written || exists k :: s.popped == s.written + [k] by {
      if j: nat :| j < |s.threads| && s.threads[j].pc.Holding? {
        assert s.popped == s.written + [s.threads[j].pc.frame];
      }
    }
    PrefixIncreasing(s.written, s.popped);
  }

  lemma PrefixIncreasing(a: seq<nat>, b: seq<nat>)
    requires Increasing(b) && |a| <= |b| && a == b[..|a|]
    ensures Increasing(a)
  {
    assert forall i | 0 <= i < |a| :: a[i] == b[i];
  }
}
