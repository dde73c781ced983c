/**
 The playback port under any number of threads: callers that open, push, flush and close, and the
 output tasks that opens create. Every region that holds the mutex is one step, as are the two
 actions on the codec outside it (a write and a release). A wait may end whenever its condition
 holds, and a bounded wait may give up whenever it does not.
 */
module PlaybackRuns {
  import opened Wrappers
  import opened PcmFormat
  import opened PlaybackPort
  import Resampler

  /**
   Where a thread stands. Output tasks: `Looping`, `Holding` and `Writing` the accepted frame number
   `frame`, `Exiting` before the handle is cleared, `Tail` after it. Closers wait for the task or for
   another closer. `Finalizing` stands before the finalizer's first region; `seen` is the number of
   opens at the moment the thread learnt that the task handle was clear.
   */
  datatype Pc =
    | Pushing(f: Frame)
    | Looping | Holding(frame: nat) | Writing(frame: nat) | Exiting | Tail(seen: nat)
    | AwaitTask | AwaitClosed
    | Finalizing(seen: nat) | AwaitCleanup | Releasing(handle: Option<nat>) | Cleaning
    | Returned(ok: bool)

  /** `opens` is the number of opens when the call or the task began; `closer` marks a close call. */
  datatype Thread = Thread(pc: Pc, opens: nat, closer: bool)

  /**
   The port, its threads and a record of the run: the frames accepted, `base` of which have left the
   queue, the numbers of those popped and of those whose write began, the codec handle of each open,
   how often each handle was released, and the thread inside the cleanup section.
   */
  datatype System = System(port: Port, threads: seq<Thread>, accepted: seq<Frame>, base: nat,
                           popped: seq<nat>, written: seq<nat>, handles: seq<nat>, releases: seq<nat>,
                           cleaner: Option<nat>)

  datatype OpenOutcome = CodecFails | TaskFails | Succeeds

  datatype Step =
    | OpenCall(formatMs: nat, outcome: OpenOutcome)
    | PushCall(f: Frame)
    | FlushCall
    | CloseCall
    | PushWake(id: nat)
    | Pop(id: nat) | BeginWrite(id: nat) | EndWrite(id: nat) | MarkDone(id: nat) | ReadClosing(id: nat)
    | SeeTaskGone(id: nat) | SeeClosed(id: nat) | GiveUp(id: nat)
    | BeginCleanup(id: nat) | Release(id: nat) | FinishCleanup(id: nat)

  const INITIAL := System(CLOSED, [], [], 0, [], [], [], [], None)

  predicate IsCall(step: Step) { step.OpenCall? || step.PushCall? || step.FlushCall? || step.CloseCall? }

  /** The effect of a step; one that is not possible now has none. */
  function Next(l: Limits, s: System, step: Step): System {
    if step.OpenCall? then NextOpen(l, s, step.formatMs, step.outcome)
    else if IsCall(step) then NextCall(l, s, step)
    else if step.id >= |s.threads| then s
    else if step.PushWake? then NextPush(l, s, step.id)
    else if step.Pop? || step.BeginWrite? || step.EndWrite? || step.MarkDone? || step.ReadClosing? then NextTask(s, step)
    else if step.SeeTaskGone? || step.SeeClosed? || step.GiveUp? then NextWait(s, step)
    else NextCleanup(s, step)
  }

  function NextOpen(l: Limits, s: System, formatMs: nat, outcome: OpenOutcome): System {
    if s.port.closing || s.port.open || !Opens(l, formatMs) || outcome.CodecFails? then s
    else
      var h := |s.releases|;
      if outcome.TaskFails? then s.(port := OpenUndone(s.port), releases := s.releases + [1])
      else s.(port := Opened(s.port, h), releases := s.releases + [0], handles := s.handles + [h],
              threads := s.threads + [Thread(Looping, |s.handles| + 1, false)])
  }

  function NextCall(l: Limits, s: System, step: Step): System
    requires IsCall(step) && !step.OpenCall?
  {
    match step
    case PushCall(f) =>
      if Accepting(s.port) && Playable(f, l.channels) then Spawn(s, Thread(Pushing(f), |s.handles|, false)) else s
    case FlushCall => s.(port := Flushed(s.port), base := |s.accepted|)
    case CloseCall =>
      if s.port.closing then Spawn(s, Thread(AwaitClosed, |s.handles|, true))
      else if !s.port.open then Spawn(s, Thread(Returned(true), |s.handles|, true))
      else Spawn(s, Thread(AwaitTask, |s.handles|, true)).(port := CloseBegun(s.port), base := |s.accepted|)
  }

  function Spawn(s: System, t: Thread): System { s.(threads := s.threads + [t]) }

  function Move(s: System, id: nat, pc: Pc): System
    requires id < |s.threads|
  {
    s.(threads := s.threads[id := s.threads[id].(pc := pc)])
  }

  function NextPush(l: Limits, s: System, id: nat): System
    requires id < |s.threads|
  {
    var pc := s.threads[id].pc;
    if !pc.Pushing? || !PushWakes(l, s.port, PcmDurationMs(pc.f)) then s
    else if !Accepting(s.port) || !s.port.running then Move(s, id, Returned(false))
    else Move(s, id, Returned(true)).(port := Enqueued(s.port, pc.f), accepted := s.accepted + [pc.f])
  }

  function NextTask(s: System, step: Step): System
    requires step.Pop? || step.BeginWrite? || step.EndWrite? || step.MarkDone? || step.ReadClosing?
    requires step.id < |s.threads|
  {
    var id, pc := step.id, s.threads[step.id].pc;
    if step.Pop? && pc.Looping? && s.port.queue != [] then
      Move(s, id, Holding(s.base)).(port := Dequeued(s.port), base := s.base + 1, popped := s.popped + [s.base])
    else if step.Pop? && pc.Looping? && !s.port.running then Move(s, id, Exiting)
    else if step.BeginWrite? && pc.Holding? then Move(s, id, Writing(pc.frame)).(written := s.written + [pc.frame])
    else if step.EndWrite? && pc.Writing? then Move(s, id, Looping)
    else if step.MarkDone? && pc.Exiting? then Move(s, id, Tail(|s.handles|)).(port := s.port.(task := false))
    else if step.ReadClosing? && pc.Tail? then
      Move(s, id, if s.port.closing then Finalizing(pc.seen) else Returned(true))
    else s
  }

  function NextWait(s: System, step: Step): System
    requires step.SeeTaskGone? || step.SeeClosed? || step.GiveUp?
    requires step.id < |s.threads|
  {
    var id, pc := step.id, s.threads[step.id].pc;
    if step.SeeTaskGone? && pc.AwaitTask? && !s.port.task then Move(s, id, Finalizing(|s.handles|))
    else if step.SeeClosed? && (pc.AwaitClosed? || pc.AwaitCleanup?) && !s.port.closing then Move(s, id, Returned(true))
    else if step.GiveUp? && pc.AwaitTask? && s.port.task then Move(s, id, Returned(false))
    else if step.GiveUp? && (pc.AwaitClosed? || pc.AwaitCleanup?) && s.port.closing then Move(s, id, Returned(false))
    else s
  }

  function NextCleanup(s: System, step: Step): System
    requires step.BeginCleanup? || step.Release? || step.FinishCleanup?
    requires step.id < |s.threads|
  {
    var id, pc := step.id, s.threads[step.id].pc;
    if step.BeginCleanup? && pc.Finalizing? then
      if !s.port.closing then Move(s, id, Returned(true))
      else if s.port.cleanup then Move(s, id, AwaitCleanup)
      else Move(s, id, Releasing(s.port.codec)).(port := Detached(s.port), cleaner := Some(id))
    else if step.Release? && pc.Releasing? then
      Move(s, id, Cleaning).(releases := if pc.handle.Some? then Counted(s.releases, pc.handle.value) else s.releases)
    else if step.FinishCleanup? && pc.Cleaning? then
      Move(s, id, Returned(true)).(port := Cleaned(s.port), cleaner := None)
    else s
  }

  function Counted(releases: seq<nat>, h: nat): seq<nat> {
    if h < |releases| then releases[h := releases[h] + 1] else releases
  }

  function Run(l: Limits, steps: seq<Step>): System {
    if steps == [] then INITIAL else Next(l, Run(l, steps[..|steps| - 1]), steps[|steps| - 1])
  }

  // ----- The queue

  predicate Increasing(s: seq<nat>) { forall i, j | 0 <= i < j < |s| :: s[i] < s[j] }

  /** A producer's frame and a task's frame number are what they should be. */
  predicate PcInv(l: Limits, base: nat, pc: Pc) {
    && (pc.Pushing? ==> Playable(pc.f, l.channels))
    && (pc.Holding? || pc.Writing? ==> pc.frame < base)
  }

  predicate QueueInv(l: Limits, s: System) {
    && Accounted(l, s.port)
    && s.base <= |s.accepted| && s.port.queue == s.accepted[s.base..]
    && Increasing(s.popped) && (forall i | 0 <= i < |s.popped| :: s.popped[i] < s.base)
    && (forall k | 0 <= k < |s.accepted| ::
          Playable(s.accepted[k], l.channels) && PcmDurationMs(s.accepted[k]) <= l.latencyMs)
    && (forall i | 0 <= i < |s.threads| :: PcInv(l, s.base, s.threads[i].pc))
    && (s.port.closing || !s.port.open ==> s.port.queue == [])
  }

  lemma IncreasingAppend(s: seq<nat>, k: nat)
    requires Increasing(s) && forall i | 0 <= i < |s| :: s[i] < k
    ensures Increasing(s + [k])
  {
  }

  lemma QueueOpen(l: Limits, s: System, formatMs: nat, outcome: OpenOutcome)
    requires QueueInv(l, s)
    ensures QueueInv(l, NextOpen(l, s, formatMs, outcome))
  {
    hide Playable, PcmDurationMs, SumMs, Opens;
  }

  lemma QueueCall(l: Limits, s: System, step: Step)
    requires QueueInv(l, s) && IsCall(step) && !step.OpenCall?
    ensures QueueInv(l, NextCall(l, s, step))
  {
    hide Playable, PcmDurationMs;
  }

  lemma QueuePush(l: Limits, s: System, id: nat)
    requires QueueInv(l, s) && id < |s.threads|
    ensures QueueInv(l, NextPush(l, s, id))
  {
    hide Playable, PcmDurationMs, SumMs;
    var pc := s.threads[id].pc;
    if pc.Pushing? {
      SumMsAppend(s.port.queue, pc.f);
      assert (s.accepted + [pc.f])[s.base..] == s.accepted[s.base..] + [pc.f];
    }
  }

  lemma QueuePop(l: Limits, s: System, id: nat)
    requires QueueInv(l, s) && id < |s.threads| && s.port.queue != []
    requires s.threads[id].pc.Looping?
    ensures QueueInv(l, NextTask(s, Pop(id)))
    ensures PcmDurationMs(s.port.queue[0]) <= s.port.queuedMs
  {
    hide Playable, PcmDurationMs;
    assert SumMs(s.port.queue) == PcmDurationMs(s.port.queue[0]) + SumMs(s.port.queue[1..]);
    IncreasingAppend(s.popped, s.base);
    assert s.accepted[s.base..][1..] == s.accepted[s.base + 1..];
    hide SumMs;
  }

  lemma QueueTask(l: Limits, s: System, step: Step)
    requires QueueInv(l, s)
    requires step.Pop? || step.BeginWrite? || step.EndWrite? || step.MarkDone? || step.ReadClosing?
    requires step.id < |s.threads|
    ensures QueueInv(l, NextTask(s, step))
  {
    hide Playable, PcmDurationMs, SumMs;
    if step.Pop? && s.threads[step.id].pc.Looping? && s.port.queue != [] {
      QueuePop(l, s, step.id);
    }
  }

  lemma QueueWait(l: Limits, s: System, step: Step)
    requires step.SeeTaskGone? || step.SeeClosed? || step.GiveUp?
    requires QueueInv(l, s) && step.id < |s.threads|
    ensures QueueInv(l, NextWait(s, step))
  {
    hide Playable, PcmDurationMs, SumMs;
  }

  lemma QueueCleanup(l: Limits, s: System, step: Step)
    requires step.BeginCleanup? || step.Release? || step.FinishCleanup?
    requires QueueInv(l, s) && CloseInv(s) && step.id < |s.threads|
    ensures QueueInv(l, NextCleanup(s, step))
  {
    hide Playable, PcmDurationMs, SumMs;
  }

  // ----- The close

  /** An output task that has not cleared its handle yet, and so may still use the codec. */
  predicate IsLive(pc: Pc) { pc.Looping? || pc.Holding? || pc.Writing? || pc.Exiting? }

  predicate InCleanup(pc: Pc) { pc.Releasing? || pc.Cleaning? }

  /** Whether a handle is still to be released: attached to the port, or detached by the thread inside cleanup. */
  predicate Owed(s: System, h: nat) {
    || s.port.codec == Some(h)
    || (s.cleaner.Some? && s.cleaner.value < |s.threads| && s.threads[s.cleaner.value].pc == Releasing(Some(h)))
  }

  /** A close call under way for the current open finds it closing or closed; one that returned Ok finds it closed. */
  predicate CloserInv(p: Port, opens: nat, t: Thread) {
    && t.opens <= opens
    && (t.closer ==> !t.pc.Pushing? && !t.pc.Tail? && !IsLive(t.pc))
    && (t.closer && t.opens == opens && t.pc != Returned(false) ==>
          !p.open || (p.closing && !t.pc.Returned?))
  }

  ghost predicate CloseInv(s: System) {
    && (s.port.cleanup <==> s.cleaner.Some?) && (s.port.cleanup ==> s.port.closing) && (s.port.closing ==> s.port.open)
    && (s.cleaner.Some? ==> s.cleaner.value < |s.threads| && s.port.codec == None)
    && (forall i | 0 <= i < |s.threads| :: InCleanup(s.threads[i].pc) <==> s.cleaner == Some(i))
    && (forall h | 0 <= h < |s.releases| :: s.releases[h] == if Owed(s, h) then 0 else 1)
    && (forall h: nat | Owed(s, h) :: h < |s.releases| && s.handles != [] && s.handles[|s.handles| - 1] == h)
    && (forall k | 0 <= k < |s.handles| :: s.handles[k] < |s.releases|)
    && Increasing(s.handles)
    && (!s.port.open ==> s.port.codec == None)
    && (s.port.open ==> s.handles != [])
    && (forall i | 0 <= i < |s.threads| :: CloserInv(s.port, |s.handles|, s.threads[i]))
  }

  lemma CloseOpen(l: Limits, s: System, formatMs: nat, outcome: OpenOutcome)
    requires CloseInv(s)
    ensures CloseInv(NextOpen(l, s, formatMs, outcome))
  {
    hide Opens;
    var s' := NextOpen(l, s, formatMs, outcome);
    assert s.port.open || forall h: nat :: !Owed(s, h);
    IncreasingAppend(s.handles, |s.releases|);
  }

  lemma CloseCallKept(l: Limits, s: System, step: Step)
    requires CloseInv(s) && IsCall(step) && !step.OpenCall?
    ensures CloseInv(NextCall(l, s, step))
  {
    hide Playable;
    var s' := NextCall(l, s, step);
    assert forall h: nat :: Owed(s', h) <==> Owed(s, h);
  }

  /** Moving a thread that is and stays outside cleanup changes nothing the close depends on. */
  lemma CloseMove(s: System, id: nat, pc: Pc)
    requires CloseInv(s) && id < |s.threads| && !InCleanup(s.threads[id].pc) && !InCleanup(pc)
    requires CloserInv(s.port, |s.handles|, s.threads[id].(pc := pc))
    ensures CloseInv(Move(s, id, pc))
  {
    var s' := Move(s, id, pc);
    assert forall h: nat :: Owed(s', h) <==> Owed(s, h);
  }

  lemma CloseOther(s: System, s': System)
    requires CloseInv(s)
    requires s'.port == s.port.(queue := s'.port.queue, queuedMs := s'.port.queuedMs, task := s'.port.task)
    requires s'.threads == s.threads && s'.cleaner == s.cleaner && s'.handles == s.handles && s'.releases == s.releases
    ensures CloseInv(s')
  {
    assert forall h: nat :: Owed(s', h) <==> Owed(s, h);
  }

  lemma CloserOf(s: System, id: nat)
    requires CloseInv(s) && id < |s.threads|
    ensures CloserInv(s.port, |s.handles|, s.threads[id])
    ensures InCleanup(s.threads[id].pc) <==> s.cleaner == Some(id)
  {
  }

  lemma ClosePush(l: Limits, s: System, id: nat)
    requires CloseInv(s) && id < |s.threads|
    ensures CloseInv(NextPush(l, s, id))
  {
    hide PcmDurationMs, SumMs, CloseInv;
    var pc := s.threads[id].pc;
    CloserOf(s, id);
    if pc.Pushing? && PushWakes(l, s.port, PcmDurationMs(pc.f)) {
      var ok := Accepting(s.port) && s.port.running;
      CloseMove(s, id, Returned(ok));
      CloseOther(Move(s, id, Returned(ok)), NextPush(l, s, id));
    }
  }

  lemma CloseTask(s: System, step: Step)
    requires step.Pop? || step.BeginWrite? || step.EndWrite? || step.MarkDone? || step.ReadClosing?
    requires CloseInv(s) && step.id < |s.threads|
    ensures CloseInv(NextTask(s, step))
  {
    hide CloseInv, SumMs;
    var s', id := NextTask(s, step), step.id;
    var pc := s'.threads[id].pc;
    CloserOf(s, id);
    if s' != s {
      CloseMove(s, id, pc);
      CloseOther(Move(s, id, pc), s');
    }
  }

  lemma CloseWait(s: System, step: Step)
    requires step.SeeTaskGone? || step.SeeClosed? || step.GiveUp?
    requires CloseInv(s) && step.id < |s.threads|
    ensures CloseInv(NextWait(s, step))
  {
    hide CloseInv;
    var s', id := NextWait(s, step), step.id;
    CloserOf(s, id);
    if s' != s {
      CloseMove(s, id, s'.threads[id].pc);
    }
  }

  lemma CloseBeginCleanup(s: System, id: nat)
    requires CloseInv(s) && id < |s.threads|
    ensures CloseInv(NextCleanup(s, BeginCleanup(id)))
  {
    var s' := NextCleanup(s, BeginCleanup(id));
    if s.threads[id].pc.Finalizing? {
      if !s.port.closing || s.port.cleanup {
        CloseMove(s, id, s'.threads[id].pc);
      } else {
        assert forall h: nat :: Owed(s', h) <==> Owed(s, h);
      }
    }
  }

  lemma CloseRelease(s: System, id: nat)
    requires CloseInv(s) && id < |s.threads|
    ensures CloseInv(NextCleanup(s, Release(id)))
  {
    var s' := NextCleanup(s, Release(id));
    var pc := s.threads[id].pc;
    if pc.Releasing? {
      CloserOf(s, id);
      assert forall h: nat :: Owed(s', h) ==> false;
      assert forall h: nat :: Owed(s, h) <==> pc.handle == Some(h);
    }
  }

  lemma CloseFinish(s: System, id: nat)
    requires CloseInv(s) && id < |s.threads|
    ensures CloseInv(NextCleanup(s, FinishCleanup(id)))
  {
    var s' := NextCleanup(s, FinishCleanup(id));
    if s.threads[id].pc.Cleaning? {
      CloserOf(s, id);
      assert forall h: nat :: !Owed(s', h) && !Owed(s, h);
    }
  }

  // ----- Every run

  lemma StepKeeps(l: Limits, s: System, step: Step)
    requires QueueInv(l, s) && CloseInv(s)
    ensures QueueInv(l, Next(l, s, step)) && CloseInv(Next(l, s, step))
  {
    hide QueueInv, CloseInv, NextOpen, NextCall, NextPush, NextTask, NextWait, NextCleanup;
    if step.OpenCall? {
      QueueOpen(l, s, step.formatMs, step.outcome);
      CloseOpen(l, s, step.formatMs, step.outcome);
    } else if IsCall(step) {
      QueueCall(l, s, step);
      CloseCallKept(l, s, step);
    } else if step.id < |s.threads| {
      if step.PushWake? {
        QueuePush(l, s, step.id);
        ClosePush(l, s, step.id);
      } else if step.Pop? || step.BeginWrite? || step.EndWrite? || step.MarkDone? || step.ReadClosing? {
        QueueTask(l, s, step);
        CloseTask(s, step);
      } else if step.SeeTaskGone? || step.SeeClosed? || step.GiveUp? {
        QueueWait(l, s, step);
        CloseWait(s, step);
      } else {
        QueueCleanup(l, s, step);
        match step {
          case BeginCleanup(id) => CloseBeginCleanup(s, id);
          case Release(id) => CloseRelease(s, id);
          case FinishCleanup(id) => CloseFinish(s, id);
        }
      }
    }
  }

  lemma {:induction false} InvAlways(l: Limits, steps: seq<Step>)
    ensures QueueInv(l, Run(l, steps)) && CloseInv(Run(l, steps))
    decreases |steps|
  {
    if steps == [] {
      assert SumMs([]) == 0;
    } else {
      InvAlways(l, steps[..|steps| - 1]);
      hide QueueInv, CloseInv, Next;
      StepKeeps(l, Run(l, steps[..|steps| - 1]), steps[|steps| - 1]);
    }
  }

  /**
   In every run: the stored duration is exactly that of the queued frames, length and duration stay
   within depth and budget, the queue is the accepted frames from some point on, and the numbers of the
   popped frames increase, so frames leave in acceptance order and none leaves twice.
   */
  lemma QueueAccounted(l: Limits, steps: seq<Step>)
    ensures var s := Run(l, steps);
            && s.port.queuedMs == SumMs(s.port.queue) <= l.latencyMs && |s.port.queue| <= l.depth
            && s.base <= |s.accepted| && s.port.queue == s.accepted[s.base..]
            && Increasing(s.popped) && (forall i | 0 <= i < |s.popped| :: s.popped[i] < s.base)
  {
    hide SumMs, Run;
    InvAlways(l, steps);
  }

  /** In every run: a pop takes off exactly the frame's own duration, so the clamp at zero is never reached. */
  lemma NeverClamped(l: Limits, steps: seq<Step>)
    requires Run(l, steps).port.queue != []
    ensures var p := Run(l, steps).port;
            PcmDurationMs(p.queue[0]) <= p.queuedMs && p.queuedMs - PcmDurationMs(p.queue[0]) == Dequeued(p).queuedMs
  {
    hide Run, PcmDurationMs;
    InvAlways(l, steps);
  }

  /** In every run: a frame longer than the whole latency budget is never accepted. */
  lemma {:induction false} OverlongNeverAccepted(l: Limits, steps: seq<Step>, k: nat)
    requires k < |Run(l, steps).accepted|
    ensures PcmDurationMs(Run(l, steps).accepted[k]) <= l.latencyMs
  {
    hide Run, PcmDurationMs, SumMs;
    InvAlways(l, steps);
  }

  /** In every run: no two threads are inside the cleanup section. */
  lemma OneCleaner(l: Limits, steps: seq<Step>, i: nat, j: nat)
    requires var ts := Run(l, steps).threads;
             i < |ts| && j < |ts| && InCleanup(ts[i].pc) && InCleanup(ts[j].pc)
    ensures i == j
  {
    hide Run, SumMs, PcmDurationMs, QueueInv;
    InvAlways(l, steps);
  }

  /**
   In every run: no codec handle is released twice, and every handle is released except the one that is
   attached to the port or that the thread inside the cleanup section is about to release.
   */
  lemma ReleasedOnce(l: Limits, steps: seq<Step>, h: nat)
    requires h < |Run(l, steps).releases|
    ensures var s := Run(l, steps);
            s.releases[h] <= 1 && (s.releases[h] == 0 <==> Owed(s, h))
  {
    hide Run, SumMs, PcmDurationMs, QueueInv, Owed;
    InvAlways(l, steps);
  }

  /** In every run: a close call that returned Ok has released the handle of the open it closed, and of all before. */
  lemma ClosedMeansReleased(l: Limits, steps: seq<Step>, i: nat, k: nat)
    requires var s := Run(l, steps);
             i < |s.threads| && s.threads[i].closer && s.threads[i].pc == Returned(true) && k < s.threads[i].opens
    ensures var s := Run(l, steps);
            k < |s.handles| && s.handles[k] < |s.releases| && s.releases[s.handles[k]] == 1
  {
    hide Run, SumMs, PcmDurationMs, QueueInv;
    InvAlways(l, steps);
    var s := Run(l, steps);
    CloserOf(s, i);
    var h := s.handles[k];
    assert !Owed(s, h);
  }

  /** In every run of a mono port: whatever the writer is given resamples into the buffer reserved at open. */
  lemma AcceptedFitsScratch(l: Limits, steps: seq<Step>, k: nat, rateHz: nat, formatMs: nat)
    requires l.channels == 1 && k < |Run(l, steps).accepted|
    ensures var f := Run(l, steps).accepted[k];
            && f.format.sampleRateHz > 0
            && Resampler.DestinationSamples(Resampler.MonoSamples(f), f.format.sampleRateHz, rateHz)
               <= Resampler.ReservedSamples(rateHz, l.profileMs, formatMs, l.latencyMs)
  {
    InvAlways(l, steps);
    hide Run, PcmDurationMs, SumMs, CloseInv;
    Resampler.FitsReserved(Run(l, steps).accepted[k], rateHz, l.profileMs, formatMs, l.latencyMs);
  }

  /**
   Exactly what a waiting producer's wake-up does: it is refused on a port that is closed, closing or stopped; accepted when
   there is a free place and time within the budget; and otherwise goes on waiting, with nothing changed.
   */
  lemma PushExact(l: Limits, s: System, id: nat)
    requires id < |s.threads| && s.threads[id].pc.Pushing?
    ensures
      var f := s.threads[id].pc.f;
      var t := Next(l, s, PushWake(id));
      var p := s.port;
      if !p.open || p.closing || !p.running then
        t == s.(threads := t.threads) && t.threads[id].pc == Returned(false)
      else if |p.queue| < l.depth && p.queuedMs + PcmDurationMs(f) <= l.latencyMs then
        && t.threads[id].pc == Returned(true) && t.accepted == s.accepted + [f]
        && t.port == p.(queue := p.queue + [f], queuedMs := p.queuedMs + PcmDurationMs(f))
      else t == s
  {
    hide PcmDurationMs;
  }
}
