/**
 Whose frames wait in the mailbox: those of the session in place and no other, and none once a Stop has returned. And
 what a Stop under way still lets the worker do.
 */
module WakeQueue {
  import opened Wrappers
  import opened WakeMailbox
  import opened WakeWorker

  /** The generation of the last Start whose mailbox has been cleared. */
  predicate Settled(s: State) {
    0 < s.starts == |s.startGen| && !s.control.SinkSet? && !s.control.StartIssued?
  }

  function LastGen(s: State): nat
    requires Settled(s)
  {
    s.startGen[s.starts - 1]
  }

  /** The mutex has one holder, and it is the submitter that stands inside. */
  predicate QueueMutex(s: State) {
    && (s.queueHolder.Some? ==> s.queueHolder.value < |s.submitters|)
    && forall i | 0 <= i < |s.submitters| :: HoldsQueue(s.submitters[i]) ==> s.queueHolder == Some(i)
  }

  /** No frame of an earlier session is in the mailbox or about to be put there. */
  predicate OwnInv(s: State) {
    Settled(s) ==>
      && (forall i | 0 <= i < |s.box| :: s.box[i].generation >= LastGen(s))
      && (forall i | 0 <= i < |s.submitters| :: s.submitters[i].Checked? ==> s.submitters[i].stamp.generation >= LastGen(s))
  }

  predicate MailInv(s: State) { QueueMutex(s) && OwnInv(s) }

  lemma MailControl(s: State, step: Step)
    requires MailInv(s) && GenInv(s) && IsControl(step)
    ensures MailInv(Next(s, step))
  {
    hide NextSubmit, NextWorker;
    var s' := Next(s, step);
    assert s'.submitters == s.submitters && s'.queueHolder == s.queueHolder;
    if s.control.StartIssued? && s'.control.StartCleared? {
      assert s'.box == [] && forall i | 0 <= i < |s.submitters| :: !s.submitters[i].Checked?;
    }
  }

  lemma MutexSubmit(s: State, id: nat)
    requires QueueMutex(s) && id < |s.submitters|
    ensures QueueMutex(NextSubmit(s, id))
  {
    hide Posted;
    var s' := NextSubmit(s, id);
    assert forall i | 0 <= i < |s.submitters| && i != id :: s'.submitters[i] == s.submitters[i];
  }

  lemma OwnSubmit(s: State, id: nat)
    requires OwnInv(s) && GenInv(s) && id < |s.submitters|
    ensures OwnInv(NextSubmit(s, id))
  {
    SubmitSame(s, id);
    var s', t := NextSubmit(s, id), s.submitters[id];
    assert forall i | 0 <= i < |s.submitters| && i != id :: s'.submitters[i] == s.submitters[i];
    assert s'.submitters[id].Checked? ==> t == s'.submitters[id] || s'.submitters[id].stamp.generation == s.generation;
    assert s'.box == s.box || (t.Checked? && s'.box == Posted(s.box, t.stamp));
    hide NextSubmit;
    assert Settled(s) ==> s.generation >= LastGen(s);
    hide GenInv;
  }

  lemma MailWorker(s: State, v: Verdict)
    requires MailInv(s)
    ensures MailInv(NextWorker(s, v))
  {
    WorkerLeaves(s, v);
    hide NextWorker, HoldsQueue;
  }

  /** What a step of the worker leaves alone. */
  lemma WorkerLeaves(s: State, v: Verdict)
    ensures
      var s' := NextWorker(s, v);
      && s'.submitters == s.submitters && s'.queueHolder == s.queueHolder && s'.starts == s.starts
      && s'.startGen == s.startGen && s'.control == s.control
      && (s'.box == s.box || (s.box != [] && s'.box == s.box[1..]))
  {
  }

  lemma MailStep(s: State, step: Step)
    requires MailInv(s) && GenInv(s)
    ensures MailInv(Next(s, step))
  {
    match step
    case SubmitCall =>
    case SubmitStep(id) =>
      if id < |s.submitters| {
        MutexSubmit(s, id);
        OwnSubmit(s, id);
      }
      hide NextSubmit, QueueMutex, OwnInv;
    case WorkerStep(v) =>
      MailWorker(s, v);
      hide NextWorker, MailInv;
    case _ =>
      MailControl(s, step);
      hide Next, MailInv;
  }

  lemma {:induction false} MailAlways(steps: seq<Step>)
    ensures MailInv(Run(steps))
    decreases |steps|
  {
    if steps != [] {
      var before := steps[..|steps| - 1];
      MailAlways(before);
      InvAlways(before);
      hide MailInv, Next, GenInv, StampsInv, WorkerInv, CallsInv, WakeInv;
      MailStep(Run(before), steps[|steps| - 1]);
    }
  }

  /**
   In every run, while detection is on: every frame in the mailbox has the generation that the last Start issued, or the
   next one when it was stamped while a Stop of that session was under way.
   */
  lemma QueuedAreOwn(steps: seq<Step>, i: nat)
    requires Run(steps).running && i < |Run(steps).box|
    ensures
      var s := Run(steps);
      && 0 < |s.startGen|
      && s.box[i].generation == s.startGen[|s.startGen| - 1] + (if s.box[i].late then 1 else 0)
      && (s.control.Idle? ==> !s.box[i].late)
  {
    var s := Run(steps);
    MailAlways(steps);
    InvAlways(steps);
    hide Run, WorkerInv, CallsInv, WakeInv;
    assert Settled(s) && s.box[i].generation >= LastGen(s);
    assert StampInv(s.generation, s.control, s.startGen, s.box[i]);
  }

  // ----- After a Stop

  /** Nothing is queued, and no submitter has seen detection on. */
  predicate Quiet(s: State) {
    && !s.running && !Starting(s.control) && s.box == []
    && forall i | 0 <= i < |s.submitters| :: !s.submitters[i].SawRunning? && !s.submitters[i].Checked?
  }

  lemma QuietStep(s: State, step: Step)
    requires Quiet(s) && !step.StartCall?
    ensures Quiet(Next(s, step))
  {
    match step
    case SubmitStep(id) =>
      if id < |s.submitters| {
        SubmitSame(s, id);
        var s' := NextSubmit(s, id);
        assert forall i | 0 <= i < |s.submitters| && i != id :: s'.submitters[i] == s.submitters[i];
      }
    case WorkerStep(v) => hide NextSubmit;
    case _ => hide NextSubmit, NextWorker;
  }

  lemma {:induction false} QuietRun(steps: seq<Step>, more: seq<Step>)
    requires Quiet(Run(steps)) && NoStart(more)
    ensures Quiet(Run(steps + more))
    decreases |more|
  {
    if more == [] {
      assert steps + more == steps;
    } else {
      var before := more[..|more| - 1];
      QuietRun(steps, before);
      RunLast(steps, more);
      hide Quiet, Next, Run;
      QuietStep(Run(steps + before), more[|more| - 1]);
    }
  }

  /** Once a Stop has cleared the mailbox it is quiet, and so it is when the Stop returns. */
  lemma {:induction false} ClearedIsQuiet(steps: seq<Step>)
    ensures Run(steps).control.StopCleared? ==> Quiet(Run(steps))
    decreases |steps|
  {
    if steps != [] {
      var before, step := steps[..|steps| - 1], steps[|steps| - 1];
      ClearedIsQuiet(before);
      MailAlways(before);
      InvAlways(before);
      var s := Run(before);
      assert Run(steps) == Next(s, step);
      hide Run, StampsInv, WorkerInv, CallsInv, WakeInv, OwnInv;
      if s.control.StopCleared? {
        hide Quiet;
        if step.StartCall? { assert Next(s, step) == s; } else { QuietStep(s, step); }
      } else if Next(s, step).control.StopCleared? {
        StopClears(s, step);
      }
    }
  }

  lemma StopClears(s: State, step: Step)
    requires GenInv(s) && QueueMutex(s) && !s.control.StopCleared? && Next(s, step).control.StopCleared?
    ensures Quiet(Next(s, step))
  {
    if step.SubmitStep? && step.id < |s.submitters| { SubmitSame(s, step.id); }
    hide NextSubmit;
  }

  /** In every run, from the return of a Stop to the next Start, the mailbox is empty. */
  lemma EmptyAfterStop(steps: seq<Step>, more: seq<Step>)
    requires StopReturns(steps) && NoStart(more)
    ensures Run(steps + more).box == [] && !Run(steps + more).running
  {
    var before := steps[..|steps| - 1];
    ClearedIsQuiet(before);
    assert Quiet(Run(steps)) by {
      hide Quiet, Next;
      QuietStep(Run(before), steps[|steps| - 1]);
    }
    QuietRun(steps, more);
  }

  // ----- While a Stop is under way

  /** Places of the worker that a check of `running` leads to. */
  predicate PastRunning(w: Worker) { w.Admitted? || w.InsideRunning? || w.ScanRunning? || w.MatchedRunning? }

  /**
   In every run, once a Stop has issued its generation: a frame that was stamped before it starts no scan, has no further
   chunk shown to the model and does not win. And once detection is off, the worker passes no further check of it.
   */
  lemma StopCutsOff(steps: seq<Step>, v: Verdict)
    ensures
      var s := Run(steps);
      var w, w' := s.worker, Next(s, WorkerStep(v)).worker;
      && (Stopping(s.control) && HasStamp(w) && !w.stamp.late ==>
            && (w'.Scanning? ==> w.Scanning? || w.Detecting?)
            && (w'.Detecting? ==> w.Detecting?)
            && (w'.Winning? ==> w.Winning?))
      && (!s.running ==> !PastRunning(w'))
  {
    InvAlways(steps);
    hide Run, NextSubmit, NextControl, GenInv, WorkerInv, CallsInv, WakeInv;
  }

  /** A frame that was taken reaches the model's mutex if and only if detection is on and no call came since its stamp. */
  lemma TakenIsAdmittedIff(s: State, v: Verdict, v': Verdict)
    requires s.worker.Got?
    ensures
      var x := s.worker.stamp;
      Next(Next(s, WorkerStep(v)), WorkerStep(v')).worker ==
      if s.running && x.generation == s.generation then Admitted(x) else Top
  {
    hide NextSubmit, NextControl;
  }
}
