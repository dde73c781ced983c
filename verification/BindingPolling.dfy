/**
 The polling lease at work: the MCP worker that starts sessions, the polling task it creates
 or hands over to, rebinding from other threads, and the binding use case they all share.
 Each use-case call and each access to the lease is one step.
 */
module BindingPolling {
  import opened Wrappers
  import U = BindingUseCase
  import P = PairingController

  /** The worker between two tool calls, or inside `StartBindingPolling` for the session it just started. */
  datatype Worker =
    | Resting
    | Started(generation: nat)
    | Trying(generation: nat, observed: nat)
    | Creating(generation: nat)
    | Undoing(generation: nat)
    | Aborting(generation: nat)

  /** A polling task: at the top of its loop, with the owner generation read, after a terminal poll, about to release. */
  datatype Task = Top | Owning(owner: nat) | Checking(owner: nat) | Releasing(owner: nat)

  datatype State = State(use: U.Fields, lease: nat, worker: Worker, tasks: map<nat, Task>, nextTask: nat)

  datatype Step =
    | StartSession(minutes: int, created: P.CreateAnswer, now: P.U64, wall: P.U64)
    | Bind(user: Option<string>)
    | SetUserId(user: Option<string>)
    | LoadLease
    | SwapLease(spurious: bool)
    | CreateTask(ok: bool)
    | UndoLease
    | AbortSession
    | ReadOwner(task: nat)
    | PollSession(task: nat, pollNow: P.U64, answer: P.QueryAnswer)
    | CheckActive(task: nat)
    | ReleaseLease(task: nat)

  const INITIAL := State(U.INITIAL, 0, Resting, map[], 0)

  /** A poll result on which the task goes on polling. */
  predicate GoesOn(r: U.BindingResult) { r.state.BPending? || r.state.BWaiting? || r.state.BRetrying? }

  /** The effect of a step on the worker, the lease and the use case; a step that is not possible now has none. */
  function Next(s: State, step: Step): State {
    match step
    case StartSession(minutes, created, now, wall) =>
      if !s.worker.Resting? then s
      else
        var (f, r) := U.Step(s.use, U.Start(minutes, created, now, wall));
        s.(use := f, worker := if r.state.BPending? then Started(r.generation) else Resting)
    case Bind(user) => s.(use := U.Step(s.use, U.Bind(user)).0)
    case SetUserId(user) => s.(use := U.Step(s.use, U.SetUserId(user)).0)
    case LoadLease =>
      if s.worker.Started? then s.(worker := Trying(s.worker.generation, s.lease)) else s
    case SwapLease(spurious) =>
      if !s.worker.Trying? then s
      else
        var Trying(g, observed) := s.worker;
        if observed == g then s.(worker := Resting)
        else if s.lease == observed && !spurious then
          s.(lease := g, worker := if observed == 0 then Creating(g) else Resting)
        else s.(worker := Trying(g, s.lease))
    case CreateTask(ok) =>
      if !s.worker.Creating? then s
      else if ok then s.(tasks := s.tasks[s.nextTask := Top], nextTask := s.nextTask + 1, worker := Resting)
      else s.(worker := Undoing(s.worker.generation))
    case UndoLease =>
      if !s.worker.Undoing? then s
      else if s.lease == s.worker.generation then s.(lease := 0, worker := Aborting(s.worker.generation))
      else s.(worker := Resting)
    case AbortSession =>
      if !s.worker.Aborting? || s.worker.generation > P.U64_MAX then s
      else s.(use := U.Step(s.use, U.AbortPending(s.worker.generation)).0, worker := Resting)
    case _ => if step.task in s.tasks then NextOfTask(s, step) else s
  }

  predicate IsTaskStep(step: Step) {
    step.ReadOwner? || step.PollSession? || step.CheckActive? || step.ReleaseLease?
  }

  /** The effect of a step of a polling task. */
  function NextOfTask(s: State, step: Step): State
    requires IsTaskStep(step) && step.task in s.tasks
  {
    var t := step.task;
    var at := s.tasks[t];
    match step
    case ReadOwner(_) => if at.Top? then s.(tasks := s.tasks[t := Owning(s.lease)]) else s
    case PollSession(_, now, answer) =>
      if !at.Owning? then s
      else
        var (f, r) := U.Step(s.use, U.Poll(now, answer));
        s.(use := f, tasks := s.tasks[t := if GoesOn(r) then Top else Checking(at.owner)])
    case CheckActive(_) =>
      if !at.Checking? then s
      else s.(tasks := s.tasks[t := if U.Active(s.use) then Top else Releasing(at.owner)])
    case ReleaseLease(_) =>
      if !at.Releasing? then s
      else if s.lease == at.owner then s.(lease := 0, tasks := s.tasks - {t})
      else s.(tasks := s.tasks[t := Top])
  }

  function Run(steps: seq<Step>): State {
    if steps == [] then INITIAL else Next(Run(steps[..|steps| - 1]), steps[|steps| - 1])
  }

  /** Tasks that run or are about to be created. */
  function Pollers(s: State): nat {
    |s.tasks| + if s.worker.Creating? || s.worker.Undoing? then 1 else 0
  }

  predicate WorkerInv(active: bool, generation: nat, lease: nat, w: Worker) {
    match w
    case Resting => active ==> lease == generation
    case Started(g) => lease < g <= generation && (active ==> g == generation)
    case Trying(g, observed) => lease < g <= generation && observed < g && (active ==> g == generation)
    case Creating(g) => 0 < lease == g <= generation && (active ==> g == generation)
    case Undoing(g) => 0 < lease == g <= generation && (active ==> g == generation)
    case Aborting(g) => lease == 0 && g <= generation && (active ==> g == generation)
  }

  predicate TaskInv(active: bool, generation: nat, t: Task) {
    match t
    case Top => true
    case Owning(o) => o <= generation
    case Checking(o) => o <= generation
    case Releasing(o) => o <= generation && (active ==> o != generation)
  }

  predicate Inv(s: State) {
    var active, generation := U.Active(s.use), s.use.generation;
    && s.lease <= generation && (active ==> generation > 0)
    && Pollers(s) == (if s.lease != 0 then 1 else 0)
    && WorkerInv(active, generation, s.lease, s.worker)
    && (forall t | t in s.tasks :: t < s.nextTask && TaskInv(active, generation, s.tasks[t]))
  }

  lemma OneKey(tasks: map<nat, Task>, t: nat, v: Task)
    ensures t in tasks ==> |tasks[t := v]| == |tasks| && |tasks - {t}| == |tasks| - 1
    ensures t !in tasks ==> |tasks[t := v]| == |tasks| + 1
  {
    assert t in tasks ==> tasks[t := v].Keys == tasks.Keys;
    assert t !in tasks ==> tasks[t := v].Keys == tasks.Keys + {t};
    assert (tasks - {t}).Keys == tasks.Keys - {t};
  }

  /** What any use-case call may do to the session that is active. */
  ghost predicate Moves(f: U.Fields, g: U.Fields) {
    && f.generation <= g.generation <= f.generation + 1
    && (U.Active(g) ==> U.Active(f) && g.generation == f.generation)
  }

  lemma InvUseCall(s: State, g: U.Fields)
    requires Inv(s) && Moves(s.use, g)
    ensures Inv(s.(use := g))
  {
    hide U.Active;
  }

  lemma InvStart(s: State, step: Step)
    requires Inv(s) && step.StartSession? && s.use.generation < P.U64_MAX
    ensures Inv(Next(s, step)) && Next(s, step).use.generation <= s.use.generation + 1
  {
    var op := U.Start(step.minutes, step.created, step.now, step.wall);
    U.StepGeneration(s.use, op);
    hide U.Step;
    hide U.Active;
    var (f, r) := U.Step(s.use, op);
    if s.worker.Resting? && !r.state.BPending? {
      InvUseCall(s, f);
    }
  }

  lemma InvAbort(s: State)
    requires Inv(s) && s.use.generation < P.U64_MAX
    ensures Inv(Next(s, AbortSession)) && Next(s, AbortSession).use.generation <= s.use.generation + 1
  {
    if s.worker.Aborting? {
      var g := s.worker.generation;
      U.StepGeneration(s.use, U.AbortPending(g));
      U.AbortChanges(s.use, g);
      hide U.Step;
      hide U.Active;
    }
  }

  lemma InvWorkerStep(s: State, step: Step)
    requires Inv(s) && !IsTaskStep(step) && s.use.generation < P.U64_MAX
    ensures Inv(Next(s, step)) && Next(s, step).use.generation <= s.use.generation + 1
  {
    match step
    case StartSession(_, _, _, _) => InvStart(s, step);
    case Bind(user) =>
      U.StepGeneration(s.use, U.Bind(user));
      hide U.Step;
      InvUseCall(s, U.Step(s.use, U.Bind(user)).0);
    case SetUserId(user) =>
      U.StepGeneration(s.use, U.SetUserId(user));
      hide U.Step;
      InvUseCall(s, U.Step(s.use, U.SetUserId(user)).0);
    case AbortSession => InvAbort(s);
    case CreateTask(_) => OneKey(s.tasks, s.nextTask, Top);
    case _ =>
  }

  lemma InvTaskStep(s: State, step: Step)
    requires Inv(s) && IsTaskStep(step) && step.task in s.tasks && s.use.generation < P.U64_MAX
    ensures Inv(NextOfTask(s, step)) && NextOfTask(s, step).use.generation <= s.use.generation + 1
  {
    var t := step.task;
    var n := NextOfTask(s, step);
    assert TaskInv(U.Active(s.use), s.use.generation, s.tasks[t]);
    OneKey(s.tasks, t, if t in n.tasks then n.tasks[t] else Top);
    if step.PollSession? {
      U.StepGeneration(s.use, U.Poll(step.pollNow, step.answer));
      hide U.Step;
      InvUseCall(s, U.Step(s.use, U.Poll(step.pollNow, step.answer)).0);
    }
    hide U.Step;
    hide U.Active;
  }

  lemma {:induction false} InvAlways(steps: seq<Step>)
    requires |steps| <= P.U64_MAX
    ensures Inv(Run(steps)) && Run(steps).use.generation <= |steps|
  {
    if steps != [] {
      var init, step := steps[..|steps| - 1], steps[|steps| - 1];
      InvAlways(init);
      hide Inv;
      if !IsTaskStep(step) {
        InvWorkerStep(Run(init), step);
        hide NextOfTask;
      } else if step.task in Run(init).tasks {
        InvTaskStep(Run(init), step);
        hide NextOfTask;
      }
    }
  }

  /**
   Over every interleaving of starts, rebinds, failing task creations and polls: at most one
   polling task is ever alive, and whenever the worker is not in the middle of starting one, an
   active session has its generation on the lease and exactly one task polling it.
   */
  lemma NoSessionWithoutPoller(steps: seq<Step>)
    requires |steps| <= P.U64_MAX
    ensures
      var s := Run(steps);
      && |s.tasks| <= 1
      && (s.worker.Resting? && U.Active(s.use) ==> s.lease == s.use.generation && |s.tasks| == 1)
  {
    InvAlways(steps);
    hide Run;
  }
}
