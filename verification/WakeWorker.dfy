/**
 The wake detector: a caller that starts and stops it, any number of threads that submit frames, and
 the worker that takes frames from the mailbox and may call the wake sink. Every atomic load, store or
 increment is one step, and so is every locked region that touches no atomic; the regions of `Submit`
 and `ProcessFrame` that do are cut at each atomic and hold their mutex from step to step.
 */
module WakeWorker {
  import opened Wrappers
  import opened WakeMailbox

  /** The generation a frame was given, and whether a `Stop` was under way when that was read. */
  datatype Stamp = Stamp(generation: nat, late: bool)

  /** Where the caller stands: idle, or after the named action of `Start` or of `Stop`. */
  datatype Control =
    | Idle
    | SinkSet | StartIssued | StartCleared
    | StopIssued | SwitchedOff | StopCleared

  /** Where a submitter stands. From `Locked` to `Checked` it holds the queue mutex. */
  datatype Submitter =
    | Loading | Stamped(stamp: Stamp)
    | Locked(stamp: Stamp) | SawRunning(stamp: Stamp) | Checked(stamp: Stamp)
    | Giving | Done

  /** Where the worker stands. From `Inside` to `Taking` it holds the model mutex. */
  datatype Worker =
    | Top | Token
    | Got(stamp: Stamp) | Read(stamp: Stamp, current: nat) | Admitted(stamp: Stamp)
    | Inside(stamp: Stamp) | InsideRunning(stamp: Stamp)
    | Scanning(stamp: Stamp) | ScanRunning(stamp: Stamp) | Detecting(stamp: Stamp)
    | Matched(stamp: Stamp) | MatchedRunning(stamp: Stamp) | Winning(stamp: Stamp) | Taking(stamp: Stamp)
    | Calling(sink: Option<nat>, stamp: Stamp)

  /** A call of the sink that the `start`-th Start registered, for a frame with this stamp. */
  datatype Call = Call(start: nat, stamp: Stamp)

  /** `starts` counts the sinks registered; `startGen` holds the generation each Start issued. */
  datatype State = State(generation: nat, running: bool, sink: Option<nat>, box: seq<Stamp>, tokens: nat,
                         queueHolder: Option<nat>, control: Control, submitters: seq<Submitter>, worker: Worker,
                         starts: nat, startGen: seq<nat>, calls: seq<Call>)

  const INITIAL := State(0, false, None, [], 0, None, Idle, [], Top, 0, [], [])

  /** What `detect` and the chunks left in the ring decide: go on, leave the loop, or a match. */
  datatype Verdict = GoOn | Leave | Match

  datatype Step = StartCall | StopCall | ControlStep | SubmitCall | SubmitStep(id: nat) | WorkerStep(verdict: Verdict)

  predicate HoldsModel(w: Worker) {
    w.Inside? || w.InsideRunning? || w.Scanning? || w.ScanRunning? || w.Detecting? || w.Matched? || w.MatchedRunning?
    || w.Winning? || w.Taking?
  }

  predicate HoldsQueue(t: Submitter) { t.Locked? || t.SawRunning? || t.Checked? }

  predicate Stopping(c: Control) { c.StopIssued? || c.SwitchedOff? || c.StopCleared? }

  predicate Starting(c: Control) { c.SinkSet? || c.StartIssued? || c.StartCleared? }

  /** The effect of a step; one that is not possible now has none. */
  function Next(s: State, step: Step): State {
    match step
    case StartCall =>
      if s.control.Idle? && !s.running && !HoldsModel(s.worker) then
        s.(sink := Some(s.starts), starts := s.starts + 1, control := SinkSet)
      else s
    case StopCall => if s.control.Idle? then s.(generation := s.generation + 1, control := StopIssued) else s
    case ControlStep => NextControl(s)
    case SubmitCall => if s.running then s.(submitters := s.submitters + [Loading]) else s
    case SubmitStep(id) => if id < |s.submitters| then NextSubmit(s, id) else s
    case WorkerStep(v) => NextWorker(s, v)
  }

  function NextControl(s: State): State {
    match s.control
    case Idle => s
    case SinkSet =>
      s.(generation := s.generation + 1, startGen := s.startGen + [s.generation + 1], control := StartIssued)
    case StartIssued => if s.queueHolder.None? then s.(box := [], control := StartCleared) else s
    case StartCleared => s.(running := true, control := Idle)
    case StopIssued => s.(running := false, control := SwitchedOff)
    case SwitchedOff => if s.queueHolder.None? then s.(box := [], control := StopCleared) else s
    case StopCleared => if HoldsModel(s.worker) then s else s.(sink := None, control := Idle)
  }

  function Move(s: State, id: nat, t: Submitter): State
    requires id < |s.submitters|
  {
    s.(submitters := s.submitters[id := t])
  }

  function NextSubmit(s: State, id: nat): State
    requires id < |s.submitters|
  {
    match s.submitters[id]
    case Loading => Move(s, id, Stamped(Stamp(s.generation, Stopping(s.control))))
    case Stamped(x) => if s.queueHolder.None? then Move(s, id, Locked(x)).(queueHolder := Some(id)) else s
    case Locked(x) => if s.running then Move(s, id, SawRunning(x)) else Move(s, id, Done).(queueHolder := None)
    case SawRunning(x) =>
      if s.generation == x.generation then Move(s, id, Checked(x)) else Move(s, id, Done).(queueHolder := None)
    case Checked(x) => Move(s, id, Giving).(box := Posted(s.box, x), queueHolder := None)
    case Giving => Move(s, id, Done).(tokens := if s.tokens < CAPACITY then s.tokens + 1 else s.tokens)
    case Done => s
  }

  function NextWorker(s: State, v: Verdict): State {
    match s.worker
    case Top => if s.tokens > 0 then s.(tokens := s.tokens - 1, worker := Token) else s
    case Token =>
      if s.queueHolder.Some? then s
      else if s.box == [] then s.(worker := Top)
      else s.(worker := Got(s.box[0]), box := s.box[1..])
    case Got(x) => s.(worker := Read(x, s.generation))
    case Read(x, current) => s.(worker := if s.running && x.generation == current then Admitted(x) else Top)
    case Admitted(x) => s.(worker := Inside(x))
    case Inside(x) => s.(worker := if s.running then InsideRunning(x) else Top)
    case InsideRunning(x) => s.(worker := if x.generation == s.generation && !v.Leave? then Scanning(x) else Top)
    case Scanning(x) => s.(worker := if s.running && !v.Leave? then ScanRunning(x) else Top)
    case ScanRunning(x) => s.(worker := if x.generation == s.generation then Detecting(x) else Top)
    case Detecting(x) => s.(worker := if v.GoOn? then Scanning(x) else if v.Leave? then Top else Matched(x))
    case Matched(x) => s.(worker := if s.running then MatchedRunning(x) else Top)
    case MatchedRunning(x) => s.(worker := if x.generation == s.generation then Winning(x) else Top)
    case Winning(x) => s.(running := false, worker := Taking(x))
    case Taking(x) => s.(worker := Calling(s.sink, x), sink := None)
    case Calling(k, x) => s.(worker := Top, calls := if k.Some? then s.calls + [Call(k.value, x)] else s.calls)
  }

  function Run(steps: seq<Step>): State {
    if steps == [] then INITIAL else Next(Run(steps[..|steps| - 1]), steps[|steps| - 1])
  }

  // ----- Wake-ups

  function Gives(ts: seq<Submitter>): nat {
    if ts == [] then 0 else Gives(ts[..|ts| - 1]) + (if ts[|ts| - 1].Giving? then 1 else 0)
  }

  lemma {:induction false} GivesMoved(ts: seq<Submitter>, id: nat, t: Submitter)
    requires id < |ts|
    ensures Gives(ts[id := t]) == Gives(ts) - (if ts[id].Giving? then 1 else 0) + (if t.Giving? then 1 else 0)
    decreases |ts|
  {
    var n := |ts| - 1;
    if id < n {
      GivesMoved(ts[..n], id, t);
      assert ts[id := t][..n] == ts[..n][id := t];
    } else {
      assert ts[id := t][..n] == ts[..n];
    }
  }

  /** The frames in the mailbox never outnumber the wake-ups on their way. */
  predicate WakeInv(s: State) {
    && |s.box| <= CAPACITY
    && |s.box| <= s.tokens + Gives(s.submitters) + (if s.worker.Token? then 1 else 0)
  }

  lemma WakeSubmit(s: State, id: nat)
    requires WakeInv(s) && id < |s.submitters|
    ensures WakeInv(NextSubmit(s, id))
  {
    hide Gives;
    var t := NextSubmit(s, id).submitters[id];
    GivesMoved(s.submitters, id, t);
    assert s.submitters[id := s.submitters[id]] == s.submitters;
  }

  lemma WakeWorkerStep(s: State, v: Verdict)
    requires WakeInv(s)
    ensures WakeInv(NextWorker(s, v))
  {
    hide Gives;
  }

  lemma WakeStep(s: State, step: Step)
    requires WakeInv(s)
    ensures WakeInv(Next(s, step))
  {
    match step
    case SubmitCall =>
      assert (s.submitters + [Loading])[..|s.submitters|] == s.submitters;
    case SubmitStep(id) =>
      if id < |s.submitters| {
        WakeSubmit(s, id);
      }
    case WorkerStep(v) =>
      WakeWorkerStep(s, v);
    case _ =>
      hide Gives, NextSubmit, NextWorker;
  }

  // ----- Whose sink is called, and for which frames

  /** A stamp read outside a Stop carries no generation that a Stop under way has issued; a late one carries a Stop's. */
  predicate StampInv(generation: nat, control: Control, startGen: seq<nat>, x: Stamp) {
    && x.generation <= generation
    && (!x.late && Stopping(control) ==> x.generation < generation)
    && (x.late ==> x.generation !in startGen)
  }

  /** The last Start is complete and nothing but a Stop of it has begun since; its sink is in place. */
  predicate InSession(s: State) {
    && !Starting(s.control) && 0 < s.starts == |s.startGen| && s.sink == Some(s.starts - 1)
    && s.generation == s.startGen[s.starts - 1] + (if s.control.Idle? then 0 else 1)
  }

  /** A call, or one about to be made, is of a known Start, for a frame of its generation or of its Stop's. */
  predicate CallInv(starts: nat, startGen: seq<nat>, k: nat, x: Stamp) {
    && k < starts && k < |startGen|
    && x.generation == startGen[k] + (if x.late then 1 else 0)
  }

  predicate WorkerInv(s: State) {
    match s.worker
    case InsideRunning(_) => InSession(s)
    case Scanning(_) => InSession(s)
    case ScanRunning(_) => InSession(s)
    case Detecting(_) => InSession(s)
    case Matched(_) => InSession(s)
    case MatchedRunning(_) => InSession(s)
    case Winning(x) => InSession(s) && CallInv(s.starts, s.startGen, s.starts - 1, x)
    case Taking(x) => InSession(s) && CallInv(s.starts, s.startGen, s.starts - 1, x) && !s.running
    case Calling(k, x) => k.Some? ==> CallInv(s.starts, s.startGen, k.value, x)
    case _ => true
  }

  predicate HasStamp(w: Worker) { !w.Top? && !w.Token? }

  predicate SubmitterHas(t: Submitter) { t.Stamped? || HoldsQueue(t) }

  predicate StampsInv(s: State) {
    && (forall i | 0 <= i < |s.box| :: StampInv(s.generation, s.control, s.startGen, s.box[i]))
    && (forall i | 0 <= i < |s.submitters| ::
          SubmitterHas(s.submitters[i]) ==> StampInv(s.generation, s.control, s.startGen, s.submitters[i].stamp))
    && (HasStamp(s.worker) ==> StampInv(s.generation, s.control, s.startGen, s.worker.stamp))
  }

  predicate GenInv(s: State) {
    && |s.startGen| == (if s.control.SinkSet? then s.starts - 1 else s.starts)
    && (forall i | 0 <= i < |s.startGen| :: 0 < s.startGen[i] <= s.generation)
    && (Stopping(s.control) ==> forall i | 0 <= i < |s.startGen| :: s.startGen[i] < s.generation)
    && (s.running ==> InSession(s) && (s.control.Idle? || s.control.StopIssued?))
    && (Starting(s.control) ==> s.starts > 0 && s.sink == Some(s.starts - 1) && !s.running)
    && (s.control.StartIssued? || s.control.StartCleared? ==> s.generation == s.startGen[s.starts - 1])
    && (s.sink.Some? ==> s.sink.value < s.starts)
  }

  /** Steps of submitters leave alone what the generations and the session depend on. */
  predicate SameSession(s: State, s': State) {
    && s'.generation == s.generation && s'.running == s.running && s'.sink == s.sink && s'.control == s.control
    && s'.starts == s.starts && s'.startGen == s.startGen
  }

  lemma SubmitSame(s: State, id: nat)
    requires id < |s.submitters|
    ensures SameSession(s, NextSubmit(s, id))
    ensures NextSubmit(s, id).worker == s.worker && NextSubmit(s, id).calls == s.calls
  {
    hide Posted;
  }

  lemma GenControl(s: State)
    requires GenInv(s)
    ensures GenInv(NextControl(s))
  {
  }

  lemma GenWorker(s: State, v: Verdict)
    requires GenInv(s) && WorkerInv(s)
    ensures GenInv(NextWorker(s, v))
  {
    hide CallInv;
    var s' := NextWorker(s, v);
    if s.worker.Winning? || s.worker.Taking? {
      hide NextWorker;
      GenOff(s, s');
    } else {
      assert SameSession(s, s');
    }
  }

  /** The worker's win: running goes off, then the sink is taken, with the session in place. */
  lemma GenOff(s: State, s': State)
    requires GenInv(s) && WorkerInv(s) && (s.worker.Winning? || s.worker.Taking?)
    requires s'.generation == s.generation && !s'.running && s'.control == s.control
    requires s'.starts == s.starts && s'.startGen == s.startGen && (s'.sink == s.sink || s'.sink == None)
    ensures GenInv(s')
  {
  }

  predicate IsControl(step: Step) { step.StartCall? || step.StopCall? || step.ControlStep? }

  lemma StampControl(s: State, step: Step)
    requires GenInv(s) && IsControl(step)
    ensures var s' := Next(s, step);
            forall x | StampInv(s.generation, s.control, s.startGen, x) :: StampInv(s'.generation, s'.control, s'.startGen, x)
  {
    hide NextSubmit, NextWorker;
  }

  /** What a step of the caller leaves alone. */
  lemma ControlLeaves(s: State, step: Step)
    requires IsControl(step)
    ensures var s' := Next(s, step);
            && s'.submitters == s.submitters && s'.worker == s.worker && s'.calls == s.calls
            && (s'.box == s.box || s'.box == [])
  {
    hide NextSubmit, NextWorker;
  }

  lemma StampsControl(s: State, step: Step)
    requires GenInv(s) && StampsInv(s) && IsControl(step)
    ensures StampsInv(Next(s, step))
  {
    StampControl(s, step);
    ControlLeaves(s, step);
    hide Next, StampInv;
  }

  lemma StampsSubmit(s: State, id: nat)
    requires GenInv(s) && StampsInv(s) && id < |s.submitters|
    ensures StampsInv(NextSubmit(s, id))
  {
    SubmitSame(s, id);
    var s' := NextSubmit(s, id);
    var read := Stamp(s.generation, Stopping(s.control));
    assert StampInv(s.generation, s.control, s.startGen, read);
    hide GenInv, StampInv;
    assert forall i | 0 <= i < |s'.submitters| && i != id :: s'.submitters[i] == s.submitters[i];
    assert SubmitterHas(s'.submitters[id]) ==> StampInv(s.generation, s.control, s.startGen, s'.submitters[id].stamp);
    hide NextSubmit, Posted;
    StampsBox(s, id);
  }

  lemma StampsBox(s: State, id: nat)
    requires StampsInv(s) && id < |s.submitters|
    ensures var box := NextSubmit(s, id).box;
            forall i | 0 <= i < |box| :: StampInv(s.generation, s.control, s.startGen, box[i])
  {
    hide StampInv;
  }

  lemma StampsWorker(s: State, v: Verdict)
    requires StampsInv(s)
    ensures s.worker.Winning? || s.worker.Taking? || SameSession(s, NextWorker(s, v))
    ensures StampsInv(NextWorker(s, v))
  {
    hide StampInv;
  }

  // ----- The worker's place

  lemma WorkerControl(s: State, step: Step)
    requires GenInv(s) && WorkerInv(s) && IsControl(step)
    ensures WorkerInv(Next(s, step))
  {
    hide NextSubmit, NextWorker;
    var s' := Next(s, step);
    if HoldsModel(s.worker) && InSession(s) {
      assert InSession(s');
    }
    assert |s.startGen| <= |s'.startGen| && s'.startGen[..|s.startGen|] == s.startGen && s.starts <= s'.starts;
  }

  /** Seeing `running` set means that the last Start's session is in place; then its generation can be checked. */
  lemma WorkerWorker(s: State, v: Verdict)
    requires GenInv(s) && WorkerInv(s) && StampsInv(s)
    ensures WorkerInv(NextWorker(s, v))
  {
    var s' := NextWorker(s, v);
    if s.worker.MatchedRunning? && s'.worker.Winning? {
      WinningIsRight(s, s.worker.stamp);
    }
  }

  /** The frame whose generation is current belongs to the session; to its Start, unless it was stamped late. */
  lemma WinningIsRight(s: State, x: Stamp)
    requires GenInv(s) && InSession(s) && StampInv(s.generation, s.control, s.startGen, x) && x.generation == s.generation
    ensures CallInv(s.starts, s.startGen, s.starts - 1, x)
  {
    if s.control.Idle? {
      assert x.generation == s.startGen[s.starts - 1];
      assert x.generation in s.startGen;
    }
  }

  // ----- The calls

  predicate CallsInv(s: State) {
    && (forall i | 0 <= i < |s.calls| ::
          && CallInv(s.starts, s.startGen, s.calls[i].start, s.calls[i].stamp)
          && StampInv(s.generation, s.control, s.startGen, s.calls[i].stamp))
    && (forall i, j | 0 <= i < j < |s.calls| :: s.calls[i].start != s.calls[j].start)
    && (s.sink.Some? ==> NotCalled(s.calls, s.sink.value))
    && (s.worker.Calling? && s.worker.sink.Some? ==> NotCalled(s.calls, s.worker.sink.value) && s.sink != s.worker.sink)
  }

  predicate NotCalled(calls: seq<Call>, k: nat) { forall i | 0 <= i < |calls| :: calls[i].start != k }

  /** What a step of the caller does to the starts and the sink. */
  lemma StartsGrow(s: State, step: Step)
    requires GenInv(s) && IsControl(step)
    ensures var s' := Next(s, step);
            && |s.startGen| <= |s'.startGen| && s'.startGen[..|s.startGen|] == s.startGen && s.starts <= s'.starts
            && (s'.sink == s.sink || s'.sink == None || (s'.sink == Some(s.starts) && s'.starts == s.starts + 1))
  {
    hide NextSubmit, NextWorker;
  }

  lemma CallInvGrows(starts: nat, startGen: seq<nat>, starts': nat, startGen': seq<nat>, k: nat, x: Stamp)
    requires CallInv(starts, startGen, k, x) && starts <= starts'
    requires |startGen| <= |startGen'| && startGen'[..|startGen|] == startGen
    ensures CallInv(starts', startGen', k, x)
  {
    assert startGen'[k] == startGen'[..|startGen|][k];
  }

  lemma CallsControl(s: State, step: Step)
    requires GenInv(s) && WorkerInv(s) && CallsInv(s) && IsControl(step)
    ensures CallsInv(Next(s, step))
  {
    var s' := Next(s, step);
    StartsGrow(s, step);
    StampControl(s, step);
    ControlLeaves(s, step);
    assert s.worker.Calling? && s.worker.sink.Some? ==> s.worker.sink.value < s.starts;
    hide Next, GenInv, WorkerInv, StampInv;
    forall i | 0 <= i < |s.calls| ensures CallInv(s'.starts, s'.startGen, s'.calls[i].start, s'.calls[i].stamp) {
      CallInvGrows(s.starts, s.startGen, s'.starts, s'.startGen, s.calls[i].start, s.calls[i].stamp);
    }
  }

  lemma CallsMade(s: State, k: nat, x: Stamp)
    requires WorkerInv(s) && CallsInv(s) && StampsInv(s) && s.worker == Calling(Some(k), x)
    ensures CallsInv(s.(worker := Top, calls := s.calls + [Call(k, x)]))
  {
    hide StampInv, CallInv;
  }

  lemma CallsWorker(s: State, v: Verdict)
    requires WorkerInv(s) && CallsInv(s) && StampsInv(s)
    ensures CallsInv(NextWorker(s, v))
  {
    var s' := NextWorker(s, v);
    hide InSession, StampInv, CallInv;
    if s.worker.Calling? && s.worker.sink.Some? {
      CallsMade(s, s.worker.sink.value, s.worker.stamp);
    } else if !s.worker.Taking? {
      assert s'.calls == s.calls && s'.sink == s.sink && !s'.worker.Calling?;
      assert s'.starts == s.starts && s'.startGen == s.startGen && s'.generation == s.generation && s'.control == s.control;
      hide NextWorker, NotCalled;
    }
  }

  predicate Inv(s: State) { GenInv(s) && StampsInv(s) && WorkerInv(s) && CallsInv(s) && WakeInv(s) }

  /** What the invariants but those of the stamps and of the wake-ups depend on. */
  lemma OthersKept(s: State, s': State)
    requires SameSession(s, s') && s'.worker == s.worker && s'.calls == s.calls
    requires GenInv(s) && WorkerInv(s) && CallsInv(s)
    ensures GenInv(s') && WorkerInv(s') && CallsInv(s')
  {
    hide CallInv, StampInv;
  }

  lemma StepKeeps(s: State, step: Step)
    requires Inv(s)
    ensures Inv(Next(s, step))
  {
    WakeStep(s, step);
    match step
    case SubmitCall =>
      OthersKept(s, Next(s, step));
    case SubmitStep(id) =>
      if id < |s.submitters| {
        SubmitSame(s, id);
        StampsSubmit(s, id);
        hide NextSubmit, GenInv, WorkerInv, CallsInv, StampsInv, WakeInv;
        OthersKept(s, NextSubmit(s, id));
      }
    case WorkerStep(v) =>
      hide NextWorker, GenInv, WorkerInv, CallsInv, StampsInv, WakeInv;
      GenWorker(s, v);
      StampsWorker(s, v);
      WorkerWorker(s, v);
      CallsWorker(s, v);
    case _ =>
      StampsControl(s, step);
      WorkerControl(s, step);
      CallsControl(s, step);
      GenCaller(s, step);
      hide Next, GenInv, WorkerInv, CallsInv, StampsInv, WakeInv;
  }

  lemma GenCaller(s: State, step: Step)
    requires GenInv(s) && IsControl(step)
    ensures GenInv(Next(s, step))
  {
    hide NextSubmit, NextWorker;
    if step.ControlStep? {
      GenControl(s);
    }
  }

  lemma {:induction false} InvAlways(steps: seq<Step>)
    ensures Inv(Run(steps))
    decreases |steps|
  {
    if steps != [] {
      InvAlways(steps[..|steps| - 1]);
      hide Inv, Next;
      StepKeeps(Run(steps[..|steps| - 1]), steps[|steps| - 1]);
    }
  }

  /** In every run: no Start's sink is called twice. */
  lemma CalledOnce(steps: seq<Step>, i: nat, j: nat)
    requires i < |Run(steps).calls| && j < |Run(steps).calls| && Run(steps).calls[i].start == Run(steps).calls[j].start
    ensures i == j
  {
    hide Run, GenInv, WorkerInv, StampsInv, WakeInv, CallInv;
    InvAlways(steps);
  }

  /**
   In every run, for every call of a sink: the frame's generation is the one that sink's own Start issued
   if and only if no Stop was under way when the frame was stamped; otherwise it is the next
   generation, issued by that Stop. A frame of any other session never reaches the sink.
   */
  lemma CalledForOwnFrames(steps: seq<Step>, i: nat)
    requires i < |Run(steps).calls|
    ensures var s := Run(steps); var c := s.calls[i];
            && c.start < |s.startGen|
            && (c.stamp.generation == s.startGen[c.start] <==> !c.stamp.late)
            && (c.stamp.late ==> c.stamp.generation == s.startGen[c.start] + 1 && c.stamp.generation !in s.startGen)
  {
    hide Run, GenInv, WorkerInv, StampsInv, WakeInv;
    InvAlways(steps);
    var s := Run(steps);
    assert CallInv(s.starts, s.startGen, s.calls[i].start, s.calls[i].stamp);
  }

  /** In every run: the queued frames never outnumber tokens, gives under way and the token the worker holds. */
  lemma NoFrameWithoutWakeup(steps: seq<Step>)
    ensures var s := Run(steps);
            && |s.box| <= CAPACITY
            && |s.box| <= s.tokens + Gives(s.submitters) + (if s.worker.Token? then 1 else 0)
            && (s.box != [] && s.worker.Top? && Gives(s.submitters) == 0 ==> Next(s, WorkerStep(GoOn)).worker.Token?)
  {
    hide Run, Gives, GenInv, WorkerInv, StampsInv, CallsInv;
    InvAlways(steps);
  }

  // ----- After a Stop has returned

  /** The step on which a Stop returns. */
  predicate StopReturns(steps: seq<Step>) {
    steps != [] && var before := Run(steps[..|steps| - 1]);
    steps[|steps| - 1].ControlStep? && before.control.StopCleared? && Run(steps).control.Idle?
  }

  predicate NoStart(more: seq<Step>) { forall i | 0 <= i < |more| :: !more[i].StartCall? }

  /** Detection is off, no Start is under way and the worker is nowhere from which it could reach a sink. */
  predicate Silent(s: State) {
    && !s.running && !Starting(s.control)
    && (s.worker.Top? || s.worker.Token? || s.worker.Got? || s.worker.Read? || s.worker.Admitted? || s.worker.Inside?
        || (s.worker.Calling? && s.worker.sink.None?))
  }

  lemma SilentStep(s: State, step: Step)
    requires Silent(s) && !step.StartCall?
    ensures Silent(Next(s, step)) && Next(s, step).calls == s.calls
  {
    match step
    case SubmitStep(id) =>
      if id < |s.submitters| {
        SubmitSame(s, id);
      }
      hide NextSubmit;
    case _ => hide NextSubmit;
  }

  lemma {:induction false} SilentRun(steps: seq<Step>, more: seq<Step>)
    requires Silent(Run(steps)) && NoStart(more)
    ensures Silent(Run(steps + more)) && Run(steps + more).calls == Run(steps).calls
    decreases |more|
  {
    if more == [] {
      assert steps + more == steps;
    } else {
      var before := more[..|more| - 1];
      SilentRun(steps, before);
      RunLast(steps, more);
      hide Silent, Next, Run;
      SilentStep(Run(steps + before), more[|more| - 1]);
    }
  }

  lemma RunLast(steps: seq<Step>, more: seq<Step>)
    requires more != []
    ensures var n := |more| - 1; Run(steps + more) == Next(Run(steps + more[..n]), more[n])
  {
    hide Next;
    var n := |more| - 1;
    assert (steps + more)[..|steps + more| - 1] == steps + more[..n];
  }

  lemma OneMore(steps: seq<Step>, step: Step)
    ensures Run(steps + [step]) == Next(Run(steps), step)
  {
    assert (steps + [step])[..|steps|] == steps;
  }

  /**
   After a Stop has returned and before the next Start, a sink can still be called if and only if the worker
   had already taken it: `ProcessFrame` calls the sink with no lock held.
   */
  lemma SilentAfterStop(steps: seq<Step>)
    requires StopReturns(steps)
    ensures (exists more | NoStart(more) :: Run(steps + more).calls != Run(steps).calls)
            <==> Run(steps).worker.Calling? && Run(steps).worker.sink.Some?
  {
    var s := Run(steps);
    InvAlways(steps[..|steps| - 1]);
    assert !s.running && !HoldsModel(s.worker);
    if s.worker.Calling? && s.worker.sink.Some? {
      OneMore(steps, WorkerStep(GoOn));
      assert NoStart([WorkerStep(GoOn)]);
    } else {
      assert Silent(s);
      forall more | NoStart(more) ensures Run(steps + more).calls == Run(steps).calls {
        SilentRun(steps, more);
      }
    }
  }
}
