/**
 A frame stamped while a Stop is under way can still reach the sink, with the generation the Stop issued:
 `Stop` advances the generation before it clears `running`, so in between a submitter reads the new
 generation and finds detection on.
 */
module WakeLateFrame {
  import opened Wrappers
  import opened WakeWorker

  function Again(s: State, step: Step, n: nat): State {
    if n == 0 then s else Next(Again(s, step, n - 1), step)
  }

  lemma {:induction false} RunAgain(steps: seq<Step>, step: Step, n: nat)
    ensures Run(steps + seq(n, _ => step)) == Again(Run(steps), step, n)
  {
    if n == 0 {
      assert steps + seq(n, _ => step) == steps;
    } else {
      RunAgain(steps, step, n - 1);
      assert steps + seq(n, _ => step) == steps + seq(n - 1, _ => step) + [step];
      OneMore(steps + seq(n - 1, _ => step), step);
    }
  }

  lemma AgainFive(s: State, step: Step)
    ensures Again(s, step, 5) == Next(Next(Next(Next(Next(s, step), step), step), step), step)
  {
    hide Next;
    assert Again(s, step, 2) == Next(Again(s, step, 1), step);
    assert Again(s, step, 4) == Next(Again(s, step, 3), step);
  }

  lemma {:induction false} AgainSum(s: State, step: Step, m: nat, n: nat)
    ensures Again(s, step, m + n) == Again(Again(s, step, m), step, n)
    decreases n
  {
    hide Next;
    if n > 0 { AgainSum(s, step, m, n - 1); }
  }

  const WORK := WorkerStep(Match)

  /** A frame waits for the worker, in step with the generation, and detection is on. */
  predicate Waiting(s: State, x: Stamp) {
    && s.worker.Top? && s.tokens > 0 && s.queueHolder.None? && s.box == [x]
    && s.running && x.generation == s.generation && s.sink.Some?
  }

  lemma WorkTakes(s: State, x: Stamp)
    requires Waiting(s, x)
    ensures Again(s, WORK, 5) == s.(worker := Inside(x), box := [], tokens := s.tokens - 1)
  {
    AgainFive(s, WORK);
    hide Again, NextSubmit, NextControl;
    var s1 := Next(s, WORK);
    assert s1 == s.(worker := Token, tokens := s.tokens - 1);
    var s2 := Next(s1, WORK);
    assert s2 == s1.(worker := Got(x), box := []);
    var s3 := Next(s2, WORK);
    assert s3 == s2.(worker := Read(x, s.generation));
    var s4 := Next(s3, WORK);
    assert s4 == s3.(worker := Admitted(x));
  }

  lemma WorkDetects(s: State, x: Stamp)
    requires s.worker == Inside(x) && s.running && x.generation == s.generation
    ensures Again(s, WORK, 5) == s.(worker := Matched(x))
  {
    AgainFive(s, WORK);
    hide Again, NextSubmit, NextControl;
    var s1 := Next(s, WORK);
    assert s1 == s.(worker := InsideRunning(x));
    var s2 := Next(s1, WORK);
    assert s2 == s.(worker := Scanning(x));
    var s3 := Next(s2, WORK);
    assert s3 == s.(worker := ScanRunning(x));
    var s4 := Next(s3, WORK);
    assert s4 == s.(worker := Detecting(x));
  }

  lemma AgainFour(s: State, step: Step)
    ensures Again(s, step, 4) == Next(Next(Next(Next(s, step), step), step), step)
  {
    hide Next;
    assert Again(s, step, 2) == Next(Again(s, step, 1), step);
  }

  /** The worker up to the point where it holds the sink and no lock. */
  lemma WorkHoldsSink(s: State, x: Stamp, k: nat)
    requires s.worker == Matched(x) && s.running && x.generation == s.generation && s.sink == Some(k)
    ensures Again(s, WORK, 4) == s.(worker := Calling(Some(k), x), running := false, sink := None)
  {
    AgainFour(s, WORK);
    hide Again, NextSubmit, NextControl;
    var s1 := Next(s, WORK);
    assert s1 == s.(worker := MatchedRunning(x));
    var s2 := Next(s1, WORK);
    assert s2 == s.(worker := Winning(x));
    var s3 := Next(s2, WORK);
    assert s3 == s.(worker := Taking(x), running := false);
  }

  lemma WaitingIsHeld(s: State, x: Stamp)
    requires Waiting(s, x)
    ensures Again(s, WORK, 14) ==
            s.(worker := Calling(s.sink, x), running := false, sink := None, box := [], tokens := s.tokens - 1)
  {
    hide Again, Next;
    WorkTakes(s, x);
    var s1 := Again(s, WORK, 5);
    WorkDetects(s1, x);
    var s2 := Again(s1, WORK, 5);
    WorkHoldsSink(s2, x, s.sink.value);
    AgainSum(s, WORK, 5, 5);
    AgainSum(s, WORK, 10, 4);
  }

  /** A waiting frame that matches is handed to the sink in fifteen steps of the worker. */
  lemma WaitingIsCalled(s: State, x: Stamp)
    requires Waiting(s, x)
    ensures Again(s, WORK, 15).calls == s.calls + [Call(s.sink.value, x)]
    ensures Again(s, WORK, 15).startGen == s.startGen
  {
    hide Again;
    WaitingIsHeld(s, x);
    AgainSum(s, WORK, 14, 1);
    OneAgain(Again(s, WORK, 14), WORK);
  }

  const POST := SubmitStep(0)

  /** A submitter past its first check posts its frame and gives the token, in six steps. */
  lemma FrameIsPosted(s: State)
    requires s.submitters == [Loading] && s.queueHolder.None? && s.running && s.box == [] && s.tokens == 0
    requires s.worker.Top? && s.sink.Some?
    ensures Waiting(Again(s, POST, 6), Stamp(s.generation, Stopping(s.control)))
    ensures SameSession(s, Again(s, POST, 6)) && Again(s, POST, 6).calls == s.calls
  {
    var x := Stamp(s.generation, Stopping(s.control));
    hide NextWorker, NextControl, Again;
    AgainFive(s, POST);
    AgainSum(s, POST, 5, 1);
    OneAgain(Again(s, POST, 5), POST);
    assert Next(s, POST) == Move(s, 0, Stamped(x));
    assert Next(Next(s, POST), POST).submitters == [Locked(x)];
    assert Again(s, POST, 5) == Move(s, 0, Giving).(box := [x]);
  }

  lemma OneAgain(s: State, step: Step)
    ensures Again(s, step, 1) == Next(s, step)
  {
    assert Again(s, step, 0) == s;
  }

  /** Started once, one submitter past its first check, and a Stop that has just issued its generation. */
  const OPENING: seq<Step> := START + [SubmitCall] + [StopCall]

  const ARMED := INITIAL.(generation := 1, running := true, sink := Some(0), starts := 1, startGen := [1])

  lemma StartSteps()
    ensures Next(Next(Next(Next(INITIAL, StartCall), ControlStep), ControlStep), ControlStep) == ARMED
  {
    hide NextWorker, NextSubmit;
    var one := Next(INITIAL, StartCall);
    assert one == INITIAL.(sink := Some(0), starts := 1, control := SinkSet);
    var two := Next(one, ControlStep);
    assert two == one.(generation := 1, startGen := [1], control := StartIssued);
    var three := Next(two, ControlStep);
    assert three == two.(control := StartCleared);
  }

  const START: seq<Step> := [StartCall] + [ControlStep] + [ControlStep] + [ControlStep]

  lemma StartsUp()
    ensures Run(START) == ARMED
  {
    assert Run([]) == INITIAL;
    hide Run, Next;
    StartSteps();
    OneMore([], StartCall);
    assert [] + [StartCall] == [StartCall];
    OneMore([StartCall], ControlStep);
    OneMore([StartCall] + [ControlStep], ControlStep);
    OneMore([StartCall] + [ControlStep] + [ControlStep], ControlStep);
  }

  lemma OpeningState()
    ensures Run(OPENING) == State(2, true, Some(0), [], 0, None, StopIssued, [Loading], Top, 1, [1], [])
  {
    StartsUp();
    OneMore(START, SubmitCall);
    OneMore(START + [SubmitCall], StopCall);
    hide Run, NextWorker, NextSubmit, NextControl;
  }

  /** The sink of the first Start, generation 1, is called for a frame of generation 2. */
  lemma LateFrameIsCalled() returns (steps: seq<Step>)
    ensures var s := Run(steps); s.startGen == [1] && s.calls == [Call(0, Stamp(2, true))]
  {
    OpeningState();
    var s := Run(OPENING);
    hide Run, Again, Next;
    FrameIsPosted(s);
    RunAgain(OPENING, POST, 6);
    var posted := OPENING + seq(6, _ => POST);
    WaitingIsCalled(Run(posted), Stamp(2, true));
    RunAgain(posted, WORK, 15);
    steps := posted + seq(15, _ => WORK);
  }

  // ----- A call after Stop has returned

  /** A Stop runs from its call to its return beside a worker that holds no lock. */
  lemma StopCompletes(steps: seq<Step>)
    requires var s := Run(steps); s.control.Idle? && s.queueHolder.None? && s.worker.Calling?
    ensures var after := steps + [StopCall] + [ControlStep] + [ControlStep] + [ControlStep];
            StopReturns(after) && Run(after).worker == Run(steps).worker
  {
    var s := Run(steps);
    var a := steps + [StopCall];
    var b := a + [ControlStep];
    var c := b + [ControlStep];
    var d := c + [ControlStep];
    OneMore(steps, StopCall);
    OneMore(a, ControlStep);
    OneMore(b, ControlStep);
    OneMore(c, ControlStep);
    assert d[..|d| - 1] == c;
    hide Run, NextSubmit, NextWorker;
    assert Run(a) == s.(generation := s.generation + 1, control := StopIssued);
    assert Run(b) == Run(a).(running := false, control := SwitchedOff);
    assert Run(c) == Run(b).(box := [], control := StopCleared);
  }

  /** A Stop can return while the worker is about to call the sink of the Start it ended. */
  lemma CallAfterStop() returns (steps: seq<Step>)
    ensures StopReturns(steps) && Run(steps).worker.Calling? && Run(steps).worker.sink == Some(0)
  {
    StartsUp();
    OneMore(START, SubmitCall);
    var s := Run(START + [SubmitCall]);
    hide Run, Again, NextWorker, NextSubmit, NextControl;
    FrameIsPosted(s);
    RunAgain(START + [SubmitCall], POST, 6);
    var posted := START + [SubmitCall] + seq(6, _ => POST);
    WaitingIsHeld(Run(posted), Stamp(1, false));
    RunAgain(posted, WORK, 14);
    var held := posted + seq(14, _ => WORK);
    StopCompletes(held);
    steps := held + [StopCall] + [ControlStep] + [ControlStep] + [ControlStep];
  }
}
