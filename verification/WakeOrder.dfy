/**
 The order in which the worker takes frames, over whole runs: what was posted, what was taken and what was called are
 read off the steps of a run, beside the machine's own state.
 */
module WakeOrder {
  import opened Wrappers
  import opened WakeMailbox
  import opened WakeWorker

  function Before(steps: seq<Step>): seq<Step>
    requires steps != []
  {
    steps[..|steps| - 1]
  }

  /** The step puts a frame into the mailbox. */
  predicate Posts(s: State, step: Step) {
    step.SubmitStep? && step.id < |s.submitters| && s.submitters[step.id].Checked?
  }

  /** The step hands a frame of the mailbox to the worker. */
  predicate Takes(s: State, step: Step) {
    s.worker.Token? && Next(s, step).worker.Got?
  }

  /** The step calls a sink. */
  predicate Calls(s: State, step: Step) {
    Next(s, step).calls != s.calls
  }

  /** The stamps of all frames posted in a run, in the order of posting. */
  function Posted(steps: seq<Step>): seq<Stamp> {
    if steps == [] then [] else
      var s, step := Run(Before(steps)), steps[|steps| - 1];
      Posted(Before(steps)) + if Posts(s, step) then [s.submitters[step.id].stamp] else []
  }

  /** How many of the frames posted in a run have left the mailbox. */
  function Left(steps: seq<Step>): int { |Posted(steps)| - |Run(steps).box| }

  /** The stamps of the frames that the worker took. */
  function Taken(steps: seq<Step>): seq<Stamp> {
    if steps == [] then [] else
      var s, step := Run(Before(steps)), steps[|steps| - 1];
      Taken(Before(steps)) + if Takes(s, step) then [Next(s, step).worker.stamp] else []
  }

  /** The places among the posted frames of those that the worker took. */
  function TakenAt(steps: seq<Step>): seq<int> {
    if steps == [] then [] else
      var s, step := Run(Before(steps)), steps[|steps| - 1];
      TakenAt(Before(steps)) + if Takes(s, step) then [Left(Before(steps))] else []
  }

  /** The places among the taken frames of those for which a sink was called. */
  function CalledAt(steps: seq<Step>): seq<int> {
    if steps == [] then [] else
      var s, step := Run(Before(steps)), steps[|steps| - 1];
      CalledAt(Before(steps)) + if Calls(s, step) then [|Taken(Before(steps))| - 1] else []
  }

  predicate Increasing(a: seq<int>) { forall i, j | 0 <= i < j < |a| :: a[i] < a[j] }

  predicate Below(a: seq<int>, n: int) { forall i | 0 <= i < |a| :: 0 <= a[i] < n }

  lemma IncreasingMore(a: seq<int>, n: int)
    requires Increasing(a) && Below(a, n) && 0 <= n
    ensures Increasing(a + [n]) && Below(a + [n], n + 1)
  {
  }

  // ----- The mailbox is the end of what was posted

  /** What a step does to the mailbox: post, take, empty it, or nothing. */
  lemma BoxStep(s: State, step: Step)
    ensures
      var box := Next(s, step).box;
      if Posts(s, step) then box == WakeMailbox.Posted(s.box, s.submitters[step.id].stamp) && !Takes(s, step)
      else if Takes(s, step) then s.box != [] && Next(s, step).worker.stamp == s.box[0] && box == s.box[1..]
      else box == s.box || (IsControl(step) && box == [])
  {
    match step
    case SubmitStep(id) =>
      if id < |s.submitters| { SubmitSame(s, id); }
    case WorkerStep(v) => hide NextSubmit;
    case _ => hide NextSubmit, NextWorker;
  }

  /** The mailbox holds the frames posted last, in the order of posting. */
  predicate BoxInv(posted: seq<Stamp>, box: seq<Stamp>) {
    |box| <= |posted| && box == posted[|posted| - |box|..]
  }

  lemma BoxPosted(posted: seq<Stamp>, box: seq<Stamp>, x: Stamp)
    requires BoxInv(posted, box)
    ensures BoxInv(posted + [x], WakeMailbox.Posted(box, x))
    ensures |posted + [x]| - |WakeMailbox.Posted(box, x)| == |posted| - |box| + if |box| == CAPACITY then 1 else 0
  {
    var kept := if |box| == CAPACITY then box[1..] else box;
    assert kept == posted[|posted| - |kept|..];
  }

  lemma BoxTaken(posted: seq<Stamp>, box: seq<Stamp>)
    requires BoxInv(posted, box) && box != []
    ensures BoxInv(posted, box[1..]) && box[0] == posted[|posted| - |box|]
  {
  }

  predicate TakenInv(posted: seq<Stamp>, left: int, taken: seq<Stamp>, at: seq<int>) {
    && |taken| == |at| && left <= |posted| && Increasing(at) && Below(at, left)
    && forall i | 0 <= i < |at| :: taken[i] == posted[at[i]]
  }

  predicate OrderInv(steps: seq<Step>) {
    && BoxInv(Posted(steps), Run(steps).box)
    && TakenInv(Posted(steps), Left(steps), Taken(steps), TakenAt(steps))
  }

  lemma TakenMore(posted: seq<Stamp>, left: int, taken: seq<Stamp>, at: seq<int>)
    requires TakenInv(posted, left, taken, at) && 0 <= left < |posted|
    ensures TakenInv(posted, left + 1, taken + [posted[left]], at + [left])
  {
    IncreasingMore(at, left);
  }

  lemma TakenKept(posted: seq<Stamp>, left: int, taken: seq<Stamp>, at: seq<int>, posted': seq<Stamp>, left': int)
    requires TakenInv(posted, left, taken, at) && posted <= posted' && left <= left' <= |posted'|
    ensures TakenInv(posted', left', taken, at)
  {
  }

  /** How a run that is one step longer is read. */
  lemma OneLonger(steps: seq<Step>, step: Step)
    ensures
      var s, more := Run(steps), steps + [step];
      && Run(more) == Next(s, step)
      && Posted(more) == Posted(steps) + (if Posts(s, step) then [s.submitters[step.id].stamp] else [])
      && Taken(more) == Taken(steps) + (if Takes(s, step) then [Next(s, step).worker.stamp] else [])
      && TakenAt(more) == TakenAt(steps) + (if Takes(s, step) then [Left(steps)] else [])
      && CalledAt(more) == CalledAt(steps) + (if Calls(s, step) then [|Taken(steps)| - 1] else [])
  {
    hide Next, Left, Posts, Takes, Calls;
    assert Before(steps + [step]) == steps;
    OneMore(steps, step);
  }

  /** In either way the mailbox keeps the end of what was posted, and what left it before stays gone. */
  lemma BoxKept(posted: seq<Stamp>, box: seq<Stamp>)
    requires BoxInv(posted, box)
    ensures BoxInv(posted, []) && |box| <= |posted|
  {
  }

  lemma OrderStep(steps: seq<Step>, step: Step)
    requires OrderInv(steps)
    ensures OrderInv(steps + [step])
  {
    var s, more := Run(steps), steps + [step];
    BoxStep(s, step);
    OneLonger(steps, step);
    BoxKept(Posted(steps), s.box);
    hide Run, Next, Posts, Takes, Posted, Taken, TakenAt, BoxInv, TakenInv;
    if Posts(s, step) {
      BoxPosted(Posted(steps), s.box, s.submitters[step.id].stamp);
      hide WakeMailbox.Posted;
      assert Posted(steps) <= Posted(more);
      assert BoxInv(Posted(more), Run(more).box);
      BoxKept(Posted(more), Run(more).box);
      TakenKept(Posted(steps), Left(steps), Taken(steps), TakenAt(steps), Posted(more), Left(more));
    } else if Takes(s, step) {
      BoxTaken(Posted(steps), s.box);
      TakenMore(Posted(steps), Left(steps), Taken(steps), TakenAt(steps));
    } else {
      TakenKept(Posted(steps), Left(steps), Taken(steps), TakenAt(steps), Posted(more), Left(more));
    }
  }

  lemma {:induction false} OrderAlways(steps: seq<Step>)
    ensures OrderInv(steps)
    decreases |steps|
  {
    if steps != [] {
      OrderAlways(Before(steps));
      hide OrderInv;
      OrderStep(Before(steps), steps[|steps| - 1]);
      assert Before(steps) + [steps[|steps| - 1]] == steps;
    }
  }

  /**
   In every run: the mailbox holds the frames posted last, and the frames that the worker took are posted frames,
   taken in the order of posting and each at most once; none of them is still in the mailbox.
   */
  lemma TakenInOrder(steps: seq<Step>)
    ensures
      var posted, taken, at := Posted(steps), Taken(steps), TakenAt(steps);
      var n := |posted| - |Run(steps).box|;
      && 0 <= n && Run(steps).box == posted[n..]
      && |taken| == |at| && Increasing(at) && Below(at, n)
      && forall i | 0 <= i < |at| :: taken[i] == posted[at[i]]
  {
    OrderAlways(steps);
    hide Run, Posted, Taken, TakenAt;
  }

  /**
   A frame leaves the mailbox in three ways only: the worker takes the oldest, a frame posted to a full mailbox
   displaces the oldest, or a Start or a Stop empties it.
   */
  lemma LeavesOnlyThus(steps: seq<Step>, step: Step)
    ensures
      var s, gone := Run(steps), Left(steps + [step]) - Left(steps);
      && gone >= 0
      && (gone > 0 ==>
            || (Takes(s, step) && gone == 1)
            || (Posts(s, step) && gone == 1 && |s.box| == CAPACITY)
            || (IsControl(step) && gone == |s.box|))
  {
    var s := Run(steps);
    OneLonger(steps, step);
    OrderAlways(steps);
    BoxStep(s, step);
    hide Run, Next, Takes, Posted, Taken, TakenAt;
    if Posts(s, step) {
      BoxPosted(Posted(steps), s.box, s.submitters[step.id].stamp);
    }
  }

  // ----- The calls

  /** The worker's frame is the one it took last, and no sink has been called for it yet. */
  predicate CalledInv(s: State, taken: seq<Stamp>, at: seq<int>) {
    && |at| == |s.calls| && Increasing(at) && Below(at, |taken|)
    && (forall i | 0 <= i < |at| :: s.calls[i].stamp == taken[at[i]])
    && (HasStamp(s.worker) ==> taken != [] && s.worker.stamp == taken[|taken| - 1] && Below(at, |taken| - 1))
  }

  /** What a step does to the worker's frame and to the calls. */
  lemma CallStep(s: State, step: Step)
    ensures
      var s' := Next(s, step);
      && (Calls(s, step) ==>
            && HasStamp(s.worker) && !HasStamp(s'.worker) && !Takes(s, step)
            && |s'.calls| == |s.calls| + 1 && s'.calls[..|s.calls|] == s.calls
            && s'.calls[|s.calls|].stamp == s.worker.stamp)
      && (HasStamp(s'.worker) && !Takes(s, step) ==> HasStamp(s.worker) && s'.worker.stamp == s.worker.stamp)
      && (Takes(s, step) ==> !HasStamp(s.worker) && HasStamp(s'.worker))
  {
    match step
    case SubmitStep(id) =>
      if id < |s.submitters| { SubmitSame(s, id); }
      hide NextSubmit;
    case WorkerStep(v) => hide NextSubmit;
    case _ => hide NextSubmit, NextWorker;
  }

  lemma CalledKept(s: State, step: Step, taken: seq<Stamp>, at: seq<int>)
    requires CalledInv(s, taken, at) && !Takes(s, step) && !Calls(s, step)
    ensures CalledInv(Next(s, step), taken, at)
  {
    CallStep(s, step);
    hide Next, HasStamp, Takes, Increasing;
  }

  lemma CalledTakes(s: State, step: Step, taken: seq<Stamp>, at: seq<int>)
    requires CalledInv(s, taken, at) && Takes(s, step)
    ensures CalledInv(Next(s, step), taken + [Next(s, step).worker.stamp], at)
  {
    CallStep(s, step);
    hide Next, HasStamp, Takes, Increasing;
    assert Next(s, step).calls == s.calls;
  }

  lemma CalledCalls(s: State, step: Step, taken: seq<Stamp>, at: seq<int>)
    requires CalledInv(s, taken, at) && Calls(s, step)
    ensures CalledInv(Next(s, step), taken, at + [|taken| - 1])
  {
    CallStep(s, step);
    hide Next, HasStamp, Takes, Calls;
    IncreasingMore(at, |taken| - 1);
    hide Increasing;
    var s' := Next(s, step);
    assert forall i | 0 <= i < |s.calls| :: s'.calls[i] == s'.calls[..|s.calls|][i];
  }

  lemma CalledStep(steps: seq<Step>, step: Step)
    requires CalledInv(Run(steps), Taken(steps), CalledAt(steps))
    ensures var more := steps + [step]; CalledInv(Run(more), Taken(more), CalledAt(more))
  {
    hide Run, Next, HasStamp, Takes, Calls, Taken, CalledAt, CalledInv;
    OneLonger(steps, step);
    var s := Run(steps);
    CallStep(s, step);
    assert CalledAt(steps) + [] == CalledAt(steps) && Taken(steps) + [] == Taken(steps);
    if Calls(s, step) {
      CalledCalls(s, step, Taken(steps), CalledAt(steps));
    } else if Takes(s, step) {
      CalledTakes(s, step, Taken(steps), CalledAt(steps));
    } else {
      CalledKept(s, step, Taken(steps), CalledAt(steps));
    }
  }

  lemma CalledAtFirst()
    ensures CalledInv(Run([]), Taken([]), CalledAt([]))
  {
    assert Run([]) == INITIAL;
    hide Run, Next;
  }

  lemma {:induction false} CalledAlways(steps: seq<Step>)
    ensures CalledInv(Run(steps), Taken(steps), CalledAt(steps))
    decreases |steps|
  {
    hide Run, Taken, CalledAt, CalledInv;
    if steps == [] {
      CalledAtFirst();
    } else {
      CalledAlways(Before(steps));
      CalledStep(Before(steps), steps[|steps| - 1]);
      assert Before(steps) + [steps[|steps| - 1]] == steps;
    }
  }

  /**
   In every run: the sinks are called for frames that were posted, in the order of posting and at most once for each
   frame.
   */
  lemma CalledInOrder(steps: seq<Step>) returns (at: seq<int>)
    ensures |at| == |Run(steps).calls| && Increasing(at) && Below(at, |Posted(steps)|)
    ensures forall i | 0 <= i < |at| :: Run(steps).calls[i].stamp == Posted(steps)[at[i]]
  {
    OrderAlways(steps);
    CalledAlways(steps);
    hide Run, Posted, Taken, TakenAt, CalledAt;
    var c, t := CalledAt(steps), TakenAt(steps);
    at := seq(|c|, i requires 0 <= i < |c| => t[c[i]]);
  }
}
