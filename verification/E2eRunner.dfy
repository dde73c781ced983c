/**
 The end-to-end runner's result, the stage list built from it, and the rules the evidence validator
 puts on status, failed phase and stages.
 */
module E2eRunner {
  import opened Wrappers
  import opened E2eCleanup

  datatype Phase = Prepare | Run | Assert | Collect | Cleanup

  const PHASE_ORDER: seq<Phase> := [Prepare, Run, Assert, Collect, Cleanup]

  datatype Category =
    | Configuration | Infrastructure | Product | Device | External | TimeoutCategory | Interrupted | CleanupCategory

  function PhaseName(p: Phase): string {
    match p
    case Prepare => "prepare"
    case Run => "run"
    case Assert => "assert"
    case Collect => "collect"
    case Cleanup => "cleanup"
  }

  // ----- Safe names

  lemma SafeJoin(a: string, b: string)
    requires SafeName(a) && SafeTail(b) && |a| + |b| <= 64
    ensures SafeName(a + b)
  {
  }

  lemma PhaseNameSafe(p: Phase)
    ensures SafeName(PhaseName(p)) && |PhaseName(p)| <= 7
  {
  }

  // ----- The run

  /** What a phase does; `allPassed` matters for the assert phase only. A controlled failure carries a safe code. */
  datatype PhaseOutcome =
    | Returns(allPassed: bool)
    | Fails(category: Category, code: string)
    | TimesOut
    | IsInterrupted
    | Unexpected

  predicate Controlled(o: PhaseOutcome) { o.Fails? ==> SafeName(o.code) }

  datatype Failure = Failure(category: Category, phase: Phase, code: string)

  /** How an outcome ends the run, if it does. */
  function FailureOf(p: Phase, o: PhaseOutcome): Option<Failure> {
    match o
    case Returns(allPassed) =>
      if p.Assert? && !allPassed then Some(Failure(Product, p, "journey_assertion_failed")) else None
    case Fails(category, code) => Some(Failure(category, p, code))
    case TimesOut => Some(Failure(TimeoutCategory, p, PhaseName(p) + "_timeout"))
    case IsInterrupted => Some(Failure(Interrupted, p, PhaseName(p) + "_interrupted"))
    case Unexpected => Some(Failure(Infrastructure, p, PhaseName(p) + "_unexpected_error"))
  }

  /** The first failing phase from phase `k` on; the phases after it are never entered. */
  function FirstFailure(outcomes: seq<PhaseOutcome>, k: nat): (r: Option<Failure>)
    requires |outcomes| == 4 && k <= 4
    ensures r.Some? ==> r.value.phase != Cleanup
    decreases 4 - k
  {
    if k == 4 then None
    else if FailureOf(PHASE_ORDER[k], outcomes[k]).Some? then FailureOf(PHASE_ORDER[k], outcomes[k])
    else FirstFailure(outcomes, k + 1)
  }

  datatype RunnerResult = RunnerResult(
    passed: bool, category: Option<Category>, failedPhase: Option<Phase>, message: string,
    primaryCategory: Option<Category>, primaryPhase: Option<Phase>, primaryMessage: string, cleanupErrors: seq<string>)

  function MessageOf(f: Option<Failure>): string { if f.Some? then f.value.code else "run_passed" }
  function CategoryOf(f: Option<Failure>): Option<Category> { if f.Some? then Some(f.value.category) else None }
  function PhaseOf(f: Option<Failure>): Option<Phase> { if f.Some? then Some(f.value.phase) else None }

  /** What cleanup makes of the run: its first error, else its interrupt, else what the phases gave. */
  function FinalFailure(primary: Option<Failure>, c: PassResult): Option<Failure> {
    if c.errors != [] then Some(Failure(CleanupCategory, Cleanup, c.errors[0]))
    else if c.interrupted then Some(Failure(Interrupted, Cleanup, "cleanup_interrupted"))
    else primary
  }

  /** The result from the first failing phase and the outcome of cleanup. */
  function ResultOf(primary: Option<Failure>, c: PassResult): RunnerResult {
    var f := FinalFailure(primary, c);
    RunnerResult(f.None?, CategoryOf(f), PhaseOf(f), MessageOf(f),
                 CategoryOf(primary), PhaseOf(primary), MessageOf(primary), c.errors)
  }

  /** The results given before a run has a context of its own. */
  function Refused(code: string): RunnerResult {
    RunnerResult(false, Some(Infrastructure), Some(Prepare), code, Some(Infrastructure), Some(Prepare), code, [])
  }

  /** Everything a run depends on. `mainThread` and `contextMade` are the two conditions checked up front. */
  datatype Script = Script(mainThread: bool, contextMade: bool, outcomes: seq<PhaseOutcome>,
                           first: seq<Event>, second: seq<Event>, deadline: int)

  predicate ValidScript(s: Script) {
    |s.outcomes| == 4 && forall i | 0 <= i < 4 :: Controlled(s.outcomes[i])
  }

  function RunOutcome(s: Script, es: seq<Entry>): RunnerResult
    requires ValidScript(s) && |s.first| == |s.second| == |es|
  {
    if !s.mainThread then Refused("runner_requires_main_thread")
    else if !s.contextMade then Refused("context_initialization_failed")
    else ResultOf(FirstFailure(s.outcomes, 0), BothPasses(es, s.first, s.second, s.deadline))
  }

  method RunPhases(outcomes: seq<PhaseOutcome>) returns (category: Option<Category>, failed: Option<Phase>, message: string)
    requires |outcomes| == 4
    ensures var f := FirstFailure(outcomes, 0);
            category == CategoryOf(f) && failed == PhaseOf(f) && message == MessageOf(f)
  {
    category, failed, message := None, None, "run_passed";
    var k := 0;
    while k < 4
      invariant 0 <= k <= 4 && FirstFailure(outcomes, 0) == FirstFailure(outcomes, k)
      invariant category == None && failed == None && message == "run_passed"
    {
      var phase := PHASE_ORDER[k];
      match outcomes[k] {
        case Returns(allPassed) =>
          if phase.Assert? && !allPassed { return Some(Product), Some(phase), "journey_assertion_failed"; }
        case Fails(c, code) => return Some(c), Some(phase), code;
        case TimesOut => return Some(TimeoutCategory), Some(phase), PhaseName(phase) + "_timeout";
        case IsInterrupted => return Some(Interrupted), Some(phase), PhaseName(phase) + "_interrupted";
        case Unexpected => return Some(Infrastructure), Some(phase), PhaseName(phase) + "_unexpected_error";
      }
      k := k + 1;
    }
  }

  method RunE2e(s: Script, stack: CleanupStack) returns (r: RunnerResult)
    requires ValidScript(s) && |s.first| == |s.second| == |stack.entries|
    requires NoInterrupt(s.second)
    modifies stack
    ensures r == RunOutcome(s, old(stack.entries))
    ensures s.mainThread && s.contextMade ==>
              stack.entries == BothPasses(old(stack.entries), s.first, s.second, s.deadline).entries
  {
    hide FirstFailure, Pass;
    if !s.mainThread { return Refused("runner_requires_main_thread"); }
    if !s.contextMade { return Refused("context_initialization_failed"); }
    var category, failed, message := RunPhases(s.outcomes);
    var primaryCategory, primaryFailed, primaryMessage := category, failed, message;
    var errors, interrupted := stack.Cleanup(s.deadline, s.first);
    if interrupted {
      var again;
      NoInterruptPass(stack.entries, |s.second|, s.second, s.deadline, false);
      errors, again := stack.Cleanup(s.deadline, s.second);
      category, failed, message := Some(Interrupted), Some(Cleanup), "cleanup_interrupted";
    }
    if errors != [] {
      category, failed, message := Some(CleanupCategory), Some(Cleanup), errors[0];
    }
    r := RunnerResult(category.None?, category, failed, message, primaryCategory, primaryFailed, primaryMessage, errors);
  }

  // ----- The stages

  datatype StageStatus = StagePassed | StageFailed | StageSkipped

  datatype Stage = Stage(name: Phase, status: StageStatus, code: string)

  datatype Evidence = Evidence(
    passed: bool, category: Option<Category>, failedPhase: Option<Phase>, message: string, stages: seq<Stage>)

  /** The phase that a stage list shows as failed: the primary failure's, or else the final one's. */
  function ShownPhase(r: RunnerResult): Option<Phase> {
    if r.primaryPhase.Some? then r.primaryPhase else r.failedPhase
  }

  function ShownCode(r: RunnerResult): string { if r.primaryPhase.Some? then r.primaryMessage else r.message }

  /** The stage of phase `k`, given the phase shown as failed: passed before it, skipped after it. */
  function StageAt(k: nat, shown: Option<Phase>, code: string): Stage
    requires k < 4
  {
    if exists j | 0 <= j < k :: shown == Some(PHASE_ORDER[j]) then Stage(PHASE_ORDER[k], StageSkipped, "phase_skipped")
    else if shown == Some(PHASE_ORDER[k]) then Stage(PHASE_ORDER[k], StageFailed, code)
    else Stage(PHASE_ORDER[k], StagePassed, "phase_passed")
  }

  function CleanupStage(r: RunnerResult): Stage {
    if r.failedPhase == Some(Cleanup) then Stage(Cleanup, StageFailed, r.message)
    else Stage(Cleanup, StagePassed, "phase_passed")
  }

  function EvidenceOf(r: RunnerResult): Evidence {
    var shown, code := ShownPhase(r), ShownCode(r);
    Evidence(r.passed, r.category, r.failedPhase, r.message,
             [StageAt(0, shown, code), StageAt(1, shown, code), StageAt(2, shown, code), StageAt(3, shown, code),
              CleanupStage(r)])
  }

  method BuildEvidence(r: RunnerResult) returns (e: Evidence)
    ensures e == EvidenceOf(r)
  {
    var shown, code := ShownPhase(r), ShownCode(r);
    var stages: seq<Stage> := [];
    var failedSeen := false;
    for k := 0 to 4
      invariant |stages| == k && forall i | 0 <= i < k :: stages[i] == StageAt(i, shown, code)
      invariant failedSeen <==> exists j | 0 <= j < k :: shown == Some(PHASE_ORDER[j])
    {
      var phase := PHASE_ORDER[k];
      var stage;
      if failedSeen {
        stage := Stage(phase, StageSkipped, "phase_skipped");
      } else if shown == Some(phase) {
        stage := Stage(phase, StageFailed, code);
        failedSeen := true;
      } else {
        stage := Stage(phase, StagePassed, "phase_passed");
      }
      stages := stages + [stage];
    }
    var cleanupFailed := r.failedPhase == Some(Cleanup);
    stages := stages + [Stage(Cleanup, if cleanupFailed then StageFailed else StagePassed,
                              if cleanupFailed then r.message else "phase_passed")];
    e := Evidence(r.passed, r.category, r.failedPhase, r.message, stages);
  }

  // ----- The validator's rules

  function IndexOf(p: Phase): (k: nat)
    ensures k < 5 && PHASE_ORDER[k] == p
  {
    match p
    case Prepare => 0
    case Run => 1
    case Assert => 2
    case Collect => 3
    case Cleanup => 4
  }

  /** Five stages in order with safe codes. */
  predicate WellFormed(stages: seq<Stage>) {
    |stages| == 5 && forall i | 0 <= i < 5 :: stages[i].name == PHASE_ORDER[i] && SafeName(stages[i].code)
  }

  /** The first four stages: passed before `f`, failed at `f`, skipped after it. */
  predicate FailsAt(stages: seq<Stage>, f: nat)
    requires |stages| == 5
  {
    forall i | 0 <= i < 4 :: stages[i].status == if i < f then StagePassed else if i == f then StageFailed else StageSkipped
  }

  predicate PrimaryFailure(stages: seq<Stage>)
    requires |stages| == 5
  {
    exists i | 0 <= i < 4 :: stages[i].status.StageFailed?
  }

  /** All the rules on status, failed phase and stages. */
  predicate StageRules(e: Evidence) {
    && SafeName(e.message) && WellFormed(e.stages)
    && (if e.passed then e.category.None? && e.failedPhase.None? else e.category.Some? && e.failedPhase.Some?)
    && if e.passed then forall i | 0 <= i < 5 :: e.stages[i].status.StagePassed?
       else
         var f := IndexOf(e.failedPhase.value);
         && e.stages[f].status.StageFailed?
         && if f == 4 && PrimaryFailure(e.stages) then exists p: nat | p < 4 :: FailsAt(e.stages, p)
            else FailsAt(e.stages, f) && (f != 4 ==> e.stages[4].status.StagePassed?)
  }

  method StagesWellFormed(stages: seq<Stage>) returns (ok: bool)
    ensures ok <==> WellFormed(stages)
  {
    hide SafeName;
    if |stages| != 5 { return false; }
    for i := 0 to 5
      invariant forall k | 0 <= k < i :: SafeName(stages[k].code)
    {
      if !SafeName(stages[i].code) { return false; }
    }
    for i := 0 to 5
      invariant forall k | 0 <= k < i :: stages[k].name == PHASE_ORDER[k]
    {
      if stages[i].name != PHASE_ORDER[i] { return false; }
    }
    ok := true;
  }

  /** The numbers of the failed stages among the first four. */
  method PrimaryFailures(stages: seq<Stage>) returns (found: seq<nat>)
    requires |stages| == 5
    ensures found != [] <==> PrimaryFailure(stages)
    ensures forall p: nat | FailsAt(stages, p) && p < 4 :: found == [p]
    ensures forall k | 0 <= k < |found| :: found[k] < 4
  {
    found := [];
    for i := 0 to 4
      invariant found != [] <==> exists k | 0 <= k < i :: stages[k].status.StageFailed?
      invariant forall p: nat | FailsAt(stages, p) && p < 4 :: found == if p < i then [p] else []
      invariant forall k | 0 <= k < |found| :: found[k] < 4
    {
      if stages[i].status.StageFailed? { found := found + [i]; }
    }
  }

  method MatchesFailure(stages: seq<Stage>, f: nat) returns (ok: bool)
    requires |stages| == 5
    ensures ok <==> FailsAt(stages, f)
  {
    for i := 0 to 4
      invariant forall k | 0 <= k < i ::
                  stages[k].status == if k < f then StagePassed else if k == f then StageFailed else StageSkipped
    {
      var expected := if i < f then StagePassed else StageSkipped;
      if i == f { expected := StageFailed; }
      if stages[i].status != expected { return false; }
    }
    ok := true;
  }

  method ValidateStages(e: Evidence) returns (ok: bool)
    ensures ok <==> StageRules(e)
  {
    hide WellFormed, FailsAt, PrimaryFailure, SafeName;
    if !SafeName(e.message) { return false; }
    if e.passed {
      if e.category.Some? || e.failedPhase.Some? { return false; }
    } else {
      if e.category.None? || e.failedPhase.None? { return false; }
    }
    var formed := StagesWellFormed(e.stages);
    if !formed { return false; }
    assert |e.stages| == 5 by { FiveStages(e.stages); }
    if e.passed {
      for i := 0 to 5
        invariant forall k | 0 <= k < i :: e.stages[k].status.StagePassed?
      {
        if !e.stages[i].status.StagePassed? { return false; }
      }
      return true;
    }
    var f := IndexOf(e.failedPhase.value);
    if !e.stages[f].status.StageFailed? { return false; }
    var primary := PrimaryFailures(e.stages);
    if f == 4 && primary != [] {
      if |primary| != 1 { return false; }
      ok := MatchesFailure(e.stages, primary[0]);
    } else {
      ok := MatchesFailure(e.stages, f);
      if ok && f != 4 { ok := e.stages[4].status.StagePassed?; }
    }
  }

  lemma FiveStages(stages: seq<Stage>)
    requires WellFormed(stages)
    ensures |stages| == 5
  {
  }

  // ----- Every result passes the rules

  lemma PhaseCodesSafe()
    ensures SafeName("run_passed") && SafeName("phase_passed") && SafeName("phase_skipped")
  {
  }

  lemma CleanupCodesSafe()
    ensures SafeName("cleanup_interrupted") && SafeName(TIMEOUT) && SafeName(FAILED)
  {
  }

  lemma RefusalCodesSafe()
    ensures SafeName("runner_requires_main_thread") && SafeName("context_initialization_failed")
  {
  }

  lemma AssertionCodeSafe()
    ensures SafeName("journey_assertion_failed")
  {
  }

  lemma SuffixesSafe()
    ensures SafeTail("_timeout") && SafeTail("_interrupted") && SafeTail("_unexpected_error")
  {
  }

  lemma FailureCodeSafe(p: Phase, o: PhaseOutcome)
    requires Controlled(o)
    ensures FailureOf(p, o).Some? ==> SafeName(FailureOf(p, o).value.code)
  {
    SuffixesSafe();
    AssertionCodeSafe();
    PhaseNameSafe(p);
    hide SafeName, PhaseName, SafeTail;
    match o
    case TimesOut => SafeJoin(PhaseName(p), "_timeout");
    case IsInterrupted => SafeJoin(PhaseName(p), "_interrupted");
    case Unexpected => SafeJoin(PhaseName(p), "_unexpected_error");
    case _ =>
  }

  lemma {:induction false} FirstFailureSafe(outcomes: seq<PhaseOutcome>, k: nat)
    requires |outcomes| == 4 && k <= 4 && forall i | 0 <= i < 4 :: Controlled(outcomes[i])
    ensures FirstFailure(outcomes, k).Some? ==> SafeName(FirstFailure(outcomes, k).value.code)
    decreases 4 - k
  {
    hide SafeName, FailureOf;
    if k < 4 {
      FailureCodeSafe(PHASE_ORDER[k], outcomes[k]);
      FirstFailureSafe(outcomes, k + 1);
    }
  }

  predicate SafeErrors(errors: seq<string>) { forall i | 0 <= i < |errors| :: errors[i] == TIMEOUT || errors[i] == FAILED }

  lemma {:induction false} PassErrors(es: seq<Entry>, n: nat, events: seq<Event>, deadline: int, timedOut: bool)
    requires n <= |es| == |events|
    ensures SafeErrors(Pass(es, n, events, deadline, timedOut).errors)
    decreases n
  {
    if n > 0 {
      var v := VisitEntry(es[n - 1], events[n - 1], deadline, timedOut);
      assert SafeErrors(v.errors);
      hide VisitEntry;
      PassErrors(es[n - 1 := v.entry], n - 1, events, deadline, v.timedOut);
    }
  }

  /** A result whose codes are safe, whose three verdicts go together, and whose failed phase is the primary one or cleanup. */
  predicate Consistent(r: RunnerResult) {
    && SafeName(r.message) && SafeName(r.primaryMessage)
    && (r.passed <==> r.category.None?) && (r.passed <==> r.failedPhase.None?)
    && r.primaryPhase != Some(Cleanup) && (r.primaryPhase.Some? ==> r.failedPhase.Some?)
    && (r.failedPhase == r.primaryPhase || r.failedPhase == Some(Cleanup))
  }

  lemma RunConsistent(s: Script, es: seq<Entry>)
    requires ValidScript(s) && |s.first| == |s.second| == |es|
    ensures Consistent(RunOutcome(s, es))
  {
    PhaseCodesSafe();
    CleanupCodesSafe();
    RefusalCodesSafe();
    FirstFailureSafe(s.outcomes, 0);
    PassErrors(es, |es|, s.first, s.deadline, false);
    PassErrors(Pass(es, |es|, s.first, s.deadline, false).entries, |es|, s.second, s.deadline, false);
    hide SafeName, FirstFailure, Pass;
  }

  /** Stages before the shown phase passed, those after it were skipped. */
  lemma StageStatusAt(k: nat, shown: Option<Phase>, code: string)
    requires k < 4
    ensures var g := StageAt(k, shown, code);
            && g.name == PHASE_ORDER[k] && (g.code == code || g.code == "phase_passed" || g.code == "phase_skipped")
            && (shown.None? ==> g.status == StagePassed)
            && (shown.Some? ==> g.status == var f := IndexOf(shown.value);
                                           if k < f then StagePassed else if k == f then StageFailed else StageSkipped)
  {
    if shown.Some? {
      assert forall j | 0 <= j < 5 :: PHASE_ORDER[j] == shown.value <==> j == IndexOf(shown.value);
    }
  }

  lemma StagesFormed(r: RunnerResult)
    requires Consistent(r)
    ensures WellFormed(EvidenceOf(r).stages)
  {
    PhaseCodesSafe();
    var shown, code := ShownPhase(r), ShownCode(r);
    StageStatusAt(0, shown, code);
    StageStatusAt(1, shown, code);
    StageStatusAt(2, shown, code);
    StageStatusAt(3, shown, code);
    hide SafeName, StageAt, ShownPhase;
  }

  lemma StagesFail(r: RunnerResult)
    ensures var e, shown := EvidenceOf(r), ShownPhase(r);
            && (shown.None? ==> forall i | 0 <= i < 4 :: e.stages[i].status == StagePassed)
            && (shown.Some? ==> FailsAt(e.stages, IndexOf(shown.value)))
  {
    var shown, code := ShownPhase(r), ShownCode(r);
    StageStatusAt(0, shown, code);
    StageStatusAt(1, shown, code);
    StageStatusAt(2, shown, code);
    StageStatusAt(3, shown, code);
    hide StageAt, ShownPhase, ShownCode, IndexOf;
  }

  lemma ConsistentIsValid(r: RunnerResult)
    requires Consistent(r)
    ensures StageRules(EvidenceOf(r))
  {
    StagesFormed(r);
    StagesFail(r);
    hide SafeName, StageAt, WellFormed;
  }

  /** For every outcome of every phase, callback and clock, the evidence satisfies every stage rule. */
  lemma EvidenceAlwaysValid(s: Script, es: seq<Entry>)
    requires ValidScript(s) && |s.first| == |s.second| == |es|
    ensures StageRules(EvidenceOf(RunOutcome(s, es)))
  {
    hide StageRules, EvidenceOf, RunOutcome, Consistent;
    RunConsistent(s, es);
    ConsistentIsValid(RunOutcome(s, es));
  }

  // ----- When a run passes, and how it fails

  /** Phase `k` does what it should: it returns, and the assert phase with all its assertions passed. */
  predicate Fine(outcomes: seq<PhaseOutcome>, k: nat)
    requires k < |outcomes|
  {
    outcomes[k].Returns? && (k == 2 ==> outcomes[k].allPassed)
  }

  lemma {:induction false} NoFailureIff(outcomes: seq<PhaseOutcome>, k: nat)
    requires |outcomes| == 4 && k <= 4
    ensures FirstFailure(outcomes, k).None? <==> forall i | k <= i < 4 :: Fine(outcomes, i)
    decreases 4 - k
  {
    if k < 4 {
      NoFailureIff(outcomes, k + 1);
      assert PHASE_ORDER[k].Assert? <==> k == 2;
      assert FailureOf(PHASE_ORDER[k], outcomes[k]).None? <==> Fine(outcomes, k);
      hide FailureOf;
    }
  }

  /**
   A run is reported as passed if and only if it runs on the main thread with a context of its own, every phase
   returns, all assertions passed, and every cleanup callback finishes in time.
   */
  lemma PassedIff(s: Script, es: seq<Entry>)
    requires ValidScript(s) && |s.first| == |s.second| == |es| && Untouched(es)
    ensures RunOutcome(s, es).passed <==>
              && s.mainThread && s.contextMade
              && (forall k | 0 <= k < 4 :: s.outcomes[k].Returns?) && s.outcomes[2].allPassed
              && (forall i | 0 <= i < |es| :: Clean(es[i], s.first[i], s.deadline))
  {
    NoFailureIff(s.outcomes, 0);
    assert (forall k | 0 <= k < 4 :: Fine(s.outcomes, k))
      <==> (forall k | 0 <= k < 4 :: s.outcomes[k].Returns?) && s.outcomes[2].allPassed by {
      assert Fine(s.outcomes, 2) ==> s.outcomes[2].allPassed;
    }
    CleanIff(es, |es|, s.first, s.deadline);
    hide FirstFailure, Pass, Clean, Fine;
  }

  /** The category and code of a phase that does not do what it should. */
  predicate FailsAs(k: nat, o: PhaseOutcome, category: Category, code: string)
    requires k < 4
  {
    var name := ["prepare", "run", "assert", "collect"][k];
    match o
    case Returns(_) => category.Product? && code == "journey_assertion_failed"
    case Fails(c, m) => category == c && code == m
    case TimesOut => category.TimeoutCategory? && code == name + "_timeout"
    case IsInterrupted => category.Interrupted? && code == name + "_interrupted"
    case Unexpected => category.Infrastructure? && code == name + "_unexpected_error"
  }

  lemma {:induction false} FirstFailureIs(outcomes: seq<PhaseOutcome>, j: nat, k: nat)
    requires |outcomes| == 4 && j <= k < 4 && !Fine(outcomes, k) && forall i | j <= i < k :: Fine(outcomes, i)
    ensures
      var f := FirstFailure(outcomes, j);
      f.Some? && f.value.phase == [Prepare, Run, Assert, Collect][k] && FailsAs(k, outcomes[k], f.value.category, f.value.code)
    decreases k - j
  {
    if j < k {
      assert Fine(outcomes, j);
      FirstFailureIs(outcomes, j + 1, k);
    }
  }

  /**
   How a run fails. The first phase that does not do what it should is the primary failure, with its category and
   code; a cleanup error, or else an interrupt of the cleanup, takes its place in the verdict.
   */
  lemma FailsExactly(s: Script, es: seq<Entry>, k: nat)
    requires ValidScript(s) && |s.first| == |s.second| == |es| && s.mainThread && s.contextMade
    requires k < 4 && !Fine(s.outcomes, k) && forall i | 0 <= i < k :: Fine(s.outcomes, i)
    ensures
      var r, c := RunOutcome(s, es), BothPasses(es, s.first, s.second, s.deadline);
      && !r.passed && r.primaryCategory.Some? && r.primaryPhase == Some([Prepare, Run, Assert, Collect][k])
      && FailsAs(k, s.outcomes[k], r.primaryCategory.value, r.primaryMessage)
      && (c.errors == [] && !c.interrupted ==>
            r.category == r.primaryCategory && r.failedPhase == r.primaryPhase && r.message == r.primaryMessage)
  {
    FirstFailureIs(s.outcomes, 0, k);
    hide FirstFailure, Pass, FailsAs, Fine;
  }

  /** What cleanup makes of the verdict, whatever the phases did. */
  lemma CleanupDecides(s: Script, es: seq<Entry>)
    requires ValidScript(s) && |s.first| == |s.second| == |es| && s.mainThread && s.contextMade
    ensures
      var r, c := RunOutcome(s, es), BothPasses(es, s.first, s.second, s.deadline);
      && r.cleanupErrors == c.errors
      && (c.errors != [] ==>
            !r.passed && r.category == Some(CleanupCategory) && r.failedPhase == Some(Cleanup) && r.message == c.errors[0])
      && (c.errors == [] && c.interrupted ==>
            !r.passed && r.category == Some(Interrupted) && r.failedPhase == Some(Cleanup) && r.message == "cleanup_interrupted")
  {
    hide FirstFailure, Pass;
  }

  /** A run that is not on the main thread, or has no context, fails in prepare before anything is done. */
  lemma RefusedExactly(s: Script, es: seq<Entry>)
    requires ValidScript(s) && |s.first| == |s.second| == |es| && !(s.mainThread && s.contextMade)
    ensures
      var r := RunOutcome(s, es);
      && !r.passed && r.category == Some(Infrastructure) && r.failedPhase == Some(Prepare) && r.cleanupErrors == []
      && r.message == if !s.mainThread then "runner_requires_main_thread" else "context_initialization_failed"
  {
  }

  /** A run that is reported as passed went through every phase and called every cleanup callback exactly once. */
  lemma PassedMeansComplete(s: Script, es: seq<Entry>, i: nat)
    requires ValidScript(s) && |s.first| == |s.second| == |es| && Untouched(es)
    requires RunOutcome(s, es).passed
    ensures forall k | 0 <= k < 4 :: s.outcomes[k].Returns?
    ensures s.outcomes[2].allPassed
    ensures i < |es| ==> BothPasses(es, s.first, s.second, s.deadline).entries[i].runs == 1
  {
    PassedIff(s, es);
    hide FirstFailure, Pass;
    if i < |es| {
      EachCallbackOnce(es, s.first, s.second, s.deadline, i);
      if Pass(es, |es|, s.first, s.deadline, false).entries[i].runs == 0 {
        UnrunReported(es, |es|, s.first, s.deadline, false, i);
      }
    }
  }

  // ----- The stage lists the validator takes

  function Statuses(stages: seq<Stage>): (r: seq<StageStatus>)
    ensures |r| == |stages| && forall i | 0 <= i < |stages| :: r[i] == stages[i].status
  {
    seq(|stages|, i requires 0 <= i < |stages| => stages[i].status)
  }

  /** The four phases with a failure at `k`, or all passed for `k == 4`, and then cleanup. */
  function Pattern(k: nat, cleanup: StageStatus): seq<StageStatus>
    requires k <= 4
  {
    var p, f, s := StagePassed, StageFailed, StageSkipped;
    (if k == 0 then [f, s, s, s] else if k == 1 then [p, f, s, s] else if k == 2 then [p, p, f, s]
     else if k == 3 then [p, p, p, f] else [p, p, p, p]) + [cleanup]
  }

  lemma PatternIs(stages: seq<Stage>, k: nat, cleanup: StageStatus)
    requires |stages| == 5 && k <= 4
    ensures Statuses(stages) == Pattern(k, cleanup) <==> FailsAt(stages, k) && stages[4].status == cleanup
  {
    var a, b := Statuses(stages), Pattern(k, cleanup);
    assert forall i | 0 <= i < 4 :: b[i] == if i < k then StagePassed else if i == k then StageFailed else StageSkipped;
    assert b[4] == cleanup;
    if a == b {
      assert forall i | 0 <= i < 5 :: stages[i].status == b[i];
    }
    if FailsAt(stages, k) && stages[4].status == cleanup {
      assert forall i | 0 <= i < 5 :: a[i] == b[i];
    }
  }

  lemma OnlyPattern(stages: seq<Stage>, k: nat)
    requires |stages| == 5 && k <= 4 && FailsAt(stages, k)
    ensures PrimaryFailure(stages) <==> k < 4
  {
    if k < 4 {
      assert stages[k].status.StageFailed?;
    }
  }

  /**
   All the stage lists that the rules admit, written out: everything passed for a passed run; for a failure in phase `k`, passed
   up to it, failed, then skipped, and cleanup passed; for a failure in cleanup, that failed and the phases all passed, or with
   one primary failure among them.
   */
  lemma RulesWrittenOut(e: Evidence)
    requires WellFormed(e.stages) && SafeName(e.message)
    ensures
      var st := Statuses(e.stages);
      StageRules(e) <==>
        if e.passed then e.category == None && e.failedPhase == None && st == Pattern(4, StagePassed)
        else
          && e.category.Some? && e.failedPhase.Some?
          && if e.failedPhase == Some(Cleanup) then exists k: nat | k <= 4 :: st == Pattern(k, StageFailed)
             else
               exists k: nat | k < 4 ::
                 e.failedPhase == Some([Prepare, Run, Assert, Collect][k]) && st == Pattern(k, StagePassed)
  {
    hide WellFormed, SafeName, Pattern;
    assert |e.stages| == 5 by { FiveStages(e.stages); }
    forall k: nat, c: StageStatus | k <= 4
      ensures Statuses(e.stages) == Pattern(k, c) <==> FailsAt(e.stages, k) && e.stages[4].status == c
      ensures FailsAt(e.stages, k) ==> (PrimaryFailure(e.stages) <==> k < 4)
    {
      PatternIs(e.stages, k, c);
      if FailsAt(e.stages, k) {
        OnlyPattern(e.stages, k);
      }
    }
    hide Statuses, PrimaryFailure;
    if e.passed {
      assert FailsAt(e.stages, 4) <==> forall i | 0 <= i < 4 :: e.stages[i].status.StagePassed?;
    } else if e.failedPhase.Some? && e.category.Some? {
      var f := IndexOf(e.failedPhase.value);
      var st := Statuses(e.stages);
      assert FailsAt(e.stages, f) && f < 4 ==> e.stages[f].status.StageFailed?;
      hide FailsAt;
      if f == 4 {
        if k: nat :| k <= 4 && st == Pattern(k, StageFailed) {
          assert FailsAt(e.stages, k) && e.stages[4].status.StageFailed?;
        }
        if StageRules(e) {
          var k: nat :| k <= 4 && FailsAt(e.stages, k);
          assert st == Pattern(k, StageFailed);
        }
      } else {
        PhaseAt(e.failedPhase.value);
        assert st == Pattern(f, StagePassed) <==> FailsAt(e.stages, f) && e.stages[4].status == StagePassed;
      }
    }
  }

  lemma PhaseAt(p: Phase)
    requires p != Cleanup
    ensures IndexOf(p) < 4 && forall k: nat | k < 4 :: p == [Prepare, Run, Assert, Collect][k] <==> k == IndexOf(p)
  {
  }
}
