/**
 The binding use case: a pairing controller behind one lock, with generations that tell the
 sessions apart. Every public operation runs under the lock and is one step here.
 */
module BindingUseCase {
  import opened Wrappers
  import opened P = PairingController

  datatype BindingState =
    | BIdle | Unavailable | BPending | BWaiting | BRetrying | BAlreadyActive | BConfirmed | BExpired
    | BCancelled | BNotFound | BTimedOut | BCredentialRejected | BFailed

  function MapStatus(s: FlowStatus): BindingState {
    match s
    case Idle => BIdle
    case Pending => BPending
    case Waiting => BWaiting
    case Retrying => BRetrying
    case AlreadyActive => BAlreadyActive
    case Confirmed => BConfirmed
    case Expired => BExpired
    case Cancelled => BCancelled
    case NotFound => BNotFound
    case TimedOut => BTimedOut
    case CredentialRejected => BCredentialRejected
    case Failed => BFailed
  }

  datatype BindingResult = BindingResult(
    state: BindingState, displayCode: string, expiresAt: string, expiresInMinutes: int, generation: U64)

  /** The fields of the use case; `bound` says that client and clock are set. */
  datatype Fields = Fields(
    bound: bool, userId: Option<string>, controller: Option<Control>, state: BindingState,
    activeExpiryMinutes: int, generation: U64)

  /** The calls, with everything the outside world contributes to each. */
  datatype Op =
    | Bind(user: Option<string>)
    | SetUserId(user: Option<string>)
    | Start(minutes: int, created: CreateAnswer, now: U64, wall: U64)
    | Poll(now: U64, answer: QueryAnswer)
    | AbortPending(generation: U64)

  predicate Active(f: Fields) { f.controller.Some? && f.controller.value.active }

  /** The unsigned 64-bit increment. */
  function Bump(g: U64): U64 { if g == U64_MAX then 0 else g + 1 }

  function Bare(f: Fields, state: BindingState): BindingResult {
    BindingResult(state, "", "", 0, f.generation)
  }

  function Convert(r: FlowResult, minutes: int, generation: U64): BindingResult {
    BindingResult(MapStatus(r.status), r.displayCode, r.expiresAt, minutes, generation)
  }

  function BindSpec(f: Fields, user: Option<string>): Fields {
    Fields(true, user, None, BIdle, 0, Bump(f.generation))
  }

  function SetUserIdSpec(f: Fields, user: Option<string>): Fields {
    if f.userId != user then Fields(f.bound, user, None, BIdle, 0, Bump(f.generation)) else f
  }

  function StartSpec(f: Fields, minutes: int, created: CreateAnswer, now: U64, wall: U64): (Fields, BindingResult) {
    if !f.bound then (f.(state := Unavailable), Bare(f, Unavailable))
    else if minutes < 1 || minutes > 10 then (f, Bare(f, BFailed))
    else if Active(f) then
      (f.(state := BAlreadyActive),
       BindingResult(BAlreadyActive, f.controller.value.displayCode, f.controller.value.expiresAt,
                     f.activeExpiryMinutes, f.generation))
    else if f.userId.None? || f.userId.value == "" then (f.(state := Unavailable), Bare(f, Unavailable))
    else
      var (c, r) := BeginSpec(NEW_CONTROL, minutes, created, now, wall);
      var began := r.status.Pending?;
      var m := if began then minutes else f.activeExpiryMinutes;
      var g := if began then Bump(f.generation) else f.generation;
      (Fields(f.bound, f.userId, Some(c), MapStatus(r.status), m, g), Convert(r, m, g))
  }

  function PollStep(f: Fields, now: U64, answer: QueryAnswer): (Fields, BindingResult) {
    if !Active(f) then (f, Bare(f, f.state))
    else
      var (c, r) := PollSpec(f.controller.value, now, answer);
      var result := Convert(r, f.activeExpiryMinutes, f.generation);
      (f.(controller := Some(c), state := result.state,
          activeExpiryMinutes := if c.active then f.activeExpiryMinutes else 0), result)
  }

  function AbortSpec(f: Fields, generation: U64): (Fields, BindingResult) {
    if generation != f.generation || !Active(f) then (f, Bare(f, f.state))
    else (f.(controller := None, activeExpiryMinutes := 0, state := BFailed), Bare(f, BFailed))
  }

  class UseCase {
    var bound: bool
    var userId: Option<string>
    var controller: PairingSessionController?
    var state: BindingState
    var activeExpiryMinutes: int
    var generation: U64

    ghost function Model(): Fields
      reads this, controller
    {
      Fields(bound, userId, if controller == null then None else Some(controller.Model()), state,
             activeExpiryMinutes, generation)
    }

    constructor ()
      ensures Model() == Fields(false, None, None, BIdle, 0, 0)
    {
      bound, userId, controller, state, activeExpiryMinutes, generation := false, None, null, BIdle, 0, 0;
    }

    method BindTo(user: Option<string>)
      modifies this
      ensures Model() == BindSpec(old(Model()), user)
    {
      bound := true;
      userId := user;
      controller := null;
      activeExpiryMinutes := 0;
      generation := if generation == U64_MAX then 0 else generation + 1;
      state := BIdle;
    }

    method SetUser(user: Option<string>)
      modifies this
      ensures Model() == SetUserIdSpec(old(Model()), user)
    {
      if userId != user {
        controller := null;
        activeExpiryMinutes := 0;
        generation := if generation == U64_MAX then 0 else generation + 1;
        state := BIdle;
      }
      userId := user;
    }

    method StartBinding(minutes: int, created: CreateAnswer, now: U64, wall: U64) returns (r: BindingResult)
      modifies this
      ensures (Model(), r) == StartSpec(old(Model()), minutes, created, now, wall)
    {
      hide BeginSpec;
      if !bound {
        state := Unavailable;
        return BindingResult(state, "", "", 0, generation);
      }
      if minutes < 1 || minutes > 10 {
        return BindingResult(BFailed, "", "", 0, generation);
      }
      if controller != null && controller.active {
        state := BAlreadyActive;
        return BindingResult(state, controller.displayCode, controller.expiresAt, activeExpiryMinutes, generation);
      }
      if userId.None? || userId.value == "" {
        state := Unavailable;
        return BindingResult(state, "", "", 0, generation);
      }
      var c := new PairingSessionController();
      var flow := c.Begin(minutes, created, now, wall);
      controller := c;
      if flow.status == Pending {
        activeExpiryMinutes := minutes;
        generation := if generation == U64_MAX then 0 else generation + 1;
      }
      r := Convert(flow, activeExpiryMinutes, generation);
      state := r.state;
    }

    method PollOnce(now: U64, answer: QueryAnswer) returns (r: BindingResult)
      modifies this, controller
      ensures (Model(), r) == PollStep(old(Model()), now, answer)
    {
      hide PollSpec;
      if controller == null || !controller.active {
        return BindingResult(state, "", "", 0, generation);
      }
      var flow, _ := controller.Poll(now, answer);
      r := Convert(flow, activeExpiryMinutes, generation);
      state := r.state;
      if !controller.active {
        activeExpiryMinutes := 0;
      }
    }

    method Abort(g: U64) returns (r: BindingResult)
      modifies this
      ensures (Model(), r) == AbortSpec(old(Model()), g)
    {
      if g != generation || controller == null || !controller.active {
        return BindingResult(state, "", "", 0, generation);
      }
      controller := null;
      activeExpiryMinutes := 0;
      state := BFailed;
      return BindingResult(state, "", "", 0, generation);
    }
  }

  // ----- Runs

  function Step(f: Fields, op: Op): (Fields, BindingResult) {
    match op
    case Bind(user) => var g := BindSpec(f, user); (g, Bare(g, g.state))
    case SetUserId(user) => var g := SetUserIdSpec(f, user); (g, Bare(g, g.state))
    case Start(minutes, created, now, wall) => StartSpec(f, minutes, created, now, wall)
    case Poll(now, answer) => PollStep(f, now, answer)
    case AbortPending(g) => AbortSpec(f, g)
  }

  const INITIAL := Fields(false, None, None, BIdle, 0, 0)

  /** The fields after the first operations of a history. */
  function After(ops: seq<Op>): Fields {
    if ops == [] then INITIAL else Step(After(ops[..|ops| - 1]), ops[|ops| - 1]).0
  }

  function ResultAt(ops: seq<Op>, i: nat): BindingResult
    requires i < |ops|
  {
    Step(After(ops[..i]), ops[i]).1
  }

  /** Operation `i` is a start that created a session. */
  predicate StartedAt(ops: seq<Op>, i: nat) {
    i < |ops| && ops[i].Start? && ResultAt(ops, i).state.BPending?
  }

  predicate Inv(f: Fields) {
    if Active(f) then IsValidDisplayCode(f.controller.value.displayCode) && 1 <= f.activeExpiryMinutes <= 10
    else f.activeExpiryMinutes == 0
  }

  lemma PollKeepsCode(c: Control, now: U64, answer: QueryAnswer)
    ensures
      var d := PollSpec(c, now, answer).0;
      d.active ==> c.active && d.displayCode == c.displayCode
  {
  }

  lemma InvStep(f: Fields, op: Op)
    requires Inv(f)
    ensures Inv(Step(f, op).0)
  {
    match op
    case Start(minutes, created, now, wall) =>
      BeginPending(NEW_CONTROL, minutes, created, now, wall);
      hide BeginSpec;
    case Poll(now, answer) =>
      if Active(f) {
        PollKeepsCode(f.controller.value, now, answer);
      }
      hide PollSpec;
    case _ =>
  }

  lemma {:induction false} InvAlways(ops: seq<Op>)
    ensures Inv(After(ops))
  {
    hide Step;
    hide Inv;
    if ops == [] {
      InvInitially();
    } else {
      InvAlways(ops[..|ops| - 1]);
      InvStep(After(ops[..|ops| - 1]), ops[|ops| - 1]);
    }
  }

  lemma InvInitially()
    ensures Inv(INITIAL)
  {
  }

  /** In every history, a start that answers pending or already active carries a six-digit code and a valid expiry. */
  lemma StartCarriesCode(ops: seq<Op>, i: nat)
    requires i < |ops| && ops[i].Start?
    requires ResultAt(ops, i).state.BPending? || ResultAt(ops, i).state.BAlreadyActive?
    ensures IsValidDisplayCode(ResultAt(ops, i).displayCode) && 1 <= ResultAt(ops, i).expiresInMinutes <= 10
  {
    InvAlways(ops[..i]);
    var op := ops[i];
    StartCode(After(ops[..i]), op.minutes, op.created, op.now, op.wall);
    hide StartSpec;
  }

  lemma StartCode(f: Fields, minutes: int, created: CreateAnswer, now: U64, wall: U64)
    requires Inv(f)
    ensures
      var r := StartSpec(f, minutes, created, now, wall).1;
      r.state.BPending? || r.state.BAlreadyActive? ==>
        IsValidDisplayCode(r.displayCode) && 1 <= r.expiresInMinutes <= 10
  {
    BeginPending(NEW_CONTROL, minutes, created, now, wall);
    hide BeginSpec;
  }

  /** Operations that may advance the generation: at most one step each. */
  lemma StepGeneration(f: Fields, op: Op)
    requires f.generation < U64_MAX
    ensures
      var (g, r) := Step(f, op);
      && f.generation <= g.generation <= f.generation + 1 && r.generation == g.generation
      && (op.Start? && r.state.BPending? ==> g.generation == f.generation + 1 && Active(g))
      && (Active(g) && !(op.Start? && r.state.BPending?) ==> Active(f) && g.generation == f.generation)
  {
    match op
    case Start(minutes, created, now, wall) =>
      StartGeneration(f, minutes, created, now, wall);
      hide StartSpec;
    case Poll(now, answer) =>
      if Active(f) {
        PollKeepsCode(f.controller.value, now, answer);
      }
      hide PollSpec;
    case _ =>
  }

  lemma StartGeneration(f: Fields, minutes: int, created: CreateAnswer, now: U64, wall: U64)
    requires f.generation < U64_MAX
    ensures
      var (g, r) := StartSpec(f, minutes, created, now, wall);
      && g.generation == (if r.state.BPending? then f.generation + 1 else f.generation) == r.generation
      && (Active(g) <==> Active(f) || r.state.BPending?)
  {
    BeginPending(NEW_CONTROL, minutes, created, now, wall);
    hide BeginSpec;
  }

  lemma {:induction false} GenerationsGrow(ops: seq<Op>, i: nat)
    requires |ops| <= U64_MAX && i <= |ops|
    ensures After(ops[..i]).generation <= After(ops).generation <= |ops|
    decreases |ops|
  {
    hide Step;
    if i == |ops| {
      assert ops[..i] == ops;
      if ops != [] {
        GenerationsGrow(ops[..i - 1], 0);
        StepGeneration(After(ops[..i - 1]), ops[i - 1]);
      }
    } else {
      var init := ops[..|ops| - 1];
      assert init[..i] == ops[..i];
      GenerationsGrow(init, i);
      StepGeneration(After(init), ops[|ops| - 1]);
    }
  }

  /**
   In every history of fewer than 2^64 operations: generations never decrease, and no two
   sessions share one.
   */
  lemma GenerationsDistinct(ops: seq<Op>, i: nat, j: nat)
    requires |ops| <= U64_MAX && i < j < |ops|
    ensures ResultAt(ops, i).generation <= ResultAt(ops, j).generation
    ensures StartedAt(ops, i) && StartedAt(ops, j) ==> ResultAt(ops, i).generation < ResultAt(ops, j).generation
  {
    hide Step;
    AfterSplit(ops, i);
    GenerationsGrow(ops[..i], 0);
    StepGeneration(After(ops[..i]), ops[i]);
    assert ops[..j][..i + 1] == ops[..i + 1];
    GenerationsGrow(ops[..j], i + 1);
    StepGeneration(After(ops[..j]), ops[j]);
  }

  lemma AfterSplit(ops: seq<Op>, i: nat)
    requires i < |ops|
    ensures After(ops[..i + 1]) == Step(After(ops[..i]), ops[i]).0
  {
    hide Step;
    assert ops[..i + 1][..i] == ops[..i];
  }

  /** A session is active only between the start that created it and the first later change of generation. */
  lemma {:induction false} ActiveSince(ops: seq<Op>) returns (i: nat)
    requires |ops| <= U64_MAX && Active(After(ops))
    ensures StartedAt(ops, i) && ResultAt(ops, i).generation == After(ops).generation
    ensures forall k | i < k <= |ops| :: Active(After(ops[..k])) && After(ops[..k]).generation == After(ops).generation
    decreases |ops|
  {
    hide Step;
    var n := |ops| - 1;
    var init := ops[..n];
    GenerationsGrow(init, 0);
    StepGeneration(After(init), ops[n]);
    assert ops[..n + 1] == ops;
    if ops[n].Start? && Step(After(init), ops[n]).1.state.BPending? {
      i := n;
    } else {
      i := ActiveSince(init);
      assert init[..i] == ops[..i];
      forall k | i < k <= |ops|
        ensures Active(After(ops[..k])) && After(ops[..k]).generation == After(ops).generation
      {
        if k <= n {
          assert init[..k] == ops[..k];
        }
      }
    }
  }

  /**
   An abort ends a session only if its generation is the one returned by the start that created
   that session; in particular a stale abort, issued for an earlier session, changes nothing.
   */
  lemma AbortEndsItsOwn(ops: seq<Op>, i: nat, k: nat)
    requires |ops| <= U64_MAX && i < k < |ops|
    requires StartedAt(ops, i) && ops[k] == AbortPending(ResultAt(ops, i).generation)
    ensures After(ops[..k + 1]) == After(ops[..k])
         || (Active(After(ops[..k])) && !Active(After(ops[..k + 1]))
             && forall j | i < j < k :: !StartedAt(ops, j) && Active(After(ops[..j])))
  {
    var f := After(ops[..k]);
    AfterSplit(ops, k);
    hide Step;
    if ResultAt(ops, i).generation == f.generation && Active(f) {
      var s := ActiveSince(ops[..k]);
      assert ops[..k][..s] == ops[..s] && ops[..k][s] == ops[s];
      assert StartedAt(ops, s);
      if s < i {
        GenerationsDistinct(ops, s, i);
      } else if i < s {
        GenerationsDistinct(ops, i, s);
      }
      forall j | i < j < k
        ensures !StartedAt(ops, j) && Active(After(ops[..j]))
      {
        assert ops[..k][..j] == ops[..j];
        LaterStartDiffers(ops, i, j, k);
      }
    }
    AbortChanges(f, ResultAt(ops, i).generation);
  }

  lemma AbortChanges(f: Fields, g: U64)
    ensures
      var after := Step(f, AbortPending(g)).0;
      if g == f.generation && Active(f) then !Active(after) else after == f
  {
  }

  lemma LaterStartDiffers(ops: seq<Op>, i: nat, j: nat, k: nat)
    requires |ops| <= U64_MAX && i < j < k < |ops| && StartedAt(ops, i)
    requires After(ops[..k]).generation == ResultAt(ops, i).generation
    ensures !StartedAt(ops, j)
  {
    hide Step;
    if StartedAt(ops, j) {
      GenerationsDistinct(ops, i, j);
      AfterSplit(ops, j);
      GenerationsGrow(ops[..j], 0);
      StepGeneration(After(ops[..j]), ops[j]);
      assert ops[..k][..j + 1] == ops[..j + 1];
      GenerationsGrow(ops[..k], j + 1);
    }
  }

  /** The bound on the history is the counter's own: at its last value the next change starts again from zero. */
  lemma GenerationWraps(f: Fields, user: Option<string>)
    requires f.generation == U64_MAX
    ensures Step(f, Bind(user)).0.generation == 0
  {
  }
}
