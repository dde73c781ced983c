/**
 The pairing session controller: one active session with a local deadline, back-off and a
 single poll at or after the deadline. The client's answers and the clocks are parameters.
 */
module PairingController {
  import opened Wrappers
  import Timestamps

  const U64_MAX: nat := 0xFFFF_FFFF_FFFF_FFFF
  const POLL_INTERVAL_MS: nat := 3000
  const INITIAL_RETRY_MS: nat := 2000
  const MAXIMUM_RETRY_MS: nat := 5000

  type U64 = x: nat | x <= U64_MAX

  function SaturatingAdd(left: U64, right: U64): U64 {
    if right > U64_MAX - left then U64_MAX else left + right
  }

  /** Exactly six decimal digits. */
  predicate IsValidDisplayCode(code: string) {
    |code| == 6 && forall i | 0 <= i < |code| :: '0' <= code[i] <= '9'
  }

  datatype FlowStatus =
    | Idle | Pending | Waiting | Retrying | AlreadyActive | Confirmed | Expired | Cancelled
    | NotFound | TimedOut | CredentialRejected | Failed

  datatype FlowResult = FlowResult(status: FlowStatus, displayCode: string, expiresAt: string)

  datatype ClientStatus = Success | Denied | Gone | Retryable | Refused | InvalidResponse

  /** A session as the gateway describes it. */
  datatype Session = Session(
    id: string, userId: Option<string>, createdAt: string, expiresAt: string,
    allowedPlatforms: Option<seq<string>>, status: string)

  datatype Created = Created(session: Session, displayCode: string)

  datatype CreateAnswer = CreateAnswer(status: ClientStatus, value: Option<Created>)

  datatype QueryAnswer = QueryAnswer(status: ClientStatus, value: Option<Session>)

  /** The controller's fields. */
  datatype Control = Control(
    active: bool, sessionId: string, displayCode: string, expiresAt: string, createdAt: string,
    userId: Option<string>, allowedPlatforms: Option<seq<string>>,
    deadline: U64, nextPoll: U64, retryAttempts: nat, finalPollAttempted: bool)

  const NEW_CONTROL := Control(false, "", "", "", "", None, None, 0, 0, 0, false)

  // ----- Operations as functions of the fields

  function Finished(c: Control): Control {
    c.(active := false, sessionId := "", displayCode := "", retryAttempts := 0)
  }

  function FinishResult(c: Control, status: FlowStatus): FlowResult {
    FlowResult(status, "", c.expiresAt)
  }

  /** The requested duration, multiplied in 64-bit unsigned arithmetic. */
  function RequestedMs(minutes: int): U64 {
    minutes * 60000 % (U64_MAX + 1)
  }

  function Remembered(c: Control, v: Created): Control {
    c.(active := true, sessionId := v.session.id, displayCode := v.displayCode, expiresAt := v.session.expiresAt,
       createdAt := v.session.createdAt, userId := v.session.userId, allowedPlatforms := v.session.allowedPlatforms)
  }

  /** The server's window is readable, not empty and not longer than asked for. */
  predicate WindowOk(v: Created, minutes: int) {
    var created, expiry := Timestamps.PairingMillis(v.session.createdAt), Timestamps.PairingMillis(v.session.expiresAt);
    created.Some? && expiry.Some? && created.value < expiry.value && expiry.value - created.value <= RequestedMs(minutes)
  }

  /** The local lifetime of a session created when the wall clock shows `wall`. */
  function LifetimeMs(v: Created, minutes: int, wall: U64): U64
    requires WindowOk(v, minutes) && Timestamps.PairingMillis(v.session.expiresAt).value > wall
  {
    var left := Timestamps.PairingMillis(v.session.expiresAt).value - wall;
    if RequestedMs(minutes) < left then RequestedMs(minutes) else left
  }

  function BeginSpec(c: Control, minutes: int, answer: CreateAnswer, now: U64, wall: U64): (Control, FlowResult) {
    if c.active then (c, FlowResult(AlreadyActive, "", c.expiresAt))
    else if !answer.status.Success? || answer.value.None? then
      (c, FlowResult(if answer.status.Denied? then CredentialRejected else Failed, "", ""))
    else if !IsValidDisplayCode(answer.value.value.displayCode) then (c, FlowResult(Failed, "", ""))
    else
      OpenSpec(Remembered(c, answer.value.value), answer.value.value, minutes, now, wall)
  }

  /** The second half of a begin: check the server's window and set the local times. */
  function OpenSpec(d: Control, v: Created, minutes: int, now: U64, wall: U64): (Control, FlowResult) {
    if !WindowOk(v, minutes) then (Finished(d), FinishResult(d, Failed))
    else if Timestamps.PairingMillis(v.session.expiresAt).value <= wall then (Finished(d), FinishResult(d, TimedOut))
    else
      (d.(deadline := SaturatingAdd(now, LifetimeMs(v, minutes, wall)),
          nextPoll := SaturatingAdd(now, POLL_INTERVAL_MS), retryAttempts := 0, finalPollAttempted := false),
       FlowResult(Pending, d.displayCode, d.expiresAt))
  }

  /** Back-off after `attempts` earlier retries: doubling from two seconds, at most five. */
  function RetryDelay(attempts: nat): nat {
    if attempts == 0 then 2000 else if attempts == 1 then 4000 else 5000
  }

  function Min(a: U64, b: U64): U64 { if a < b then a else b }

  predicate SameSession(c: Control, s: Session) {
    s.expiresAt == c.expiresAt && s.createdAt == c.createdAt && s.userId == c.userId
    && s.allowedPlatforms == c.allowedPlatforms
  }

  /** Whether a poll at `now` asks the gateway. */
  predicate Queries(c: Control, now: U64) {
    c.active && (if now >= c.deadline then !c.finalPollAttempted else now >= c.nextPoll)
  }

  /** What a poll does with the gateway's answer. */
  function Answered(c: Control, now: U64, answer: QueryAnswer): (Control, FlowResult) {
    var final := now >= c.deadline;
    var d := if final then c.(finalPollAttempted := true) else c;
    if answer.status.Retryable? then
      if final then (Finished(d), FinishResult(d, TimedOut))
      else
        (d.(retryAttempts := if d.retryAttempts < 31 then d.retryAttempts + 1 else d.retryAttempts,
            nextPoll := Min(SaturatingAdd(now, RetryDelay(c.retryAttempts)), c.deadline)),
         FlowResult(Retrying, "", d.expiresAt))
    else if answer.status.Gone? then (Finished(d), FinishResult(d, NotFound))
    else if answer.status.Denied? then (Finished(d), FinishResult(d, CredentialRejected))
    else if !answer.status.Success? || answer.value.None? then (Finished(d), FinishResult(d, Failed))
    else if !SameSession(d, answer.value.value) then (Finished(d), FinishResult(d, Failed))
    else if answer.value.value.status == "confirmed" then (Finished(d), FinishResult(d, Confirmed))
    else if answer.value.value.status == "expired" then (Finished(d), FinishResult(d, Expired))
    else if answer.value.value.status == "cancelled" then (Finished(d), FinishResult(d, Cancelled))
    else if final then (Finished(d), FinishResult(d, TimedOut))
    else
      (d.(retryAttempts := 0, nextPoll := Min(SaturatingAdd(now, POLL_INTERVAL_MS), c.deadline)),
       FlowResult(Pending, "", d.expiresAt))
  }

  function PollSpec(c: Control, now: U64, answer: QueryAnswer): (Control, FlowResult) {
    if !c.active then (c, FlowResult(Idle, "", ""))
    else if Queries(c, now) then Answered(c, now, answer)
    else if now >= c.deadline then (Finished(c), FinishResult(c, TimedOut))
    else (c, FlowResult(Waiting, "", c.expiresAt))
  }

  // ----- The controller

  class PairingSessionController {
    var active: bool
    var sessionId: string
    var displayCode: string
    var expiresAt: string
    var createdAt: string
    var userId: Option<string>
    var allowedPlatforms: Option<seq<string>>
    var deadline: U64
    var nextPoll: U64
    var retryAttempts: nat
    var finalPollAttempted: bool

    ghost function Model(): Control
      reads this
    {
      Control(active, sessionId, displayCode, expiresAt, createdAt, userId, allowedPlatforms,
              deadline, nextPoll, retryAttempts, finalPollAttempted)
    }

    constructor ()
      ensures Model() == NEW_CONTROL
    {
      active, sessionId, displayCode, expiresAt, createdAt := false, "", "", "", "";
      userId, allowedPlatforms, deadline, nextPoll := None, None, 0, 0;
      retryAttempts, finalPollAttempted := 0, false;
    }

    method Finish(status: FlowStatus) returns (r: FlowResult)
      modifies this
      ensures Model() == Finished(old(Model())) && r == FinishResult(old(Model()), status)
    {
      r := FlowResult(status, "", expiresAt);
      active := false;
      sessionId := "";
      displayCode := "";
      retryAttempts := 0;
    }

    method Begin(minutes: int, answer: CreateAnswer, now: U64, wall: U64) returns (r: FlowResult)
      modifies this
      ensures (Model(), r) == BeginSpec(old(Model()), minutes, answer, now, wall)
    {
      hide Timestamps.PairingMillis;
      hide RequestedMs;
      hide IsValidDisplayCode;
      if active {
        return FlowResult(AlreadyActive, "", expiresAt);
      }
      if answer.status != Success || answer.value.None? {
        return FlowResult(if answer.status == Denied then CredentialRejected else Failed, "", "");
      }
      var v := answer.value.value;
      if !IsValidDisplayCode(v.displayCode) {
        return FlowResult(Failed, "", "");
      }
      active := true;
      sessionId := v.session.id;
      displayCode := v.displayCode;
      expiresAt := v.session.expiresAt;
      createdAt := v.session.createdAt;
      userId := v.session.userId;
      allowedPlatforms := v.session.allowedPlatforms;
      r := OpenWindow(v, minutes, now, wall);
    }

    method OpenWindow(v: Created, minutes: int, now: U64, wall: U64) returns (r: FlowResult)
      requires createdAt == v.session.createdAt && expiresAt == v.session.expiresAt
      modifies this
      ensures (Model(), r) == OpenSpec(old(Model()), v, minutes, now, wall)
    {
      hide Timestamps.PairingMillis;
      hide RequestedMs;
      var requested := RequestedMs(minutes);
      var serverCreated := Timestamps.ParseIsoMillis(createdAt);
      var serverExpiry := Timestamps.ParseIsoMillis(expiresAt);
      if serverCreated.None? || serverExpiry.None? || serverExpiry.value <= serverCreated.value
         || serverExpiry.value - serverCreated.value > requested
      {
        r := Finish(Failed);
        return;
      }
      if serverExpiry.value <= wall {
        r := Finish(TimedOut);
        return;
      }
      var left := serverExpiry.value - wall;
      var remaining := if requested < left then requested else left;
      deadline := SaturatingAdd(now, remaining);
      nextPoll := SaturatingAdd(now, POLL_INTERVAL_MS);
      retryAttempts := 0;
      finalPollAttempted := false;
      return FlowResult(Pending, displayCode, expiresAt);
    }

    /** The back-off loop. */
    method Backoff() returns (delay: nat)
      ensures delay == RetryDelay(retryAttempts)
    {
      delay := INITIAL_RETRY_MS;
      for index := 0 to retryAttempts
        invariant delay == RetryDelay(index)
      {
        delay := if delay * 2 < MAXIMUM_RETRY_MS then delay * 2 else MAXIMUM_RETRY_MS;
      }
    }

    /** `answer` is what the gateway says if it is asked; `asked` tells whether it was. */
    method Poll(now: U64, answer: QueryAnswer) returns (r: FlowResult, asked: bool)
      modifies this
      ensures (Model(), r) == PollSpec(old(Model()), now, answer)
      ensures asked == Queries(old(Model()), now)
    {
      if !active {
        return FlowResult(Idle, "", ""), false;
      }
      var finalPoll := now >= deadline;
      if finalPoll && finalPollAttempted {
        r := Finish(TimedOut);
        return r, false;
      }
      if !finalPoll && now < nextPoll {
        return FlowResult(Waiting, "", expiresAt), false;
      }
      if finalPoll {
        finalPollAttempted := true;
      }
      r := TakeAnswer(now, finalPoll, answer);
      return r, true;
    }

    method TakeAnswer(now: U64, finalPoll: bool, answer: QueryAnswer) returns (r: FlowResult)
      requires finalPoll == (now >= deadline) && (finalPoll ==> finalPollAttempted)
      modifies this
      ensures (Model(), r) == Answered(old(Model()), now, answer)
    {
      if answer.status == Retryable {
        if finalPoll {
          r := Finish(TimedOut);
          return;
        }
        var delay := Backoff();
        if retryAttempts < 31 {
          retryAttempts := retryAttempts + 1;
        }
        nextPoll := Min(SaturatingAdd(now, delay), deadline);
        return FlowResult(Retrying, "", expiresAt);
      }
      if answer.status == Gone {
        r := Finish(NotFound);
        return;
      }
      if answer.status == Denied {
        r := Finish(CredentialRejected);
        return;
      }
      if answer.status != Success || answer.value.None? {
        r := Finish(Failed);
        return;
      }
      var s := answer.value.value;
      if s.expiresAt != expiresAt || s.createdAt != createdAt || s.userId != userId
         || s.allowedPlatforms != allowedPlatforms
      {
        r := Finish(Failed);
        return;
      }
      retryAttempts := 0;
      if s.status == "confirmed" {
        r := Finish(Confirmed);
        return;
      }
      if s.status == "expired" {
        r := Finish(Expired);
        return;
      }
      if s.status == "cancelled" {
        r := Finish(Cancelled);
        return;
      }
      if finalPoll {
        r := Finish(TimedOut);
        return;
      }
      nextPoll := Min(SaturatingAdd(now, POLL_INTERVAL_MS), deadline);
      return FlowResult(Pending, "", expiresAt);
    }
  }

  // ----- A session's whole life

  /** A session just begun at `start` with a local lifetime of `life` ms. */
  predicate Begun(c: Control, start: U64, life: U64) {
    c.active && c.deadline == SaturatingAdd(start, life) && c.nextPoll == SaturatingAdd(start, POLL_INTERVAL_MS)
    && !c.finalPollAttempted
  }

  /** A pending answer is given exactly for a well-formed code in an open window, and starts a session of its lifetime. */
  lemma BeginPending(c: Control, minutes: int, answer: CreateAnswer, now: U64, wall: U64)
    requires !c.active
    ensures
      var (d, r) := BeginSpec(c, minutes, answer, now, wall);
      && (r.status.Pending? <==>
            && answer.status.Success? && answer.value.Some? && IsValidDisplayCode(answer.value.value.displayCode)
            && WindowOk(answer.value.value, minutes)
            && wall < Timestamps.PairingMillis(answer.value.value.session.expiresAt).value)
      && d.active == r.status.Pending?
      && (d.active ==>
            var life := LifetimeMs(answer.value.value, minutes, wall);
            Begun(d, now, life) && 0 < life <= RequestedMs(minutes) && IsValidDisplayCode(d.displayCode)
            && r.displayCode == d.displayCode)
  {
    hide Timestamps.PairingMillis;
  }

  datatype Event = Event(now: U64, answer: QueryAnswer)

  function PollAll(c: Control, es: seq<Event>): Control {
    if es == [] then c else PollSpec(PollAll(c, es[..|es| - 1]), es[|es| - 1].now, es[|es| - 1].answer).0
  }

  /** The times at which the gateway was asked, in order. */
  function QueryTimes(c: Control, es: seq<Event>): seq<U64> {
    if es == [] then []
    else
      var e := es[|es| - 1];
      QueryTimes(c, es[..|es| - 1]) + if Queries(PollAll(c, es[..|es| - 1]), e.now) then [e.now] else []
  }

  predicate Monotone(start: U64, es: seq<Event>) {
    && (forall i | 0 <= i < |es| :: start <= es[i].now)
    && forall i, j | 0 <= i < j < |es| :: es[i].now <= es[j].now
  }

  /** The number of queries made before the deadline. */
  function Early(qs: seq<U64>, deadline: U64): nat {
    if qs == [] then 0 else Early(qs[..|qs| - 1], deadline) + if qs[|qs| - 1] < deadline then 1 else 0
  }

  /** What holds after any number of polls: spacing of the queries so far and of the next one. */
  ghost predicate Spaced(c: Control, d: Control, qs: seq<U64>, start: U64, life: U64) {
    var k := Early(qs, c.deadline);
    && d.deadline == c.deadline
    && (d.active ==> !d.finalPollAttempted && |qs| == k && (d.nextPoll >= start + 3000 + 2000 * k || d.nextPoll >= c.deadline))
    && |qs| <= k + 1
    && (|qs| == k + 1 ==> qs[k] >= c.deadline && !d.active)
    && (forall i | 0 <= i < k && i < |qs| :: start + 3000 + 2000 * i <= qs[i] < c.deadline)
    && (k > 0 ==> 2000 * k + 1000 < life)
  }

  lemma EarlySnoc(qs: seq<U64>, q: U64, deadline: U64)
    ensures Early(qs + [q], deadline) == Early(qs, deadline) + if q < deadline then 1 else 0
  {
    assert (qs + [q])[..|qs|] == qs;
  }

  /** One poll keeps the spacing. */
  lemma SpacedStep(c: Control, d: Control, qs: seq<U64>, e: Event, start: U64, life: U64)
    requires Begun(c, start, life) && Spaced(c, d, qs, start, life) && start <= e.now
    ensures
      var next := PollSpec(d, e.now, e.answer).0;
      var more := qs + if Queries(d, e.now) then [e.now] else [];
      && Spaced(c, next, more, start, life)
      && (e.now >= c.deadline ==> !next.active)
  {
    var more := qs + if Queries(d, e.now) then [e.now] else [];
    hide Early;
    if Queries(d, e.now) {
      EarlySnoc(qs, e.now, c.deadline);
    } else {
      assert more == qs;
    }
  }

  /**
   For every monotone clock and every sequence of gateway answers: at most `1 + life / 2000`
   queries, at most one of them at or after the deadline and that one last, and the one numbered `i`
   before the deadline not earlier than three seconds and `i` times two from the start. This holds
   even when a time addition saturates.
   */
  lemma {:induction false} PollBudget(c: Control, start: U64, life: U64, es: seq<Event>)
    requires Begun(c, start, life) && Monotone(start, es)
    ensures Spaced(c, PollAll(c, es), QueryTimes(c, es), start, life)
    ensures |QueryTimes(c, es)| <= 1 + life / 2000
    decreases |es|
  {
    hide PollSpec;
    hide Queries;
    if es != [] {
      var init, e := es[..|es| - 1], es[|es| - 1];
      PollBudget(c, start, life, init);
      SpacedStep(c, PollAll(c, init), QueryTimes(c, init), e, start, life);
    }
  }

  /** Any poll at or after the deadline leaves the session inactive, and it then stays so. */
  lemma {:induction false} InactiveAfterDeadline(c: Control, start: U64, life: U64, es: seq<Event>)
    requires Begun(c, start, life) && Monotone(start, es)
    requires es != [] && es[|es| - 1].now >= c.deadline
    ensures !PollAll(c, es).active
    ensures forall es' | es <= es' :: !PollAll(c, es').active
  {
    var init, e := es[..|es| - 1], es[|es| - 1];
    PollBudget(c, start, life, init);
    SpacedStep(c, PollAll(c, init), QueryTimes(c, init), e, start, life);
    forall es' | es <= es'
      ensures !PollAll(c, es').active
    {
      StaysInactive(c, es, es');
    }
  }

  lemma {:induction false} StaysInactive(c: Control, es: seq<Event>, es': seq<Event>)
    requires es <= es' && !PollAll(c, es).active
    ensures !PollAll(c, es').active
    decreases |es'|
  {
    if |es| < |es'| {
      StaysInactive(c, es, es'[..|es'| - 1]);
    } else {
      assert es == es';
    }
  }

  /** While a session is active its final poll has not been attempted: a timed-out session never needs a second final poll. */
  lemma FinalPollEndsSession(c: Control, start: U64, life: U64, es: seq<Event>)
    requires Begun(c, start, life) && Monotone(start, es)
    ensures PollAll(c, es).active ==> !PollAll(c, es).finalPollAttempted
  {
    PollBudget(c, start, life, es);
  }
}
