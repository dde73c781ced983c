/**
 What pairing answers, in terms of what the gateway said and when: the status of every begin and of every poll over a
 session's whole life, and the same for the binding use case on top.
 */
module PairingVerdicts {
  import opened Wrappers
  import opened PairingController
  import Timestamps
  import U = BindingUseCase

  // ----- A begin

  /** The server's window can be read, is not empty, and is at most as long as asked for. */
  predicate WindowFits(v: Created, minutes: int) {
    var created, expiry := Timestamps.PairingMillis(v.session.createdAt), Timestamps.PairingMillis(v.session.expiresAt);
    created.Some? && expiry.Some? && created.value < expiry.value <= created.value + RequestedMs(minutes)
  }

  predicate SixDigits(code: string) { |code| == 6 && forall i | 0 <= i < 6 :: '0' <= code[i] <= '9' }

  /** A request between one and ten minutes is that many minutes. */
  lemma RequestedExact(minutes: int)
    requires 0 <= minutes <= 10
    ensures RequestedMs(minutes) == minutes * 60000
  {
  }

  /** Exactly when a begin without a session gives which status. */
  lemma BeginVerdict(c: Control, minutes: int, answer: CreateAnswer, now: U64, wall: U64)
    requires !c.active
    ensures
      var (d, r) := BeginSpec(c, minutes, answer, now, wall);
      var given := answer.status.Success? && answer.value.Some?;
      var code := given && SixDigits(answer.value.value.displayCode);
      var fits := code && WindowFits(answer.value.value, minutes);
      var expired := fits && Timestamps.PairingMillis(answer.value.value.session.expiresAt).value <= wall;
      && (r.status.CredentialRejected? <==> answer.status.Denied?)
      && (r.status.Failed? <==> !answer.status.Denied? && !fits)
      && (r.status.TimedOut? <==> expired)
      && (r.status.Pending? <==> fits && !expired)
      && (d.active <==> r.status.Pending?)
      && (r.status.Pending? ==>
            var v := answer.value.value;
            && r.displayCode == v.displayCode && r.expiresAt == v.session.expiresAt && d.sessionId == v.session.id
            && d.expiresAt == v.session.expiresAt && d.createdAt == v.session.createdAt && d.userId == v.session.userId
            && d.allowedPlatforms == v.session.allowedPlatforms && d.displayCode == v.displayCode)
  {
    hide Timestamps.PairingMillis, RequestedMs;
  }

  function Least(a: int, b: int): int { if a <= b then a else b }

  /** The times of a session that was begun: until the server's expiry, but no longer than asked for, in 64 bits. */
  lemma BeginTimes(c: Control, minutes: int, answer: CreateAnswer, now: U64, wall: U64)
    requires !c.active && BeginSpec(c, minutes, answer, now, wall).1.status.Pending?
    ensures
      var d := BeginSpec(c, minutes, answer, now, wall).0;
      var expiry := Timestamps.PairingMillis(answer.value.value.session.expiresAt).value;
      var life := Least(RequestedMs(minutes), expiry - wall);
      && d.deadline == Least(U64_MAX, now + life) && d.nextPoll == Least(U64_MAX, now + 3000)
      && d.retryAttempts == 0 && !d.finalPollAttempted
  {
    hide Timestamps.PairingMillis, RequestedMs, IsValidDisplayCode;
  }

  /** A begin while a session is active changes nothing. */
  lemma BeginWhileActive(c: Control, minutes: int, answer: CreateAnswer, now: U64, wall: U64)
    requires c.active
    ensures BeginSpec(c, minutes, answer, now, wall) == (c, FlowResult(AlreadyActive, "", c.expiresAt))
  {
  }

  // ----- A poll

  /** The answer is about the very session that was begun. */
  predicate AboutSession(c: Control, a: QueryAnswer) {
    && a.status.Success? && a.value.Some?
    && a.value.value.expiresAt == c.expiresAt && a.value.value.createdAt == c.createdAt
    && a.value.value.userId == c.userId && a.value.value.allowedPlatforms == c.allowedPlatforms
  }

  predicate Says(c: Control, a: QueryAnswer, status: string) { AboutSession(c, a) && a.value.value.status == status }

  /** The gateway says nothing that ends the session. */
  predicate Undecided(c: Control, a: QueryAnswer) {
    AboutSession(c, a) && a.value.value.status != "confirmed" && a.value.value.status != "expired"
    && a.value.value.status != "cancelled"
  }

  /** Exactly which status a poll gives that does, or does not, ask the gateway. */
  predicate Verdict(c: Control, active: bool, asked: bool, now: U64, a: QueryAnswer, status: FlowStatus) {
    && (status.Idle? <==> !active)
    && (status.Waiting? <==> active && !asked)
    && (status.Confirmed? <==> asked && Says(c, a, "confirmed"))
    && (status.Expired? <==> asked && Says(c, a, "expired"))
    && (status.Cancelled? <==> asked && Says(c, a, "cancelled"))
    && (status.NotFound? <==> asked && a.status.Gone?)
    && (status.CredentialRejected? <==> asked && a.status.Denied?)
    && (status.TimedOut? <==> asked && now >= c.deadline && (a.status.Retryable? || Undecided(c, a)))
    && (status.Retrying? <==> asked && now < c.deadline && a.status.Retryable?)
    && (status.Pending? <==> asked && now < c.deadline && Undecided(c, a))
    && (status.Failed? <==> asked && !a.status.Retryable? && !a.status.Gone? && !a.status.Denied? && !AboutSession(c, a))
  }

  /** The poll itself, on a session whose final poll has not been made. */
  lemma PollVerdict(c: Control, now: U64, a: QueryAnswer)
    requires c.active ==> !c.finalPollAttempted
    ensures
      var (d, r) := PollSpec(c, now, a);
      var asked := c.active && (now >= c.nextPoll || now >= c.deadline);
      && asked == Queries(c, now)
      && Verdict(c, c.active, asked, now, a, r.status)
      && (d.active <==> r.status.Waiting? || r.status.Retrying? || r.status.Pending?)
      && (c.active ==> r.expiresAt == c.expiresAt) && r.displayCode == ""
  {
  }

  /** When the next poll may be made, and how retries in a row are counted. */
  lemma NextPollExact(c: Control, now: U64, a: QueryAnswer)
    requires c.active && !c.finalPollAttempted && now < c.deadline && now >= c.nextPoll
    ensures
      var d := PollSpec(c, now, a).0;
      var delay :=
        if Undecided(c, a) then 3000
        else if c.retryAttempts == 0 then 2000 else if c.retryAttempts == 1 then 4000 else 5000;
      Undecided(c, a) || a.status.Retryable? ==>
        && d.nextPoll == (if now + delay < c.deadline then now + delay else c.deadline)
        && d.retryAttempts == (if Undecided(c, a) then 0
                               else if c.retryAttempts < 31 then c.retryAttempts + 1 else c.retryAttempts)
        && d.deadline == c.deadline
  {
  }

  /** What a session is known by does not change while it is active. */
  predicate SameIdentity(c: Control, d: Control) {
    && d.expiresAt == c.expiresAt && d.createdAt == c.createdAt && d.userId == c.userId
    && d.allowedPlatforms == c.allowedPlatforms && d.deadline == c.deadline
  }

  lemma {:induction false} IdentityKept(c: Control, es: seq<Event>)
    ensures SameIdentity(c, PollAll(c, es))
    ensures c.active && !c.finalPollAttempted && PollAll(c, es).active ==> !PollAll(c, es).finalPollAttempted
    ensures PollAll(c, es).active ==> c.active
  {
    if es != [] {
      var init, e := es[..|es| - 1], es[|es| - 1];
      IdentityKept(c, init);
      IdentityStep(PollAll(c, init), e.now, e.answer);
      hide PollSpec;
    }
  }

  lemma IdentityStep(d: Control, now: U64, a: QueryAnswer)
    ensures var next := PollSpec(d, now, a).0;
            && SameIdentity(d, next) && (next.active ==> d.active)
            && (d.active && !d.finalPollAttempted && next.active ==> !next.finalPollAttempted)
  {
  }

  /**
   Over a session's whole life, whatever was polled before: the status of the next poll is decided, exactly so, by
   whether the session is still active, whether the gateway is asked, the clock, and what the gateway says about the
   session as it was begun.
   */
  lemma SessionVerdict(c: Control, start: U64, life: U64, es: seq<Event>, e: Event)
    requires Begun(c, start, life)
    ensures
      var d := PollAll(c, es);
      var r := PollSpec(d, e.now, e.answer).1;
      var asked := d.active && (e.now >= d.nextPoll || e.now >= c.deadline);
      && asked == Queries(d, e.now)
      && Verdict(c, d.active, asked, e.now, e.answer, r.status)
  {
    IdentityKept(c, es);
    PollVerdict(PollAll(c, es), e.now, e.answer);
    hide PollAll, PollSpec;
  }

  // ----- The use case

  /** The state that stands for each status, one for one. */
  predicate Stands(state: U.BindingState, status: FlowStatus) {
    && (state.BIdle? <==> status.Idle?) && (state.BPending? <==> status.Pending?) && (state.BWaiting? <==> status.Waiting?)
    && (state.BRetrying? <==> status.Retrying?) && (state.BAlreadyActive? <==> status.AlreadyActive?)
    && (state.BConfirmed? <==> status.Confirmed?) && (state.BExpired? <==> status.Expired?)
    && (state.BCancelled? <==> status.Cancelled?) && (state.BNotFound? <==> status.NotFound?)
    && (state.BTimedOut? <==> status.TimedOut?) && (state.BCredentialRejected? <==> status.CredentialRejected?)
    && (state.BFailed? <==> status.Failed?) && !state.Unavailable?
  }

  lemma StatesStand(status: FlowStatus)
    ensures Stands(U.MapStatus(status), status)
  {
  }

  /** In every history an active session has not made its final poll. */
  lemma {:induction false} FinalPollOpen(ops: seq<U.Op>)
    ensures U.Active(U.After(ops)) ==> !U.After(ops).controller.value.finalPollAttempted
    decreases |ops|
  {
    if ops != [] {
      var f, op := U.After(ops[..|ops| - 1]), ops[|ops| - 1];
      FinalPollOpen(ops[..|ops| - 1]);
      FinalPollStep(f, op);
      hide U.Step, U.Active;
    }
  }

  lemma FinalPollStep(f: U.Fields, op: U.Op)
    requires U.Active(f) ==> !f.controller.value.finalPollAttempted
    ensures var g := U.Step(f, op).0; U.Active(g) ==> !g.controller.value.finalPollAttempted
  {
    match op
    case Start(minutes, created, now, wall) =>
      BeginPending(NEW_CONTROL, minutes, created, now, wall);
      hide BeginSpec;
    case Poll(now, answer) =>
      if U.Active(f) {
        PollVerdict(f.controller.value, now, answer);
        StillOpen(f.controller.value, now, answer);
      }
      hide PollSpec;
    case _ =>
  }

  lemma StillOpen(c: Control, now: U64, a: QueryAnswer)
    requires c.active && !c.finalPollAttempted
    ensures PollSpec(c, now, a).0.active ==> !PollSpec(c, now, a).0.finalPollAttempted
  {
  }

  /**
   In every history, the state that a poll answers: that of the last call when no session is active, and otherwise the
   one that stands for the verdict on the gateway's answer about the active session. The session ends exactly with a
   terminal verdict.
   */
  lemma UsePollVerdict(ops: seq<U.Op>, i: nat)
    requires i < |ops| && ops[i].Poll?
    ensures
      var f, g, r := U.After(ops[..i]), U.After(ops[..i + 1]), U.ResultAt(ops, i);
      var now, a := ops[i].now, ops[i].answer;
      if !U.Active(f) then g == f && r.state == f.state
      else
        var c := f.controller.value;
        var asked := now >= c.nextPoll || now >= c.deadline;
        && (exists status :: Stands(r.state, status) && Verdict(c, true, asked, now, a, status))
        && (U.Active(g) <==> r.state.BWaiting? || r.state.BRetrying? || r.state.BPending?)
        && g.state == r.state && r.generation == f.generation == g.generation
  {
    var f := U.After(ops[..i]);
    FinalPollOpen(ops[..i]);
    U.AfterSplit(ops, i);
    if U.Active(f) {
      var c := f.controller.value;
      PollVerdict(c, ops[i].now, ops[i].answer);
      var status := PollSpec(c, ops[i].now, ops[i].answer).1.status;
      StatesStand(status);
      hide PollSpec, Verdict, Stands, U.After;
      assert Stands(U.ResultAt(ops, i).state, status);
    }
  }

  /** Exactly which state a start answers, from any fields. */
  lemma UseStartVerdict(f: U.Fields, minutes: int, created: CreateAnswer, now: U64, wall: U64)
    ensures
      var (g, r) := U.StartSpec(f, minutes, created, now, wall);
      if !f.bound then r.state.Unavailable? && g == f.(state := r.state)
      else if minutes < 1 || minutes > 10 then r.state.BFailed? && g == f
      else if U.Active(f) then
        && r.state.BAlreadyActive? && g == f.(state := r.state) && r.displayCode == f.controller.value.displayCode
        && r.expiresAt == f.controller.value.expiresAt && r.expiresInMinutes == f.activeExpiryMinutes
      else if f.userId == None || f.userId == Some("") then r.state.Unavailable? && g == f.(state := r.state)
      else
        var b := BeginSpec(NEW_CONTROL, minutes, created, now, wall);
        && Stands(r.state, b.1.status) && g.state == r.state && g.controller == Some(b.0)
        && r.displayCode == b.1.displayCode && r.expiresAt == b.1.expiresAt
        && (r.state.BPending? ==> r.expiresInMinutes == minutes && r.generation == g.generation)
        && (!r.state.BPending? ==> g.generation == f.generation)
  {
    StatesStand(BeginSpec(NEW_CONTROL, minutes, created, now, wall).1.status);
    hide BeginSpec;
  }

  /** Binding anew ends every session, and so does a change of user; naming the same user again changes nothing. */
  lemma RebindEnds(f: U.Fields, user: Option<string>)
    ensures
      var g := U.Step(f, U.Bind(user)).0;
      !U.Active(g) && g.bound && g.userId == user && g.state.BIdle? && g.activeExpiryMinutes == 0
    ensures
      var g := U.Step(f, U.SetUserId(user)).0;
      if user == f.userId then g == f
      else !U.Active(g) && g.bound == f.bound && g.userId == user && g.state.BIdle? && g.activeExpiryMinutes == 0
  {
  }

  /** An abort of the current session fails it; any other one answers the present state. */
  lemma AbortVerdict(f: U.Fields, generation: U64)
    ensures
      var (g, r) := U.AbortSpec(f, generation);
      if generation == f.generation && U.Active(f) then !U.Active(g) && r.state.BFailed? && g.state.BFailed?
      else g == f && r.state == f.state
  {
  }
}
