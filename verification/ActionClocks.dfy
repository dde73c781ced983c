/**
 What the action channel does at which time: no command is handled once its window has closed, none is executed or
 answered from the cache once it has itself expired, and how each run ends.
 */
module ActionClocks {
  import opened ActionChannel
  import opened ActionLaws
  import opened ActionCursor
  import Timestamps

  /** The command was read for its own device and window. */
  predicate Own(device: string, trigger: string, c: Command) { c.deviceId == device && c.triggerId == trigger }

  /** The command had not expired when it was checked. */
  predicate InTime(e: Event) { EpochMillisOrExpired(e.command.expiresAt) > NowEpochMillis(e.checkClock) }

  /**
   Times that cannot be read count against the command: an unreadable clock is later than any time, and an unreadable
   expiry is 1970, so in both cases the command has expired.
   */
  lemma UnreadableIsExpired(e: Event)
    ensures
      var expiry, now := Timestamps.ChannelMillis(e.command.expiresAt), Timestamps.ChannelMillis(e.checkClock);
      && (expiry.Some? && now.Some? ==> (InTime(e) <==> expiry.value > now.value))
      && (now.None? && (expiry.Some? ==> expiry.value < 0x8000_0000_0000_0000) ==> !InTime(e))
      && (expiry.None? && (now.Some? ==> now.value >= 0) ==> !InTime(e))
  {
  }

  /** The executor's outcome under the command's own ids. */
  predicate IsOutcome(r: ActionResult, e: Event) {
    && r.operationId == e.command.operationId && r.triggerId == e.command.triggerId
    && r.status == e.outcome.status && r.occurredAt == e.outcome.occurredAt && r.details == e.outcome.details
  }

  /** What an entry of the log says about the command it is about and the clocks at which that was handled. */
  predicate Timely(device: string, a: Action) {
    match a
    case RunStarted(_) => true
    case Dropped(t, c, windowMs, e) =>
      c == e.command && !Own(device, t, c) && NowEpochMillis(e.readClock) < windowMs
    case Executed(t, o, windowMs, r, e) =>
      && Own(device, t, e.command) && o == e.command.operationId && InTime(e) && e.reportable
      && NowEpochMillis(e.readClock) < windowMs && IsOutcome(r, e)
    case Reported(t, c, r, report, expired, windowMs, e) =>
      && c == e.command && report == e.report && Own(device, t, c) && NowEpochMillis(e.readClock) < windowMs
      && (expired <==> !InTime(e))
      && (expired ==> r == ActionResult(c.operationId, c.triggerId, "expired", e.stampClock, ""))
  }

  predicate AllTimely(device: string, log: seq<Action>) { forall j | 0 <= j < |log| :: Timely(device, log[j]) }

  /**
   Exactly what handling a command does, by owner, expiry and cache: a command for somebody else is only dropped; an
   expired one executes nothing and is reported as expired, under its own ids and the stamp clock; one that is cached
   is answered with the cached result; any other is executed, and cached and reported if and only if that is reportable.
   */
  lemma HandledExact(p: Progress, w: Window, device: string, e: Event)
    ensures
      var q := Handled(p, w, device, e);
      var c, key, windowMs := e.command, w.triggerId + [31 as char] + e.command.operationId, EpochMillisOrExpired(w.expiresAt);
      if !Own(device, w.triggerId, c) then
        q.log == p.log + [Dropped(w.triggerId, c, windowMs, e)] && q.executed == p.executed && q.executions == p.executions
      else if !InTime(e) then
        var r := ActionResult(c.operationId, c.triggerId, "expired", e.stampClock, "");
        && q.log == p.log + [Reported(w.triggerId, c, r, e.report, true, windowMs, e)]
        && q.executed == p.executed && q.executions == p.executions
      else if key in p.executed then
        && q.log == p.log + [Reported(w.triggerId, c, p.executed[key].result, e.report, false, windowMs, e)]
        && q.executed == p.executed && q.executions == p.executions
      else if !e.reportable then
        q == p.(unconfirmed := true)
      else
        var r := e.outcome.(operationId := c.operationId, triggerId := c.triggerId);
        && q.log == p.log + [Executed(w.triggerId, c.operationId, windowMs, r, e)]
                          + [Reported(w.triggerId, c, r, e.report, false, windowMs, e)]
        && q.executed == p.executed[key := Cached(windowMs, r)] && q.executions == p.executions + 1
  {
    hide EpochMillisOrExpired, NowEpochMillis;
  }

  lemma TimelyHandled(p: Progress, w: Window, device: string, e: Event)
    requires AllTimely(device, p.log) && NowEpochMillis(e.readClock) < EpochMillisOrExpired(w.expiresAt)
    ensures AllTimely(device, Handled(p, w, device, e).log)
  {
    HandledExact(p, w, device, e);
    hide EpochMillisOrExpired, NowEpochMillis, Handled;
  }

  lemma {:induction false} TimelyLoop(p: Progress, w: Window, device: string, s: Script, events: seq<Event>)
    requires AllTimely(device, p.log)
    ensures AllTimely(device, Loop(p, w, device, s, events).0.log)
    decreases |events|
  {
    hide EpochMillisOrExpired, NowEpochMillis, Handled, AllTimely;
    if events != [] && NowEpochMillis(events[0].readClock) < EpochMillisOrExpired(w.expiresAt) {
      TimelyHandled(p, w, device, events[0]);
      TimelyLoop(Handled(p, w, device, events[0]), w, device, s, events[1..]);
    }
  }

  lemma TimelyRun(before: Progress, w: Window, device: string, s: Script)
    requires AllTimely(device, before.log)
    ensures AllTimely(device, RunSpec(before, w, device, s).0.log)
  {
    hide EpochMillisOrExpired, NowEpochMillis, Loop;
    var p := Purged(Begin(before), NowEpochMillis(s.startClock));
    assert AllTimely(device, p.log);
    TimelyLoop(p, w, device, s, s.events);
  }

  /**
   Over every history, every entry of the log is timely: every command was read before its window closed; only own
   commands that had not expired at their check were executed or answered from the cache; and exactly the
   expired ones were reported as expired.
   */
  lemma {:induction false} HistoryTimely(device: string, calls: seq<Call>)
    ensures AllTimely(device, History(device, calls).log)
    decreases |calls|
  {
    if calls != [] {
      var last := calls[|calls| - 1];
      HistoryTimely(device, calls[..|calls| - 1]);
      hide RunSpec;
      TimelyRun(History(device, calls[..|calls| - 1]), last.window, device, last.script);
    }
  }

  // ----- How a run ends

  lemma {:induction false} LoopEnds(p: Progress, w: Window, device: string, s: Script, events: seq<Event>)
    requires !p.unconfirmed
    ensures
      var (q, status) := Loop(p, w, device, s, events);
      var n, windowMs := HandledCount(p, w, device, events), EpochMillisOrExpired(w.expiresAt);
      if q.unconfirmed then status.Disconnected?
      else if n < |events| then status.WindowExpired? && NowEpochMillis(events[n].readClock) >= windowMs
      else if NowEpochMillis(s.lastClock) >= windowMs then status.WindowExpired?
      else status == if s.ending.Broken? then Disconnected else Finished
    decreases |events|
  {
    hide EpochMillisOrExpired, NowEpochMillis, Handled;
    if events != [] && NowEpochMillis(events[0].readClock) < EpochMillisOrExpired(w.expiresAt) {
      var q := Handled(p, w, device, events[0]);
      if !q.unconfirmed {
        LoopEnds(q, w, device, s, events[1..]);
      }
    }
  }

  /**
   How every run ends: at once, with nothing done, when its window has closed; as disconnected when the stream does not
   open, breaks, or leaves a command unconfirmed; as expired when the window closes before a read; and otherwise finished.
   */
  lemma RunEnds(before: Progress, w: Window, device: string, s: Script)
    ensures
      var (q, status) := RunSpec(before, w, device, s);
      var nowMs, windowMs := NowEpochMillis(s.startClock), EpochMillisOrExpired(w.expiresAt);
      if nowMs >= windowMs then
        status.WindowExpired? && q.log == before.log && q.executed == before.executed && q.cursors == before.cursors
      else if !s.opens then
        status.Disconnected? && q.log == before.log + [RunStarted(nowMs)] && q.cursors == before.cursors
      else
        var n := HandledCount(Purged(Begin(before), nowMs), w, device, s.events);
        if q.unconfirmed then status.Disconnected?
        else if n < |s.events| then status.WindowExpired? && NowEpochMillis(s.events[n].readClock) >= windowMs
        else if NowEpochMillis(s.lastClock) >= windowMs then status.WindowExpired?
        else status == if s.ending.Broken? then Disconnected else Finished
  {
    hide EpochMillisOrExpired, NowEpochMillis, Loop, HandledCount;
    LoopEnds(Purged(Begin(before), NowEpochMillis(s.startClock)), w, device, s, s.events);
  }
}
