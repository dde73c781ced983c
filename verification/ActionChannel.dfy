/**
 The IM action channel: it reads reminder commands from a resumable stream, executes each
 operation once, reports the result, and advances a per-trigger cursor on acknowledgement.

 What the network, the executor and the clock do in one run is a script; the log records the
 channel's observable actions so that properties can speak about whole histories.
 */
module ActionChannel {
  import opened Wrappers
  import Timestamps

  datatype Command = Command(
    commandId: string, operationId: string, deviceId: string, triggerId: string, expiresAt: string)

  datatype ActionResult = ActionResult(
    operationId: string, triggerId: string, status: string, occurredAt: string, details: string)

  datatype Report = Submitted | Retryable | CredentialRejected | Refused

  datatype Window = Window(triggerId: string, expiresAt: string)

  datatype Cached = Cached(expiresMs: int, result: ActionResult)

  const INT64_MAX: int := 0x7FFF_FFFF_FFFF_FFFF

  function EpochMillisOrExpired(iso: string): int {
    match Timestamps.ChannelMillis(iso)
    case None => 0
    case Some(v) => v
  }

  function NowEpochMillis(iso: string): int {
    match Timestamps.ChannelMillis(iso)
    case None => INT64_MAX
    case Some(v) => v
  }

  const SEPARATOR: char := 31 as char

  function IdempotencyKey(triggerId: string, operationId: string): string {
    triggerId + [SEPARATOR] + operationId
  }

  // ----- What the outside world does

  /** A command read from the stream, and what happens around it if it is handled. */
  datatype Event = Event(
    readClock: string, command: Command, checkClock: string, stampClock: string,
    outcome: ActionResult, reportable: bool, report: Report)

  datatype Ending = EndOfStream | Broken

  /** One run: the clock at its start, whether the stream opens, what is read, and how reading ends. */
  datatype Script = Script(startClock: string, opens: bool, events: seq<Event>, lastClock: string, ending: Ending)

  // ----- What the channel does

  datatype Status = Finished | Disconnected | WindowExpired

  datatype Action =
    | RunStarted(nowMs: int)
    | Dropped(trigger: string, command: Command, windowMs: int, event: Event)
    | Executed(trigger: string, operation: string, expiresMs: int, result: ActionResult, event: Event)
    | Reported(trigger: string, command: Command, result: ActionResult, report: Report, expired: bool, windowMs: int,
               event: Event)

  /** The channel's fields, its log, and the counters of the current run. */
  datatype Progress = Progress(
    cursors: map<string, string>, executed: map<string, Cached>, log: seq<Action>,
    executions: nat, confirmed: nat, dropped: nat, unconfirmed: bool)

  function Begin(p: Progress): Progress {
    p.(executions := 0, confirmed := 0, dropped := 0, unconfirmed := false)
  }

  function Cursor(p: Progress, trigger: string): string {
    if trigger in p.cursors then p.cursors[trigger] else ""
  }

  /** Reporting a result and settling the gateway's answer. */
  function Settled(p: Progress, w: Window, e: Event, result: ActionResult, expired: bool): Progress {
    var entry := Reported(w.triggerId, e.command, result, e.report, expired, EpochMillisOrExpired(w.expiresAt), e);
    var q := p.(log := p.log + [entry]);
    if e.report.Submitted? then
      q.(cursors := q.cursors[w.triggerId := e.command.commandId], confirmed := q.confirmed + 1)
    else q.(unconfirmed := true)
  }

  predicate IsOurs(w: Window, device: string, c: Command) {
    c.deviceId == device && c.triggerId == w.triggerId
  }

  predicate IsExpired(e: Event) {
    EpochMillisOrExpired(e.command.expiresAt) <= NowEpochMillis(e.checkClock)
  }

  function ExpiredResult(e: Event): ActionResult {
    ActionResult(e.command.operationId, e.command.triggerId, "expired", e.stampClock, "")
  }

  /** The executor's outcome under the command's own identity. */
  function Stamped(e: Event): ActionResult {
    e.outcome.(operationId := e.command.operationId, triggerId := e.command.triggerId)
  }

  function Handled(p: Progress, w: Window, device: string, e: Event): Progress {
    var key := IdempotencyKey(w.triggerId, e.command.operationId);
    if !IsOurs(w, device, e.command) then
      p.(cursors := p.cursors[w.triggerId := e.command.commandId], dropped := p.dropped + 1,
         log := p.log + [Dropped(w.triggerId, e.command, EpochMillisOrExpired(w.expiresAt), e)])
    else if IsExpired(e) then Settled(p, w, e, ExpiredResult(e), true)
    else if key in p.executed then Settled(p, w, e, p.executed[key].result, false)
    else if !e.reportable then p.(unconfirmed := true)
    else
      var expiresMs := EpochMillisOrExpired(w.expiresAt);
      var q := p.(executed := p.executed[key := Cached(expiresMs, Stamped(e))], executions := p.executions + 1,
                  log := p.log + [Executed(w.triggerId, e.command.operationId, expiresMs, Stamped(e), e)]);
      Settled(q, w, e, Stamped(e), false)
  }

  /** The read loop, from `events` on. */
  function Loop(p: Progress, w: Window, device: string, s: Script, events: seq<Event>): (Progress, Status)
    decreases |events|
  {
    var expiresMs := EpochMillisOrExpired(w.expiresAt);
    if events == [] then
      if NowEpochMillis(s.lastClock) >= expiresMs then (p, WindowExpired)
      else if s.ending.Broken? then (p, Disconnected)
      else (p, Finished)
    else if NowEpochMillis(events[0].readClock) >= expiresMs then (p, WindowExpired)
    else
      var q := Handled(p, w, device, events[0]);
      if q.unconfirmed then (q, Disconnected) else Loop(q, w, device, s, events[1..])
  }

  /** Executions whose window is still open at `nowMs`. */
  function Unexpired(executed: map<string, Cached>, nowMs: int): map<string, Cached> {
    map k | k in executed && executed[k].expiresMs > nowMs :: executed[k]
  }

  /** A run that passes the window check purges the cache before it opens the stream. */
  function Purged(p: Progress, nowMs: int): Progress {
    p.(executed := Unexpired(p.executed, nowMs), log := p.log + [RunStarted(nowMs)])
  }

  function RunSpec(before: Progress, w: Window, device: string, s: Script): (Progress, Status) {
    var p := Begin(before);
    var nowMs := NowEpochMillis(s.startClock);
    if nowMs >= EpochMillisOrExpired(w.expiresAt) then (p, WindowExpired)
    else if !s.opens then (Purged(p, nowMs), Disconnected)
    else Loop(Purged(p, nowMs), w, device, s, s.events)
  }

  // ----- The channel

  class ImActionChannel {
    const device: string
    var cursors: map<string, string>
    var executed: map<string, Cached>
    ghost var log: seq<Action>
    var executions: nat
    var confirmed: nat
    var dropped: nat
    var unconfirmed: bool

    ghost function Model(): Progress
      reads this
    {
      Progress(cursors, executed, log, executions, confirmed, dropped, unconfirmed)
    }

    constructor (deviceId: string)
      ensures Model() == EMPTY && device == deviceId
    {
      device := deviceId;
      cursors, executed, log := map[], map[], [];
      executions, confirmed, dropped, unconfirmed := 0, 0, 0, false;
    }

    method Settle(w: Window, e: Event, result: ActionResult, ghost expired: bool)
      modifies this
      ensures Model() == Settled(old(Model()), w, e, result, expired)
    {
      log := log + [Reported(w.triggerId, e.command, result, e.report, expired, EpochMillisOrExpired(w.expiresAt), e)];
      if e.report == Submitted {
        cursors := cursors[w.triggerId := e.command.commandId];
        confirmed := confirmed + 1;
        return;
      }
      unconfirmed := true;
    }

    method HandleCommand(w: Window, e: Event)
      modifies this
      ensures Model() == Handled(old(Model()), w, device, e)
    {
      hide Settled;
      hide EpochMillisOrExpired;
      hide NowEpochMillis;
      var command := e.command;
      if command.deviceId != device || command.triggerId != w.triggerId {
        cursors := cursors[w.triggerId := command.commandId];
        dropped := dropped + 1;
        log := log + [Dropped(w.triggerId, command, EpochMillisOrExpired(w.expiresAt), e)];
        return;
      }
      var commandExpires := Expiry(command.expiresAt);
      var now := Now(e.checkClock);
      if commandExpires <= now {
        Settle(w, e, ActionResult(command.operationId, command.triggerId, "expired", e.stampClock, ""), true);
        return;
      }
      var key := IdempotencyKey(w.triggerId, command.operationId);
      if key in executed {
        Settle(w, e, executed[key].result, false);
        return;
      }
      var outcome := e.outcome.(operationId := command.operationId, triggerId := command.triggerId);
      if !e.reportable {
        unconfirmed := true;
        return;
      }
      var windowExpires := Expiry(w.expiresAt);
      executed := executed[key := Cached(windowExpires, outcome)];
      executions := executions + 1;
      log := log + [Executed(w.triggerId, command.operationId, windowExpires, outcome, e)];
      Settle(w, e, outcome, false);
    }

    /** The loop that drops the results of closed windows. */
    method Purge(nowMs: int)
      modifies this`executed
      ensures executed == Unexpired(old(executed), nowMs)
    {
      var keys := executed.Keys;
      while keys != {}
        invariant keys <= executed.Keys <= old(executed).Keys
        invariant forall k | k in executed :: executed[k] == old(executed)[k]
        invariant forall k | k in old(executed) && k !in keys :: k in executed <==> old(executed)[k].expiresMs > nowMs
        decreases keys
      {
        var k :| k in keys;
        keys := keys - {k};
        if executed[k].expiresMs <= nowMs {
          executed := executed - {k};
        }
      }
    }

    method Run(w: Window, s: Script) returns (status: Status)
      modifies this
      ensures (Model(), status) == RunSpec(old(Model()), w, device, s)
    {
      executions, confirmed, dropped, unconfirmed := 0, 0, 0, false;
      var windowExpires := Expiry(w.expiresAt);
      var now := Now(s.startClock);
      if now >= windowExpires {
        return WindowExpired;
      }
      Purge(now);
      log := log + [RunStarted(now)];
      if !s.opens {
        return Disconnected;
      }
      status := ReadLoop(w, s, windowExpires);
    }

    method ReadLoop(w: Window, s: Script, windowExpires: int) returns (status: Status)
      requires windowExpires == EpochMillisOrExpired(w.expiresAt) && !unconfirmed
      modifies this
      ensures (Model(), status) == Loop(old(Model()), w, device, s, s.events)
    {
      hide Handled;
      hide EpochMillisOrExpired;
      hide NowEpochMillis;
      var i := 0;
      while i < |s.events|
        invariant i <= |s.events| && !unconfirmed
        invariant Loop(old(Model()), w, device, s, s.events) == Loop(Model(), w, device, s, s.events[i..])
      {
        var e := s.events[i];
        assert s.events[i..][0] == e && s.events[i..][1..] == s.events[i + 1..];
        var now := Now(e.readClock);
        if now >= windowExpires {
          return WindowExpired;
        }
        HandleCommand(w, e);
        if unconfirmed {
          return Disconnected;
        }
        i := i + 1;
      }
      var now := Now(s.lastClock);
      if now >= windowExpires {
        return WindowExpired;
      }
      return if s.ending == Broken then Disconnected else Finished;
    }
  }

  method Expiry(iso: string) returns (ms: int)
    ensures ms == EpochMillisOrExpired(iso)
  {
    var v := Timestamps.IsoToEpochMillis(iso);
    return if v.None? then 0 else v.value;
  }

  method Now(iso: string) returns (ms: int)
    ensures ms == NowEpochMillis(iso)
  {
    var v := Timestamps.IsoToEpochMillis(iso);
    return if v.None? then INT64_MAX else v.value;
  }

  const EMPTY := Progress(map[], map[], [], 0, 0, 0, false)
}
