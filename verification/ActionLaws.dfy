/**
 What holds of the action channel over every history of runs: at-most-once execution per open
 window, and faithful replays where trigger ids carry no separator.
 */
module ActionLaws {
  import opened ActionChannel

  /** One call of `Run`. */
  datatype Call = Call(window: Window, script: Script)

  function History(device: string, calls: seq<Call>): Progress {
    if calls == [] then EMPTY
    else
      var last := calls[|calls| - 1];
      RunSpec(History(device, calls[..|calls| - 1]), last.window, device, last.script).0
  }

  // ----- Keys

  predicate SeparatorFree(t: string) { SEPARATOR !in t }

  /** Keys tell pairs apart as long as no trigger id contains the separator. */
  lemma {:induction false} KeyInjective(t1: string, o1: string, t2: string, o2: string)
    requires SeparatorFree(t1) && SeparatorFree(t2) && IdempotencyKey(t1, o1) == IdempotencyKey(t2, o2)
    ensures t1 == t2 && o1 == o2
  {
    var k1, k2 := IdempotencyKey(t1, o1), IdempotencyKey(t2, o2);
    assert k1[|t1|] == SEPARATOR && k2[|t2|] == SEPARATOR;
    assert forall i | 0 <= i < |t1| :: k1[i] == t1[i];
    assert forall i | 0 <= i < |t2| :: k2[i] == t2[i];
    assert |t1| == |t2|;
    assert t1 == k1[..|t1|] && t2 == k2[..|t1|];
    assert o1 == k1[|t1| + 1..] && o2 == k2[|t1| + 1..];
  }

  /** A trigger id with the separator inside always shares its keys with another one. */
  lemma KeyCollision(t: string, i: nat, o: string)
    requires i < |t| && t[i] == SEPARATOR
    ensures t[..i] != t && IdempotencyKey(t, o) == IdempotencyKey(t[..i], t[i + 1..] + [SEPARATOR] + o)
  {
    assert t == t[..i] + [SEPARATOR] + t[i + 1..];
  }

  // ----- At most once

  /** Between entries `i` and `j`, a run started at or after the expiry recorded with the execution at `i`. */
  ghost predicate ClosedBetween(log: seq<Action>, i: nat, j: nat) {
    i < |log| && log[i].Executed? && exists k: nat :: Closes(log, i, j, k)
  }

  predicate Closes(log: seq<Action>, i: nat, j: nat, k: nat) {
    i < k < j && k < |log| && i < |log| && log[i].Executed? && log[k].RunStarted? && log[k].nowMs >= log[i].expiresMs
  }

  function KeyOf(a: Action): string
    requires a.Executed? || a.Reported?
  {
    if a.Executed? then IdempotencyKey(a.trigger, a.operation) else IdempotencyKey(a.trigger, a.command.operationId)
  }

  /** Entry `j` reports a result that was executed or cached, not an expiry. */
  predicate IsAnswer(a: Action) { a.Reported? && !a.expired }

  /** An execution is cached as it was recorded until a run closes its window. */
  ghost predicate CachedUntilClosed(executed: map<string, Cached>, log: seq<Action>) {
    forall i | 0 <= i < |log| && log[i].Executed? && !ClosedBetween(log, i, |log|) ::
      KeyOf(log[i]) in executed && executed[KeyOf(log[i])] == Cached(log[i].expiresMs, log[i].result)
  }

  /** Two executions under one key are separated by a run that closed the first one's window. */
  ghost predicate AtMostOnce(log: seq<Action>) {
    forall i, j | 0 <= i < j < |log| && log[i].Executed? && log[j].Executed? && KeyOf(log[i]) == KeyOf(log[j]) ::
      ClosedBetween(log, i, j)
  }

  /** Until then, every answer under that key repeats the first one's result. */
  ghost predicate RepeatsResult(log: seq<Action>) {
    forall i, j | 0 <= i < j < |log| && log[i].Executed? && IsAnswer(log[j]) && KeyOf(log[i]) == KeyOf(log[j]) ::
      ClosedBetween(log, i, j) || log[j].result == log[i].result
  }

  predicate ExecutedAs(log: seq<Action>, i: nat, key: string, result: ActionResult) {
    i < |log| && log[i].Executed? && KeyOf(log[i]) == key && log[i].result == result
  }

  /** Every cached result, and every answer given, comes from an execution under the same key. */
  ghost predicate HasOrigin(executed: map<string, Cached>, log: seq<Action>) {
    && (forall k | k in executed :: exists i: nat :: ExecutedAs(log, i, k, executed[k].result))
    && (forall j | 0 <= j < |log| && IsAnswer(log[j]) ::
          exists i: nat :: i < j && ExecutedAs(log, i, KeyOf(log[j]), log[j].result))
  }

  ghost predicate Inv(executed: map<string, Cached>, log: seq<Action>) {
    && CachedUntilClosed(executed, log)
    && AtMostOnce(log)
    && RepeatsResult(log)
    && HasOrigin(executed, log)
  }

  /** Appending to the log changes nothing about what is before. */
  lemma ClosedStable(log: seq<Action>, a: Action, i: nat, j: nat)
    requires j <= |log|
    ensures ClosedBetween(log, i, j) <==> ClosedBetween(log + [a], i, j)
    ensures ClosedBetween(log + [a], i, j) ==> ClosedBetween(log + [a], i, |log| + 1)
  {
    var more := log + [a];
    if ClosedBetween(log, i, j) {
      var k: nat :| Closes(log, i, j, k);
      assert Closes(more, i, j, k);
    }
    if ClosedBetween(more, i, j) {
      var k: nat :| Closes(more, i, j, k);
      assert Closes(log, i, j, k);
      assert Closes(more, i, |more|, k);
    }
  }

  lemma OriginStable(executed: map<string, Cached>, log: seq<Action>, a: Action)
    requires HasOrigin(executed, log)
    requires IsAnswer(a) ==> KeyOf(a) in executed && executed[KeyOf(a)].result == a.result
    ensures HasOrigin(executed, log + [a])
  {
    var more := log + [a];
    forall k | k in executed
      ensures exists i: nat :: ExecutedAs(more, i, k, executed[k].result)
    {
      var i: nat :| ExecutedAs(log, i, k, executed[k].result);
      assert ExecutedAs(more, i, k, executed[k].result);
    }
    forall j | 0 <= j < |more| && IsAnswer(more[j])
      ensures exists i: nat :: i < j && ExecutedAs(more, i, KeyOf(more[j]), more[j].result)
    {
      var key, result := KeyOf(more[j]), more[j].result;
      if j < |log| {
        assert more[j] == log[j];
        var i: nat :| i < j && ExecutedAs(log, i, key, result);
        assert ExecutedAs(more, i, key, result);
      } else {
        var i: nat :| ExecutedAs(log, i, key, executed[key].result);
        assert ExecutedAs(more, i, key, result);
      }
    }
  }

  ghost predicate SamePast(log: seq<Action>, more: seq<Action>) {
    && |more| == |log| + 1 && (forall i | 0 <= i < |log| :: more[i] == log[i])
    && (forall i: nat, j: nat | j <= |log| :: ClosedBetween(log, i, j) <==> ClosedBetween(more, i, j))
    && (forall i: nat | ClosedBetween(more, i, |log|) :: ClosedBetween(more, i, |more|))
  }

  lemma AppendKeepsPast(log: seq<Action>, a: Action)
    ensures SamePast(log, log + [a])
  {
    var more := log + [a];
    forall i: nat, j: nat | j <= |log|
      ensures ClosedBetween(log, i, j) <==> ClosedBetween(more, i, j)
      ensures ClosedBetween(more, i, j) ==> ClosedBetween(more, i, |more|)
    {
      ClosedStable(log, a, i, j);
    }
    hide ClosedBetween;
  }

  /** What the new entry itself must satisfy for the log's two properties. */
  ghost predicate FitsAfter(executed: map<string, Cached>, a: Action) {
    && (IsAnswer(a) ==> KeyOf(a) in executed && executed[KeyOf(a)].result == a.result)
    && (a.Executed? ==> KeyOf(a) !in executed)
  }

  lemma PropertiesAppend(executed: map<string, Cached>, log: seq<Action>, a: Action)
    requires CachedUntilClosed(executed, log) && AtMostOnce(log) && RepeatsResult(log) && FitsAfter(executed, a)
    ensures AtMostOnce(log + [a]) && RepeatsResult(log + [a])
  {
    var more, n := log + [a], |log|;
    AppendKeepsPast(log, a);
    hide ClosedBetween;
    hide KeyOf;
    forall i, j | 0 <= i < j < |more| && more[i].Executed? && more[j].Executed? && KeyOf(more[i]) == KeyOf(more[j])
      ensures ClosedBetween(more, i, j)
    {
      assert more[i] == log[i] && (j < n ==> more[j] == log[j]);
    }
    forall i, j | 0 <= i < j < |more| && more[i].Executed? && IsAnswer(more[j]) && KeyOf(more[i]) == KeyOf(more[j])
      ensures ClosedBetween(more, i, j) || more[j].result == more[i].result
    {
      assert more[i] == log[i] && (j < n ==> more[j] == log[j]);
    }
  }

  /** An entry that executes nothing and answers at most what is cached keeps the invariant. */
  lemma AppendQuiet(executed: map<string, Cached>, log: seq<Action>, a: Action)
    requires Inv(executed, log) && !a.Executed? && !a.RunStarted?
    requires IsAnswer(a) ==> KeyOf(a) in executed && executed[KeyOf(a)].result == a.result
    ensures Inv(executed, log + [a])
  {
    AppendKeepsPast(log, a);
    PropertiesAppend(executed, log, a);
    OriginStable(executed, log, a);
    hide ClosedBetween;
    hide AtMostOnce;
    hide RepeatsResult;
    hide HasOrigin;
    hide KeyOf;
  }

  lemma AppendExecuted(executed: map<string, Cached>, log: seq<Action>, a: Action)
    requires Inv(executed, log) && a.Executed? && KeyOf(a) !in executed
    ensures Inv(executed[KeyOf(a) := Cached(a.expiresMs, a.result)], log + [a])
  {
    var more, key := log + [a], KeyOf(a);
    var cache := executed[key := Cached(a.expiresMs, a.result)];
    AppendKeepsPast(log, a);
    PropertiesAppend(executed, log, a);
    OriginStable(executed, log, a);
    hide ClosedBetween;
    hide AtMostOnce;
    hide RepeatsResult;
    assert ExecutedAs(more, |log|, key, a.result);
    assert HasOrigin(cache, more);
    hide KeyOf;
    hide HasOrigin;
  }

  lemma RunStartedCloses(log: seq<Action>, nowMs: int)
    ensures
      var more := log + [RunStarted(nowMs)];
      forall i: nat | i < |log| && log[i].Executed? && log[i].expiresMs <= nowMs :: ClosedBetween(more, i, |more|)
  {
    var more := log + [RunStarted(nowMs)];
    forall i: nat | i < |log| && log[i].Executed? && log[i].expiresMs <= nowMs
      ensures ClosedBetween(more, i, |more|)
    {
      assert Closes(more, i, |more|, |log|);
    }
  }

  lemma AppendRunStarted(executed: map<string, Cached>, log: seq<Action>, nowMs: int)
    requires Inv(executed, log)
    ensures Inv(Unexpired(executed, nowMs), log + [RunStarted(nowMs)])
  {
    var a := RunStarted(nowMs);
    AppendKeepsPast(log, a);
    PropertiesAppend(executed, log, a);
    OriginStable(executed, log, a);
    RunStartedCloses(log, nowMs);
    assert HasOrigin(Unexpired(executed, nowMs), log + [a]);
    hide ClosedBetween;
    hide AtMostOnce;
    hide RepeatsResult;
    hide HasOrigin;
    hide KeyOf;
  }

  lemma InvSettled(p: Progress, w: Window, e: Event, result: ActionResult, expired: bool)
    requires Inv(p.executed, p.log)
    requires !expired ==>
      var key := IdempotencyKey(w.triggerId, e.command.operationId);
      key in p.executed && p.executed[key].result == result
    ensures var q := Settled(p, w, e, result, expired); Inv(q.executed, q.log)
  {
    hide Inv;
    var windowMs := EpochMillisOrExpired(w.expiresAt);
    AppendQuiet(p.executed, p.log, Reported(w.triggerId, e.command, result, e.report, expired, windowMs, e));
  }

  lemma InvHandled(p: Progress, w: Window, device: string, e: Event)
    requires Inv(p.executed, p.log)
    ensures var q := Handled(p, w, device, e); Inv(q.executed, q.log)
  {
    hide Inv;
    hide Settled;
    hide EpochMillisOrExpired;
    hide IsExpired;
    var key := IdempotencyKey(w.triggerId, e.command.operationId);
    if !IsOurs(w, device, e.command) {
      AppendQuiet(p.executed, p.log, Dropped(w.triggerId, e.command, EpochMillisOrExpired(w.expiresAt), e));
    } else if IsExpired(e) {
      InvSettled(p, w, e, ExpiredResult(e), true);
    } else if key in p.executed {
      InvSettled(p, w, e, p.executed[key].result, false);
    } else if e.reportable {
      var expiresMs := EpochMillisOrExpired(w.expiresAt);
      var a := Executed(w.triggerId, e.command.operationId, expiresMs, Stamped(e), e);
      AppendExecuted(p.executed, p.log, a);
      var q := p.(executed := p.executed[key := Cached(expiresMs, Stamped(e))], executions := p.executions + 1,
                  log := p.log + [a]);
      InvSettled(q, w, e, Stamped(e), false);
    }
  }

  lemma {:induction false} InvLoop(p: Progress, w: Window, device: string, s: Script, events: seq<Event>)
    requires Inv(p.executed, p.log)
    ensures var q := Loop(p, w, device, s, events).0; Inv(q.executed, q.log)
    decreases |events|
  {
    hide Inv;
    hide Handled;
    hide EpochMillisOrExpired;
    hide NowEpochMillis;
    if events != [] {
      InvHandled(p, w, device, events[0]);
      InvLoop(Handled(p, w, device, events[0]), w, device, s, events[1..]);
    }
  }

  lemma InvRun(p: Progress, w: Window, device: string, s: Script)
    requires Inv(p.executed, p.log)
    ensures var q := RunSpec(p, w, device, s).0; Inv(q.executed, q.log)
  {
    hide Inv;
    hide Loop;
    hide EpochMillisOrExpired;
    hide NowEpochMillis;
    var nowMs := NowEpochMillis(s.startClock);
    AppendRunStarted(p.executed, p.log, nowMs);
    InvLoop(Purged(Begin(p), nowMs), w, device, s, s.events);
  }

  /**
   Over every history of runs, disconnects and replays, the log satisfies `AtMostOnce`,
   `RepeatsResult` and `HasOrigin`.
   */
  lemma {:induction false} HistoryInv(device: string, calls: seq<Call>)
    ensures var p := History(device, calls); Inv(p.executed, p.log)
  {
    if calls != [] {
      var init, last := calls[..|calls| - 1], calls[|calls| - 1];
      HistoryInv(device, init);
      hide Inv;
      hide RunSpec;
      InvRun(History(device, init), last.window, device, last.script);
    }
  }

  /** Two executions of one operation in one trigger are separated by a run at or after the first one's expiry. */
  lemma ExecutedOncePerWindow(device: string, calls: seq<Call>, i: nat, j: nat)
    requires var log := History(device, calls).log;
      && i < j < |log| && log[i].Executed? && log[j].Executed?
      && log[i].trigger == log[j].trigger && log[i].operation == log[j].operation
    ensures var log := History(device, calls).log;
      exists k: nat :: i < k < j && log[k].RunStarted? && log[k].nowMs >= log[i].expiresMs
  {
    HistoryInv(device, calls);
    var log := History(device, calls).log;
    assert ClosedBetween(log, i, j);
    var k: nat :| Closes(log, i, j, k);
  }

  /** Where trigger ids carry no separator, an answer is the result of an execution of that very operation and trigger. */
  lemma AnswersAreGenuine(device: string, calls: seq<Call>, j: nat)
    requires var log := History(device, calls).log;
      && j < |log| && IsAnswer(log[j])
      && forall i | 0 <= i < |log| && (log[i].Executed? || log[i].Reported?) :: SeparatorFree(log[i].trigger)
    ensures var log := History(device, calls).log;
      exists i: nat ::
        && i < j && log[i].Executed? && log[i].trigger == log[j].trigger
        && log[i].operation == log[j].command.operationId && log[i].result == log[j].result
  {
    HistoryInv(device, calls);
    var log := History(device, calls).log;
    hide History;
    var i: nat :| i < j && ExecutedAs(log, i, KeyOf(log[j]), log[j].result);
    KeyInjective(log[i].trigger, log[i].operation, log[j].trigger, log[j].command.operationId);
  }

  // ----- Why the separator matters

  /** A run that reads one command of its own window and then ends. */
  function OneCommand(now: string, e: Event): Script { Script(now, true, [e], now, EndOfStream) }

  lemma RunOne(before: Progress, w: Window, device: string, now: string, e: Event)
    requires e.readClock == now && NowEpochMillis(now) < EpochMillisOrExpired(w.expiresAt)
    ensures RunSpec(before, w, device, OneCommand(now, e)).0
         == Handled(Purged(Begin(before), NowEpochMillis(now)), w, device, e)
  {
    hide Handled, NowEpochMillis, EpochMillisOrExpired, Unexpired;
    var p := Purged(Begin(before), NowEpochMillis(now));
    var s := OneCommand(now, e);
    assert s.events[1..] == [];
    assert Loop(p, w, device, s, s.events).0 == Handled(p, w, device, e);
  }

  /** A command under trigger `t`, read, checked and stamped at `now`, executed with `outcome` if it is executed, and accepted. */
  function CommandOf(id: string, t: string, o: string, device: string, now: string, later: string, outcome: ActionResult): Event {
    Event(now, Command(id, o, device, t, later), now, now, outcome, true, Submitted)
  }

  /** Two runs, one for each of two triggers, with one command each. */
  function Mixed(t1: string, o1: string, t2: string, o2: string, device: string, now: string, later: string,
                 outcome: ActionResult): seq<Call> {
    [Call(Window(t1, later), OneCommand(now, CommandOf("1", t1, o1, device, now, later, outcome))),
     Call(Window(t2, later), OneCommand(now, CommandOf("2", t2, o2, device, now, later, outcome)))]
  }

  lemma FirstOfMixed(t: string, o: string, device: string, now: string, later: string, outcome: ActionResult)
    requires NowEpochMillis(now) < EpochMillisOrExpired(later)
    ensures
      var e := CommandOf("1", t, o, device, now, later, outcome);
      var p := RunSpec(EMPTY, Window(t, later), device, OneCommand(now, e)).0;
      var cached := outcome.(operationId := o, triggerId := t);
      && p.executed == map[IdempotencyKey(t, o) := Cached(EpochMillisOrExpired(later), cached)]
      && |p.log| == 3 && p.log[0].RunStarted? && p.log[1].Executed? && p.log[1].trigger == t && p.log[2].Reported?
  {
    var e := CommandOf("1", t, o, device, now, later, outcome);
    RunOne(EMPTY, Window(t, later), device, now, e);
    hide NowEpochMillis, EpochMillisOrExpired, IdempotencyKey, RunSpec;
  }

  lemma SecondOfMixed(before: Progress, t: string, o: string, device: string, now: string, later: string,
                      outcome: ActionResult, cached: ActionResult)
    requires NowEpochMillis(now) < EpochMillisOrExpired(later)
    requires before.executed == map[IdempotencyKey(t, o) := Cached(EpochMillisOrExpired(later), cached)]
    ensures
      var e := CommandOf("2", t, o, device, now, later, outcome);
      RunSpec(before, Window(t, later), device, OneCommand(now, e)).0.log
      == before.log + [RunStarted(NowEpochMillis(now))]
         + [Reported(t, e.command, cached, Submitted, false, EpochMillisOrExpired(later), e)]
  {
    var e := CommandOf("2", t, o, device, now, later, outcome);
    RunOne(before, Window(t, later), device, now, e);
    hide NowEpochMillis, EpochMillisOrExpired, IdempotencyKey, RunSpec;
  }

  /** The last of the log's entries answers a command of trigger `t` under the id of `other`; `t` executed nothing. */
  predicate AnsweredBy(log: seq<Action>, t: string, other: string) {
    && |log| == 5 && IsAnswer(log[4]) && log[4].trigger == t && log[4].result.triggerId == other != t
    && forall k | 0 <= k < 5 && log[k].Executed? :: log[k].trigger != t
  }

  lemma SharedKeyAnswers(t1: string, o1: string, t2: string, o2: string, device: string, now: string, later: string,
                         outcome: ActionResult)
    requires t1 != t2 && IdempotencyKey(t1, o1) == IdempotencyKey(t2, o2)
    requires NowEpochMillis(now) < EpochMillisOrExpired(later)
    ensures AnsweredBy(History(device, Mixed(t1, o1, t2, o2, device, now, later, outcome)).log, t2, t1)
  {
    hide RunSpec, History, NowEpochMillis, EpochMillisOrExpired, IdempotencyKey;
    var calls := Mixed(t1, o1, t2, o2, device, now, later, outcome);
    HistoryOfTwo(device, calls);
    FirstOfMixed(t1, o1, device, now, later, outcome);
    var p := RunSpec(EMPTY, calls[0].window, device, calls[0].script).0;
    var cached := outcome.(operationId := o1, triggerId := t1);
    SecondOfMixed(p, t2, o2, device, now, later, outcome, cached);
    var e := calls[1].script.events[0];
    FiveEntries(p.log, RunStarted(NowEpochMillis(now)),
                Reported(t2, e.command, cached, Submitted, false, EpochMillisOrExpired(later), e));
  }

  /**
   For every trigger id with the separator in it, at any clock: a history in which a command of that trigger is
   answered with the result of another trigger, under the other's id, and was itself never executed.
   */
  lemma AnswerOfAnother(t: string, i: nat, o: string, device: string, now: string, later: string, outcome: ActionResult)
    requires i < |t| && t[i] == SEPARATOR && NowEpochMillis(now) < EpochMillisOrExpired(later)
    ensures
      var calls := Mixed(t[..i], t[i + 1..] + [SEPARATOR] + o, t, o, device, now, later, outcome);
      AnsweredBy(History(device, calls).log, t, t[..i])
  {
    KeyCollision(t, i, o);
    hide History, Mixed, NowEpochMillis, EpochMillisOrExpired, IdempotencyKey, AnsweredBy;
    SharedKeyAnswers(t[..i], t[i + 1..] + [SEPARATOR] + o, t, o, device, now, later, outcome);
  }

  lemma FiveEntries(log: seq<Action>, a: Action, b: Action)
    requires |log| == 3
    ensures var all := log + [a] + [b];
            |all| == 5 && all[..3] == log && all[3] == a && all[4] == b && forall k | 0 <= k < 3 :: all[k] == log[k]
  {
  }

  lemma HistoryOfTwo(device: string, calls: seq<Call>)
    requires |calls| == 2
    ensures
      var p := RunSpec(EMPTY, calls[0].window, device, calls[0].script).0;
      History(device, calls) == RunSpec(p, calls[1].window, device, calls[1].script).0
  {
    hide RunSpec;
    assert calls[..1][..0] == [] && calls[..1][0] == calls[0];
    assert History(device, []) == EMPTY;
    assert History(device, calls[..1]) == RunSpec(EMPTY, calls[0].window, device, calls[0].script).0;
  }
}
