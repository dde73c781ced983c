/**
 The resume cursor of the action channel against a gateway that resumes strictly after it,
 and the counters of one run.
 */
module ActionCursor {
  import opened ActionChannel
  import opened ActionLaws

  // ----- The gateway

  /** The commands the gateway holds for one trigger, in stream order, under distinct non-empty ids. */
  predicate Numbered(g: seq<Command>) {
    && (forall i | 0 <= i < |g| :: g[i].commandId != "")
    && forall i, j | 0 <= i < j < |g| :: g[i].commandId != g[j].commandId
  }

  /** The cursor names the last of the first `n` commands; the empty cursor stands before all of them. */
  predicate StandsAt(g: seq<Command>, cursor: string, n: nat) {
    n <= |g| && if n == 0 then cursor == "" else cursor == g[n - 1].commandId
  }

  /** A stream that resumes strictly after the cursor delivers the commands that follow, in order. */
  predicate DeliversFrom(events: seq<Event>, g: seq<Command>, n: nat) {
    n + |events| <= |g| && forall k | 0 <= k < |events| :: events[k].command == g[n + k]
  }

  ghost predicate ServedAt(p: Progress, c: Call, g: seq<Command>, n: nat) {
    StandsAt(g, Cursor(p, c.window.triggerId), n) && DeliversFrom(c.script.events, g, n)
  }

  /** Every run for trigger `t` in the history reads from the gateway's stream `g` of that trigger. */
  ghost predicate AllServed(device: string, calls: seq<Call>, t: string, g: seq<Command>) {
    forall i | 0 <= i < |calls| && calls[i].window.triggerId == t ::
      exists n: nat :: ServedAt(History(device, calls[..i]), calls[i], g, n)
  }

  // ----- What has been settled

  /** Entry `j` settles command `c` of trigger `t`: dropped because mis-routed, or accepted by the gateway. */
  predicate Settles(log: seq<Action>, j: nat, device: string, t: string, c: Command) {
    j < |log| &&
    (|| (log[j].Dropped? && log[j].trigger == t && log[j].command == c && (c.deviceId != device || c.triggerId != t))
     || (log[j].Reported? && log[j].trigger == t && log[j].command == c && log[j].report.Submitted?))
  }

  ghost predicate IsSettled(log: seq<Action>, device: string, t: string, c: Command) {
    exists j: nat :: Settles(log, j, device, t, c)
  }

  ghost predicate SettledUpTo(p: Progress, device: string, t: string, g: seq<Command>, n: nat) {
    StandsAt(g, Cursor(p, t), n) && forall i | 0 <= i < n :: IsSettled(p.log, device, t, g[i])
  }

  lemma StaysSettled(log: seq<Action>, more: seq<Action>, device: string, t: string, c: Command)
    requires log <= more && IsSettled(log, device, t, c)
    ensures IsSettled(more, device, t, c)
  {
    var j: nat :| Settles(log, j, device, t, c);
    assert Settles(more, j, device, t, c);
  }

  lemma SettledGrows(p: Progress, q: Progress, device: string, t: string, g: seq<Command>, n: nat)
    requires SettledUpTo(p, device, t, g, n) && p.log <= q.log && Cursor(q, t) == Cursor(p, t)
    ensures SettledUpTo(q, device, t, g, n)
  {
    forall i | 0 <= i < n
      ensures IsSettled(q.log, device, t, g[i])
    {
      StaysSettled(p.log, q.log, device, t, g[i]);
    }
  }

  /** What handling one command does to cursors and log. */
  lemma HandledCursor(p: Progress, w: Window, device: string, e: Event)
    requires !p.unconfirmed
    ensures CursorMoved(p, Handled(p, w, device, e), w, device, e)
  {
    hide EpochMillisOrExpired, IsExpired, IdempotencyKey, Stamped, ExpiredResult, Settled, IsSettled;
    forall r: Progress, result: ActionResult, expired: bool | r.cursors == p.cursors && p.log <= r.log && !r.unconfirmed
      ensures CursorMoved(p, Settled(r, w, e, result, expired), w, device, e)
    {
      SettledCursor(p, r, w, device, e, result, expired);
    }
    if !IsOurs(w, device, e.command) {
      DroppedCursor(p, w, device, e);
    }
  }

  /** The log grew, other triggers' cursors stayed, and this one's moved exactly if the command is settled. */
  ghost predicate CursorMoved(p: Progress, q: Progress, w: Window, device: string, e: Event) {
    && p.log <= q.log
    && (forall t | t != w.triggerId :: Cursor(q, t) == Cursor(p, t))
    && (q.unconfirmed ==> Cursor(q, w.triggerId) == Cursor(p, w.triggerId))
    && (!q.unconfirmed ==>
          Cursor(q, w.triggerId) == e.command.commandId && IsSettled(q.log, device, w.triggerId, e.command))
  }

  lemma SettledCursor(p: Progress, r: Progress, w: Window, device: string, e: Event, result: ActionResult, expired: bool)
    requires r.cursors == p.cursors && p.log <= r.log && !r.unconfirmed
    ensures CursorMoved(p, Settled(r, w, e, result, expired), w, device, e)
  {
    var q := Settled(r, w, e, result, expired);
    assert !q.unconfirmed ==> Settles(q.log, |q.log| - 1, device, w.triggerId, e.command);
  }

  lemma DroppedCursor(p: Progress, w: Window, device: string, e: Event)
    requires !IsOurs(w, device, e.command) && !p.unconfirmed
    ensures CursorMoved(p, Handled(p, w, device, e), w, device, e)
  {
    hide IsExpired, IdempotencyKey, Stamped, ExpiredResult, Settled;
    var q := Handled(p, w, device, e);
    assert Settles(q.log, |q.log| - 1, device, w.triggerId, e.command);
  }

  lemma {:induction false} LoopCursor(
    p: Progress, w: Window, device: string, s: Script, events: seq<Event>, g: seq<Command>, n: nat) returns (m: nat)
    requires !p.unconfirmed && SettledUpTo(p, device, w.triggerId, g, n) && DeliversFrom(events, g, n)
    ensures n <= m && SettledUpTo(Loop(p, w, device, s, events).0, device, w.triggerId, g, m)
    decreases |events|
  {
    hide Handled;
    hide EpochMillisOrExpired;
    hide NowEpochMillis;
    m := n;
    if events != [] && NowEpochMillis(events[0].readClock) < EpochMillisOrExpired(w.expiresAt) {
      var q := Handled(p, w, device, events[0]);
      HandledCursor(p, w, device, events[0]);
      if q.unconfirmed {
        SettledGrows(p, q, device, w.triggerId, g, n);
      } else {
        assert events[0].command == g[n];
        NextSettled(p, q, device, w.triggerId, g, n);
        m := LoopCursor(q, w, device, s, events[1..], g, n + 1);
      }
    }
  }

  lemma NextSettled(p: Progress, q: Progress, device: string, t: string, g: seq<Command>, n: nat)
    requires SettledUpTo(p, device, t, g, n) && p.log <= q.log && n < |g|
    requires Cursor(q, t) == g[n].commandId && IsSettled(q.log, device, t, g[n])
    ensures SettledUpTo(q, device, t, g, n + 1)
  {
    forall i | 0 <= i < n
      ensures IsSettled(q.log, device, t, g[i])
    {
      StaysSettled(p.log, q.log, device, t, g[i]);
    }
  }

  lemma {:induction false} LoopOtherTriggers(p: Progress, w: Window, device: string, s: Script, events: seq<Event>)
    requires !p.unconfirmed
    ensures
      var q := Loop(p, w, device, s, events).0;
      p.log <= q.log && forall t | t != w.triggerId :: Cursor(q, t) == Cursor(p, t)
    decreases |events|
  {
    hide Handled;
    hide EpochMillisOrExpired;
    hide NowEpochMillis;
    if events != [] {
      HandledCursor(p, w, device, events[0]);
      var q := Handled(p, w, device, events[0]);
      if !q.unconfirmed {
        LoopOtherTriggers(q, w, device, s, events[1..]);
      }
    }
  }

  lemma RunCursor(p: Progress, device: string, c: Call, t: string, g: seq<Command>, n: nat) returns (m: nat)
    requires Numbered(g) && SettledUpTo(p, device, t, g, n)
    requires c.window.triggerId == t ==> exists k: nat :: ServedAt(p, c, g, k)
    ensures n <= m && SettledUpTo(RunSpec(p, c.window, device, c.script).0, device, t, g, m)
  {
    hide Loop;
    hide EpochMillisOrExpired;
    hide NowEpochMillis;
    m := n;
    var b := Begin(p);
    var purged := Purged(b, NowEpochMillis(c.script.startClock));
    SettledGrows(p, b, device, t, g, n);
    SettledGrows(p, purged, device, t, g, n);
    if c.window.triggerId == t {
      var k: nat :| ServedAt(p, c, g, k);
      OnePosition(g, Cursor(p, t), k, n);
      var loopEnd := LoopCursor(purged, c.window, device, c.script, c.script.events, g, n);
      if NowEpochMillis(c.script.startClock) < EpochMillisOrExpired(c.window.expiresAt) && c.script.opens {
        m := loopEnd;
      }
    } else {
      LoopOtherTriggers(purged, c.window, device, c.script, c.script.events);
      var q := Loop(purged, c.window, device, c.script, c.script.events).0;
      assert Cursor(q, t) == Cursor(purged, t);
      SettledGrows(purged, q, device, t, g, n);
    }
  }

  lemma OnePosition(g: seq<Command>, cursor: string, m: nat, n: nat)
    requires Numbered(g) && StandsAt(g, cursor, m) && StandsAt(g, cursor, n)
    ensures m == n
  {
  }

  /**
   With a gateway that resumes strictly after the cursor, over every history: the cursor of each
   trigger stands behind commands that were all dropped as mis-routed or accepted by the gateway.
   No unacknowledged command is ever skipped.
   */
  lemma {:induction false} NothingSkipped(device: string, calls: seq<Call>, t: string, g: seq<Command>) returns (n: nat)
    requires Numbered(g) && AllServed(device, calls, t, g)
    ensures SettledUpTo(History(device, calls), device, t, g, n)
  {
    hide RunSpec;
    if calls == [] {
      n := 0;
    } else {
      var k := |calls| - 1;
      var init, last := calls[..k], calls[k];
      forall i | 0 <= i < |init| && init[i].window.triggerId == t
        ensures exists m: nat :: ServedAt(History(device, init[..i]), init[i], g, m)
      {
        assert init[..i] == calls[..i] && init[i] == calls[i];
      }
      var m := NothingSkipped(device, init, t, g);
      if last.window.triggerId == t {
        assert exists j: nat :: ServedAt(History(device, calls[..k]), calls[k], g, j);
      }
      n := RunCursor(History(device, init), device, last, t, g, m);
    }
  }

  // ----- The counts of one run

  /** How many of the commands read are handled before the run ends. */
  function HandledCount(p: Progress, w: Window, device: string, events: seq<Event>): nat
    decreases |events|
  {
    if events == [] || NowEpochMillis(events[0].readClock) >= EpochMillisOrExpired(w.expiresAt) then 0
    else
      var q := Handled(p, w, device, events[0]);
      if q.unconfirmed then 1 else 1 + HandledCount(q, w, device, events[1..])
  }

  lemma HandledCounts(p: Progress, w: Window, device: string, e: Event)
    requires !p.unconfirmed
    ensures
      var q := Handled(p, w, device, e);
      && q.dropped + q.confirmed + (if q.unconfirmed then 1 else 0) == p.dropped + p.confirmed + 1
      && p.executions <= q.executions <= p.executions + 1
      && q.executions - p.executions <= q.confirmed - p.confirmed + if q.unconfirmed then 1 else 0
  {
    hide EpochMillisOrExpired;
    hide IsExpired;
  }

  lemma {:induction false} LoopCounts(p: Progress, w: Window, device: string, s: Script, events: seq<Event>)
    requires !p.unconfirmed
    ensures
      var (q, status) := Loop(p, w, device, s, events);
      var pending := if q.unconfirmed then 1 else 0;
      && HandledCount(p, w, device, events) == q.dropped - p.dropped + q.confirmed - p.confirmed + pending
      && q.executions - p.executions <= q.confirmed - p.confirmed + pending
      && (status.Finished? ==> !q.unconfirmed && HandledCount(p, w, device, events) == |events| && s.ending.EndOfStream?)
      && (q.unconfirmed ==> status.Disconnected?)
    decreases |events|
  {
    hide Handled;
    hide EpochMillisOrExpired;
    hide NowEpochMillis;
    if events != [] {
      var q := Handled(p, w, device, events[0]);
      HandledCounts(p, w, device, events[0]);
      if !q.unconfirmed {
        LoopCounts(q, w, device, s, events[1..]);
      }
    }
  }

  /**
   In every run that opens its stream, commands handled = dropped + confirmed + at most one
   unconfirmed, which ends the run as disconnected; a run that reports itself finished has handled
   every command and left none unconfirmed.
   */
  lemma RunCounts(before: Progress, w: Window, device: string, s: Script)
    requires s.opens && NowEpochMillis(s.startClock) < EpochMillisOrExpired(w.expiresAt)
    ensures
      var (q, status) := RunSpec(before, w, device, s);
      var handled := HandledCount(Purged(Begin(before), NowEpochMillis(s.startClock)), w, device, s.events);
      && handled == q.dropped + q.confirmed + (if q.unconfirmed then 1 else 0)
      && q.executions <= q.confirmed + (if q.unconfirmed then 1 else 0)
      && (status.Finished? ==> !q.unconfirmed && handled == |s.events| && s.ending.EndOfStream?)
      && (q.unconfirmed ==> status.Disconnected?)
  {
    hide EpochMillisOrExpired;
    hide NowEpochMillis;
    LoopCounts(Purged(Begin(before), NowEpochMillis(s.startClock)), w, device, s, s.events);
    hide Loop;
    hide HandledCount;
  }
}
