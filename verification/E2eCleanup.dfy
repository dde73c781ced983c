/**
 The cleanup registry of the end-to-end runner, and its two passes. Clock readings and what each
 callback does are inputs: for every entry the reading before it, the reading when its guard is
 armed, and the callback's outcome.
 */
module E2eCleanup {

  datatype Outcome = Finishes | Interrupts | Expires | Raises

  datatype Event = Event(look: int, guard: int, outcome: Outcome)

  /** A registered callback; `runs` counts how often it was called. */
  datatype Entry = Entry(required: bool, done: bool, runs: nat)

  const TIMEOUT: string := "cleanup_timeout"
  const FAILED: string := "cleanup_callback_failed"

  // ----- Safe names: a lower-case letter or digit, then up to 63 of those, underscores and hyphens

  predicate Alnum(c: char) { 'a' <= c <= 'z' || '0' <= c <= '9' }

  predicate SafeChar(c: char) { Alnum(c) || c == '_' || c == '-' }

  predicate SafeTail(s: string) { forall i | 0 <= i < |s| :: SafeChar(s[i]) }

  predicate SafeName(s: string) { 1 <= |s| <= 64 && Alnum(s[0]) && SafeTail(s) }

  // ----- One entry

  datatype Visit = Visit(entry: Entry, errors: seq<string>, timedOut: bool, interrupted: bool)

  function VisitEntry(e: Entry, ev: Event, deadline: int, timedOut: bool): Visit {
    var late := timedOut || ev.look >= deadline;
    var errors := if late && !timedOut then [TIMEOUT] else [];
    if e.done then Visit(e, [], timedOut, false)
    else if late && e.required then Visit(e, errors, true, false)
    else if e.required && ev.guard >= deadline then Visit(e.(done := true), errors + [TIMEOUT], true, false)
    else
      var ran := e.(done := true, runs := e.runs + 1);
      match ev.outcome
      case Finishes => Visit(ran, errors, late, false)
      case Interrupts => Visit(ran, errors, late, true)
      case Expires => Visit(ran, errors + [TIMEOUT], true, false)
      case Raises => Visit(ran, errors + [FAILED], late, false)
  }

  // ----- One pass, last registered first

  datatype PassResult = PassResult(entries: seq<Entry>, errors: seq<string>, interrupted: bool)

  /** The pass over entries `n - 1` down to `0`; an interrupt discards the errors. */
  function Pass(es: seq<Entry>, n: nat, events: seq<Event>, deadline: int, timedOut: bool): (r: PassResult)
    requires n <= |es| == |events|
    ensures |r.entries| == |es| && forall i | n <= i < |es| :: r.entries[i] == es[i]
    decreases n
  {
    if n == 0 then PassResult(es, [], false)
    else
      var v := VisitEntry(es[n - 1], events[n - 1], deadline, timedOut);
      var es' := es[n - 1 := v.entry];
      if v.interrupted then PassResult(es', [], true)
      else
        var r := Pass(es', n - 1, events, deadline, v.timedOut);
        if r.interrupted then r else r.(errors := v.errors + r.errors)
  }

  class CleanupStack {
    var entries: seq<Entry>

    constructor ()
      ensures entries == []
    {
      entries := [];
    }

    /** A name that is not safe is refused and nothing is registered. */
    method Push(name: string, required: bool) returns (ok: bool)
      modifies this
      ensures ok <==> SafeName(name)
      ensures entries == if ok then old(entries) + [Entry(required, false, 0)] else old(entries)
    {
      if !SafeName(name) { return false; }
      entries := entries + [Entry(required, false, 0)];
      return true;
    }

    /** The body of the loop for entry `i`. */
    method VisitOne(i: nat, ev: Event, deadline: int, already: seq<string>, wasTimedOut: bool)
      returns (errors: seq<string>, timedOut: bool, interrupted: bool)
      requires i < |entries|
      modifies this
      ensures var v := VisitEntry(old(entries)[i], ev, deadline, wasTimedOut);
              && entries == old(entries)[i := v.entry] && errors == already + v.errors
              && timedOut == v.timedOut && interrupted == v.interrupted
    {
      errors, timedOut, interrupted := already, wasTimedOut, false;
      var entry := entries[i];
      if entry.done { return; }
      if timedOut || ev.look >= deadline {
        if !timedOut {
          errors := errors + [TIMEOUT];
          timedOut := true;
        }
        if entry.required { return; }
      }
      entries := entries[i := entry.(done := true)];
      if entry.required && ev.guard >= deadline {
        errors := errors + [TIMEOUT];
        timedOut := true;
        return;
      }
      entries := entries[i := entry.(done := true, runs := entry.runs + 1)];
      match ev.outcome
      case Finishes =>
      case Interrupts => interrupted := true;
      case Expires =>
        errors := errors + [TIMEOUT];
        timedOut := true;
      case Raises =>
        errors := errors + [FAILED];
    }

    /** One pass. When it is interrupted no errors come back. */
    method Cleanup(deadline: int, events: seq<Event>) returns (errors: seq<string>, interrupted: bool)
      requires |events| == |entries|
      modifies this
      ensures PassResult(entries, errors, interrupted) == Pass(old(entries), |old(entries)|, events, deadline, false)
    {
      hide VisitEntry;
      errors := [];
      var timedOut := false;
      var i := |entries|;
      while i > 0
        invariant 0 <= i <= |entries| == |events|
        invariant Pass(old(entries), |old(entries)|, events, deadline, false)
               == After(errors, Pass(entries, i, events, deadline, timedOut))
      {
        i := i - 1;
        PassUnfold(entries, i, events, deadline, timedOut, errors);
        errors, timedOut, interrupted := VisitOne(i, events[i], deadline, errors, timedOut);
        if interrupted { return [], true; }
      }
      interrupted := false;
    }
  }

  /** A pass whose earlier entries gave these errors. */
  function After(errors: seq<string>, r: PassResult): PassResult {
    if r.interrupted then r else r.(errors := errors + r.errors)
  }

  lemma PassUnfold(es: seq<Entry>, i: nat, events: seq<Event>, deadline: int, timedOut: bool, errors: seq<string>)
    requires i < |es| == |events|
    ensures var v := VisitEntry(es[i], events[i], deadline, timedOut);
            After(errors, Pass(es, i + 1, events, deadline, timedOut)) ==
            if v.interrupted then PassResult(es[i := v.entry], [], true)
            else After(errors + v.errors, Pass(es[i := v.entry], i, events, deadline, v.timedOut))
  {
    hide VisitEntry;
  }

  // ----- Both passes

  /** The second pass is made only after an interrupt, with a clock of its own and no further interrupt. */
  function BothPasses(es: seq<Entry>, first: seq<Event>, second: seq<Event>, deadline: int): (r: PassResult)
    requires |first| == |second| == |es|
    ensures |r.entries| == |es|
  {
    var r := Pass(es, |es|, first, deadline, false);
    if r.interrupted then Pass(r.entries, |es|, second, deadline, false).(interrupted := true) else r
  }

  /** No callback is called twice, and none that was called is left open for another pass. */
  predicate Once(es: seq<Entry>) { forall i | 0 <= i < |es| :: es[i].runs <= 1 && (!es[i].done ==> es[i].runs == 0) }

  predicate Untouched(es: seq<Entry>) { forall i | 0 <= i < |es| :: !es[i].done && es[i].runs == 0 }

  predicate NoInterrupt(events: seq<Event>) { forall i | 0 <= i < |events| :: !events[i].outcome.Interrupts? }

  lemma {:induction false} PassOnce(es: seq<Entry>, n: nat, events: seq<Event>, deadline: int, timedOut: bool)
    requires n <= |es| == |events| && Once(es)
    ensures Once(Pass(es, n, events, deadline, timedOut).entries)
    decreases n
  {
    if n > 0 {
      var v := VisitEntry(es[n - 1], events[n - 1], deadline, timedOut);
      assert v.entry.runs <= 1 && (!v.entry.done ==> v.entry.runs == 0);
      hide VisitEntry;
      PassOnce(es[n - 1 := v.entry], n - 1, events, deadline, v.timedOut);
    }
  }

  /** Across both passes, whatever the clock and the callbacks do, each callback is called at most once. */
  lemma EachCallbackOnce(es: seq<Entry>, first: seq<Event>, second: seq<Event>, deadline: int, i: nat)
    requires |first| == |second| == |es| && Untouched(es) && i < |es|
    ensures BothPasses(es, first, second, deadline).entries[i].runs <= 1
  {
    hide Pass;
    PassOnce(es, |es|, first, deadline, false);
    PassOnce(Pass(es, |es|, first, deadline, false).entries, |es|, second, deadline, false);
  }

  // ----- Unrun entries and the reported timeout

  predicate Lost(e: Entry) { e.done && e.runs == 0 }

  lemma {:induction false} NoInterruptPass(es: seq<Entry>, n: nat, events: seq<Event>, deadline: int, timedOut: bool)
    requires n <= |es| == |events| && NoInterrupt(events)
    ensures !Pass(es, n, events, deadline, timedOut).interrupted
    decreases n
  {
    if n > 0 {
      var v := VisitEntry(es[n - 1], events[n - 1], deadline, timedOut);
      assert !v.interrupted;
      hide VisitEntry;
      NoInterruptPass(es[n - 1 := v.entry], n - 1, events, deadline, v.timedOut);
    }
  }

  /** In a pass that completes, an entry that was open and did not run means a reported timeout. */
  lemma {:induction false} UnrunReported(es: seq<Entry>, n: nat, events: seq<Event>, deadline: int, timedOut: bool, i: nat)
    requires i < n <= |es| == |events|
    requires !es[i].done && Pass(es, n, events, deadline, timedOut).entries[i].runs == es[i].runs
    requires !Pass(es, n, events, deadline, timedOut).interrupted
    ensures timedOut || TIMEOUT in Pass(es, n, events, deadline, timedOut).errors
    decreases n
  {
    var v := VisitEntry(es[n - 1], events[n - 1], deadline, timedOut);
    assert !timedOut && v.timedOut ==> TIMEOUT in v.errors;
    assert i == n - 1 && v.entry.runs == es[i].runs ==> v.timedOut;
    hide VisitEntry;
    if i < n - 1 {
      UnrunReported(es[n - 1 := v.entry], n - 1, events, deadline, v.timedOut, i);
    }
  }

  /** In a pass that completes after the deadline, any entry still open means a reported timeout. */
  lemma {:induction false} OpenReported(es: seq<Entry>, n: nat, events: seq<Event>, deadline: int, timedOut: bool, i: nat)
    requires i < n <= |es| == |events| && !es[i].done
    requires forall k | 0 <= k < |events| :: events[k].look >= deadline
    requires !Pass(es, n, events, deadline, timedOut).interrupted
    ensures timedOut || TIMEOUT in Pass(es, n, events, deadline, timedOut).errors
    decreases n
  {
    var v := VisitEntry(es[n - 1], events[n - 1], deadline, timedOut);
    assert !timedOut && v.timedOut ==> TIMEOUT in v.errors;
    assert i == n - 1 ==> v.timedOut;
    hide VisitEntry;
    if i < n - 1 {
      OpenReported(es[n - 1 := v.entry], n - 1, events, deadline, v.timedOut, i);
    }
  }

  /** An entry that was closed without being called had its guard armed at or after the deadline. */
  lemma {:induction false} LostMeansLate(es: seq<Entry>, n: nat, events: seq<Event>, deadline: int, timedOut: bool, i: nat)
    requires i < |es| == |events| && n <= |es| && !Lost(es[i])
    requires Lost(Pass(es, n, events, deadline, timedOut).entries[i])
    ensures events[i].guard >= deadline
    decreases n
  {
    if n > 0 {
      var v := VisitEntry(es[n - 1], events[n - 1], deadline, timedOut);
      assert i == n - 1 && Lost(v.entry) ==> events[i].guard >= deadline;
      if i != n - 1 || !Lost(v.entry) {
        hide VisitEntry;
        if !v.interrupted {
          LostMeansLate(es[n - 1 := v.entry], n - 1, events, deadline, v.timedOut, i);
        }
      }
    }
  }

  /** Closed entries stay as they are. */
  lemma {:induction false} ClosedKept(es: seq<Entry>, n: nat, events: seq<Event>, deadline: int, timedOut: bool, i: nat)
    requires i < |es| == |events| && n <= |es| && es[i].done
    ensures Pass(es, n, events, deadline, timedOut).entries[i] == es[i]
    decreases n
  {
    if n > 0 {
      var v := VisitEntry(es[n - 1], events[n - 1], deadline, timedOut);
      assert i == n - 1 ==> v.entry == es[i];
      hide VisitEntry;
      if !v.interrupted {
        ClosedKept(es[n - 1 := v.entry], n - 1, events, deadline, v.timedOut, i);
      }
    }
  }

  lemma {:induction false} AllClosedSilent(es: seq<Entry>, n: nat, events: seq<Event>, deadline: int, timedOut: bool)
    requires n <= |es| == |events| && forall i | 0 <= i < |es| :: es[i].done
    ensures Pass(es, n, events, deadline, timedOut) == PassResult(es, [], false)
    decreases n
  {
    if n > 0 {
      AllClosedSilent(es, n - 1, events, deadline, timedOut);
      assert es[n - 1 := es[n - 1]] == es;
    }
  }

  /** Every callback that was never called is covered by a reported timeout. */
  predicate Covered(r: PassResult) {
    (exists i | 0 <= i < |r.entries| :: r.entries[i].runs == 0) ==> TIMEOUT in r.errors
  }

  /** The first pass was interrupted after it had closed an entry without calling it, and left none open. */
  predicate LostInInterrupt(r: PassResult) {
    && r.interrupted
    && (exists i | 0 <= i < |r.entries| :: Lost(r.entries[i]))
    && (forall i | 0 <= i < |r.entries| :: r.entries[i].done)
  }

  /** The second pass happens after the first. */
  predicate Later(first: seq<Event>, second: seq<Event>) {
    forall i, j | 0 <= i < |first| && 0 <= j < |second| :: first[i].guard <= second[j].look
  }

  lemma CoveredAfterInterrupt(r: PassResult, second: seq<Event>, deadline: int)
    requires |second| == |r.entries| && NoInterrupt(second) && Once(r.entries) && !LostInInterrupt(r) && r.interrupted
    requires (exists i | 0 <= i < |r.entries| :: Lost(r.entries[i])) ==>
               forall k | 0 <= k < |second| :: second[k].look >= deadline
    ensures Covered(Pass(r.entries, |second|, second, deadline, false))
  {
    var es, n := r.entries, |second|;
    var r2 := Pass(es, n, second, deadline, false);
    NoInterruptPass(es, n, second, deadline, false);
    hide Pass;
    if i :| 0 <= i < n && r2.entries[i].runs == 0 {
      if es[i].done {
        ClosedKept(es, n, second, deadline, false, i);
        assert Lost(es[i]);
        var k :| 0 <= k < n && !es[k].done;
        OpenReported(es, n, second, deadline, false, k);
      } else {
        UnrunReported(es, n, second, deadline, false, i);
      }
    }
  }

  // ----- The condition in terms of the entries and what happens to them

  /** An entry whose callback is called in time and neither expires nor is interrupted. */
  predicate Calm(e: Entry, ev: Event, deadline: int) {
    && ev.look < deadline && (e.required ==> ev.guard < deadline)
    && (ev.outcome.Finishes? || ev.outcome.Raises?)
  }

  /** The entries below `k` are all optional, and of their callbacks the last one to be called is interrupted, no other. */
  predicate EndsInInterrupt(es: seq<Entry>, k: nat, events: seq<Event>)
    requires k <= |es| == |events|
  {
    && k > 0 && events[0].outcome.Interrupts?
    && forall j | 0 <= j < k :: !es[j].required && (j > 0 ==> !events[j].outcome.Interrupts?)
  }

  /**
   Entry `a` is lost between the check and its guard, after calm callbacks and before only optional ones, the last of
   them interrupted.
   */
  predicate LosesAt(es: seq<Entry>, n: nat, events: seq<Event>, deadline: int, a: nat)
    requires n <= |es| == |events|
  {
    && a < n && es[a].required && events[a].look < deadline <= events[a].guard
    && (forall j | a < j < n :: Calm(es[j], events[j], deadline))
    && EndsInInterrupt(es, a, events)
  }

  predicate LosesSome(es: seq<Entry>, n: nat, events: seq<Event>, deadline: int)
    requires n <= |es| == |events|
  {
    exists a: nat | a < n :: LosesAt(es, n, events, deadline, a)
  }

  predicate AllDone(es: seq<Entry>, n: nat)
    requires n <= |es|
  {
    forall i | 0 <= i < n :: es[i].done
  }

  predicate NoneLost(es: seq<Entry>, n: nat)
    requires n <= |es|
  {
    forall i | 0 <= i < n :: !Lost(es[i])
  }

  predicate UntouchedTo(es: seq<Entry>, n: nat)
    requires n <= |es|
  {
    forall i | 0 <= i < n :: !es[i].done && es[i].runs == 0
  }

  lemma UnfoldPass(es: seq<Entry>, n: nat, events: seq<Event>, deadline: int, timedOut: bool)
    requires 0 < n <= |es| == |events|
    ensures
      var v := VisitEntry(es[n - 1], events[n - 1], deadline, timedOut);
      var r := Pass(es, n, events, deadline, timedOut);
      var next := Pass(es[n - 1 := v.entry], n - 1, events, deadline, v.timedOut);
      && r.entries == (if v.interrupted then es[n - 1 := v.entry] else next.entries)
      && r.interrupted == (v.interrupted || next.interrupted)
      && r.entries[n - 1] == v.entry
  {
    hide VisitEntry;
  }

  /** Once the deadline has passed: no entry is lost, and all are done in a pass that is interrupted exactly so. */
  lemma {:induction false} LatePass(es: seq<Entry>, n: nat, events: seq<Event>, deadline: int)
    requires n <= |es| == |events| && UntouchedTo(es, n)
    ensures
      var r := Pass(es, n, events, deadline, true);
      && NoneLost(r.entries, n)
      && (r.interrupted && AllDone(r.entries, n) <==> EndsInInterrupt(es, n, events))
    decreases n
  {
    if n > 0 {
      var e, ev := es[n - 1], events[n - 1];
      var v := VisitEntry(e, ev, deadline, true);
      var es' := es[n - 1 := v.entry];
      UnfoldPass(es, n, events, deadline, true);
      assert v.timedOut && !Lost(v.entry) && (v.entry.done <==> !e.required);
      assert v.interrupted <==> !e.required && ev.outcome.Interrupts?;
      hide VisitEntry, Pass;
      LatePass(es', n - 1, events, deadline);
      EndsSnoc(es, es', n, events);
      hide EndsInInterrupt;
      SplitLast(Pass(es, n, events, deadline, true).entries, n);
    }
  }

  lemma EndsSnoc(es: seq<Entry>, es': seq<Entry>, n: nat, events: seq<Event>)
    requires 0 < n <= |es| == |es'| == |events| && forall i | 0 <= i < n - 1 :: es'[i] == es[i]
    ensures EndsInInterrupt(es, n, events) <==>
              && !es[n - 1].required
              && if n == 1 then events[0].outcome.Interrupts?
                 else !events[n - 1].outcome.Interrupts? && EndsInInterrupt(es', n - 1, events)
    ensures !EndsInInterrupt(es', 0, events)
  {
  }

  /** The first pass loses an entry and is then interrupted with nothing left open exactly when some entry is lost so. */
  lemma {:induction false} LosesIff(es: seq<Entry>, n: nat, events: seq<Event>, deadline: int)
    requires n <= |es| == |events| && UntouchedTo(es, n)
    ensures
      var r := Pass(es, n, events, deadline, false);
      (r.interrupted && AllDone(r.entries, n) && !NoneLost(r.entries, n))
      <==> LosesSome(es, n, events, deadline)
    decreases n
  {
    if n > 0 {
      var e, ev := es[n - 1], events[n - 1];
      var v := VisitEntry(e, ev, deadline, false);
      var es' := es[n - 1 := v.entry];
      UnfoldPass(es, n, events, deadline, false);
      VisitFresh(e, ev, deadline);
      hide VisitEntry, Pass;
      LosesLower(es, es', n, events, deadline);
      if v.timedOut {
        LatePass(es', n - 1, events, deadline);
      } else {
        LosesIff(es', n - 1, events, deadline);
      }
      SplitLast(Pass(es, n, events, deadline, false).entries, n);
    }
  }

  lemma SplitLast(es: seq<Entry>, n: nat)
    requires 0 < n <= |es|
    ensures AllDone(es, n) <==> AllDone(es, n - 1) && es[n - 1].done
    ensures NoneLost(es, n) <==> NoneLost(es, n - 1) && !Lost(es[n - 1])
  {
  }

  /** What becomes of an untouched entry before the deadline has passed. */
  lemma VisitFresh(e: Entry, ev: Event, deadline: int)
    requires !e.done && e.runs == 0
    ensures
      var v := VisitEntry(e, ev, deadline, false);
      && (Lost(v.entry) <==> e.required && ev.look < deadline <= ev.guard)
      && (Lost(v.entry) ==> v.timedOut && !v.interrupted)
      && (!v.timedOut && !v.interrupted <==> Calm(e, ev, deadline))
      && (v.interrupted ==> v.entry.done)
      && (Calm(e, ev, deadline) ==> v.entry.done)
  {
  }

  /** An entry is lost below the last one only after a calm last one; or it is the last one. */
  lemma LosesLower(es: seq<Entry>, es': seq<Entry>, n: nat, events: seq<Event>, deadline: int)
    requires 0 < n <= |es| == |es'| == |events| && forall i | 0 <= i < n - 1 :: es'[i] == es[i]
    ensures LosesSome(es, n, events, deadline) <==>
              || (es[n - 1].required && events[n - 1].look < deadline <= events[n - 1].guard
                  && EndsInInterrupt(es', n - 1, events))
              || (Calm(es[n - 1], events[n - 1], deadline) && LosesSome(es', n - 1, events, deadline))
  {
    hide Calm;
    assert forall k | 0 <= k < n :: EndsInInterrupt(es, k, events) <==> EndsInInterrupt(es', k, events);
    hide EndsInInterrupt;
    var m := n - 1;
    forall a: nat | a < m
      ensures LosesAt(es, n, events, deadline, a) <==>
                Calm(es[m], events[m], deadline) && LosesAt(es', m, events, deadline, a)
    {
      assert forall j | a < j < m :: es'[j] == es[j];
    }
    assert LosesAt(es, n, events, deadline, m)
      <==> es[m].required && events[m].look < deadline <= events[m].guard && EndsInInterrupt(es', m, events);
    hide LosesAt;
    if LosesSome(es, n, events, deadline) {
      var a: nat :| a < n && LosesAt(es, n, events, deadline, a);
      assert a == m || (a < m && LosesAt(es', m, events, deadline, a));
    }
    if Calm(es[m], events[m], deadline) && LosesSome(es', m, events, deadline) {
      var a: nat :| a < m && LosesAt(es', m, events, deadline, a);
      assert LosesAt(es, n, events, deadline, a);
    }
  }

  /**
   For every monotone clock and every outcome with at most one interrupt: each callback that was never called is
   covered by a reported timeout, unless a required entry passes the check before the deadline and has its guard armed
   after it, only optional entries are left, and the last of those is interrupted; then, and only then, it is not.
   */
  lemma CoveredIff(es: seq<Entry>, first: seq<Event>, second: seq<Event>, deadline: int)
    requires |first| == |second| == |es| && Untouched(es) && NoInterrupt(second) && Later(first, second)
    ensures Covered(BothPasses(es, first, second, deadline))
            <==> !LosesSome(es, |es|, first, deadline)
  {
    hide BothPasses, Pass, LosesSome;
    CoveredUnlessLost(es, first, second, deadline);
    LosesIff(es, |es|, first, deadline);
  }

  lemma CoveredUnlessLost(es: seq<Entry>, first: seq<Event>, second: seq<Event>, deadline: int)
    requires |first| == |second| == |es| && Untouched(es) && NoInterrupt(second) && Later(first, second)
    ensures Covered(BothPasses(es, first, second, deadline))
            <==> !LostInInterrupt(Pass(es, |es|, first, deadline, false))
  {
    var n := |es|;
    var r := Pass(es, n, first, deadline, false);
    PassOnce(es, n, first, deadline, false);
    hide Pass;
    if !r.interrupted {
      if i :| 0 <= i < n && r.entries[i].runs == 0 {
        UnrunReported(es, n, first, deadline, false, i);
      }
    } else if LostInInterrupt(r) {
      AllClosedSilent(r.entries, n, second, deadline, false);
    } else {
      forall i, k | 0 <= i < n && Lost(r.entries[i]) && 0 <= k < n ensures second[k].look >= deadline {
        LostMeansLate(es, n, first, deadline, false, i);
      }
      CoveredAfterInterrupt(r, second, deadline);
    }
  }

  /** Such a run: the guard of the one required callback expires, and the next callback is interrupted. */
  lemma TimeoutLost()
    ensures var es := [Entry(false, false, 0), Entry(true, false, 0)];
            var first := [Event(10, 10, Interrupts), Event(9, 10, Finishes)];
            var second := [Event(11, 11, Finishes), Event(11, 11, Finishes)];
            && Untouched(es) && NoInterrupt(second) && Later(first, second)
            && BothPasses(es, first, second, 10) == PassResult([Entry(false, true, 1), Entry(true, true, 0)], [], true)
  {
    var es := [Entry(false, false, 0), Entry(true, false, 0)];
    var first := [Event(10, 10, Interrupts), Event(9, 10, Finishes)];
    var second := [Event(11, 11, Finishes), Event(11, 11, Finishes)];
    var mid := [Entry(false, false, 0), Entry(true, true, 0)];
    var end := [Entry(false, true, 1), Entry(true, true, 0)];
    assert es[1 := Entry(true, true, 0)] == mid && mid[0 := Entry(false, true, 1)] == end;
    assert Pass(mid, 1, first, 10, true) == PassResult(end, [], true);
    assert Pass(es, 2, first, 10, false) == PassResult(end, [], true);
    AllClosedSilent(end, 2, second, 10, false);
  }

  // ----- What is reported

  /** The callback of entry `i` was called in the pass from `es` to `after`. */
  predicate CalledIn(es: seq<Entry>, after: seq<Entry>, i: nat)
    requires i < |es| == |after|
  {
    after[i].runs == es[i].runs + 1
  }

  predicate SomeRaised(es: seq<Entry>, after: seq<Entry>, n: nat, events: seq<Event>)
    requires n <= |es| == |after| == |events|
  {
    exists i: nat | i < n :: CalledIn(es, after, i) && events[i].outcome.Raises?
  }

  lemma CodesDiffer()
    ensures TIMEOUT != FAILED
  {
    assert TIMEOUT[8] == 't' && FAILED[8] == 'c';
  }

  lemma VisitRaises(e: Entry, ev: Event, deadline: int, timedOut: bool)
    ensures
      var v := VisitEntry(e, ev, deadline, timedOut);
      && (FAILED in v.errors <==> v.entry.runs == e.runs + 1 && ev.outcome.Raises?)
      && (forall i | 0 <= i < |v.errors| :: v.errors[i] == TIMEOUT || v.errors[i] == FAILED)
  {
    CodesDiffer();
    hide TIMEOUT, FAILED;
  }

  /** A completed pass reports a failed callback if and only if some callback that it called raised. */
  lemma {:induction false} RaisedReported(es: seq<Entry>, n: nat, events: seq<Event>, deadline: int, timedOut: bool)
    requires n <= |es| == |events| && !Pass(es, n, events, deadline, timedOut).interrupted
    ensures
      var r := Pass(es, n, events, deadline, timedOut);
      FAILED in r.errors <==> SomeRaised(es, r.entries, n, events)
    decreases n
  {
    if n > 0 {
      var v := VisitEntry(es[n - 1], events[n - 1], deadline, timedOut);
      var es' := es[n - 1 := v.entry];
      var r := Pass(es, n, events, deadline, timedOut);
      VisitRaises(es[n - 1], events[n - 1], deadline, timedOut);
      RaisedReported(es', n - 1, events, deadline, v.timedOut);
      var next := Pass(es', n - 1, events, deadline, v.timedOut);
      assert r.errors == v.errors + next.errors && r.entries == next.entries && r.entries[n - 1] == v.entry;
      hide VisitEntry, Pass;
      RaisedSnoc(es, es', r.entries, n, events);
    }
  }

  lemma RaisedSnoc(es: seq<Entry>, es': seq<Entry>, after: seq<Entry>, n: nat, events: seq<Event>)
    requires 0 < n <= |es| == |es'| == |after| == |events| && forall i | 0 <= i < n - 1 :: es'[i] == es[i]
    ensures SomeRaised(es, after, n, events) <==>
              SomeRaised(es', after, n - 1, events) || (CalledIn(es, after, n - 1) && events[n - 1].outcome.Raises?)
  {
    assert forall i: nat | i < n - 1 :: CalledIn(es, after, i) <==> CalledIn(es', after, i);
    hide CalledIn;
    var m: nat := n - 1;
    if SomeRaised(es, after, n, events) {
      var i: nat :| i < n && CalledIn(es, after, i) && events[i].outcome.Raises?;
      assert i == m || CalledIn(es', after, i);
    }
    if SomeRaised(es', after, m, events) {
      var i: nat :| i < m && CalledIn(es', after, i) && events[i].outcome.Raises?;
      assert CalledIn(es, after, i);
    }
  }

  /** An open entry at which the deadline shows: at its check, at its guard, or in its callback. */
  predicate ShowsLate(e: Entry, ev: Event, deadline: int) {
    !e.done && (ev.look >= deadline || (e.required && ev.guard >= deadline) || ev.outcome.Expires?)
  }

  /** A completed pass reports a timeout if and only if the deadline shows at some entry. */
  lemma {:induction false} LateReported(es: seq<Entry>, n: nat, events: seq<Event>, deadline: int)
    requires n <= |es| == |events| && !Pass(es, n, events, deadline, false).interrupted
    ensures
      TIMEOUT in Pass(es, n, events, deadline, false).errors
      <==> exists i: nat | i < n :: ShowsLate(es[i], events[i], deadline)
    decreases n
  {
    if n > 0 {
      var m := n - 1;
      var v := VisitEntry(es[m], events[m], deadline, false);
      var es' := es[m := v.entry];
      VisitLate(es[m], events[m], deadline);
      assert Pass(es, n, events, deadline, false).errors == v.errors + Pass(es', m, events, deadline, v.timedOut).errors;
      if v.timedOut {
        assert ShowsLate(es[m], events[m], deadline);
      } else {
        LateReported(es', m, events, deadline);
        hide VisitEntry, Pass;
        assert forall i: nat | i < m :: es'[i] == es[i];
      }
    }
  }

  lemma VisitLate(e: Entry, ev: Event, deadline: int)
    ensures
      var v := VisitEntry(e, ev, deadline, false);
      && (v.timedOut ==> TIMEOUT in v.errors) && (TIMEOUT in v.errors ==> v.timedOut)
      && (!v.interrupted ==> (v.timedOut <==> ShowsLate(e, ev, deadline)))
  {
    CodesDiffer();
    hide TIMEOUT, FAILED;
  }

  /** An entry that is cleaned up in time and without fault. */
  predicate Clean(e: Entry, ev: Event, deadline: int) {
    ev.look < deadline && (e.required ==> ev.guard < deadline) && ev.outcome.Finishes?
  }

  /** Cleaning up untouched entries is reported as faultless if and only if every one of them is clean. */
  lemma {:induction false} CleanIff(es: seq<Entry>, n: nat, events: seq<Event>, deadline: int)
    requires n <= |es| == |events| && UntouchedTo(es, n)
    ensures
      var r := Pass(es, n, events, deadline, false);
      r.errors == [] && !r.interrupted <==> forall i | 0 <= i < n :: Clean(es[i], events[i], deadline)
    decreases n
  {
    if n > 0 {
      var m := n - 1;
      var v := VisitEntry(es[m], events[m], deadline, false);
      var es' := es[m := v.entry];
      assert v.errors == [] && !v.interrupted && !v.timedOut <==> Clean(es[m], events[m], deadline);
      assert v.timedOut ==> v.errors != [];
      if !v.timedOut {
        CleanIff(es', m, events, deadline);
      }
      hide VisitEntry;
      assert forall i | 0 <= i < m :: es'[i] == es[i];
    }
  }
}
