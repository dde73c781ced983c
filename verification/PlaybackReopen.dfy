/**
 Exactly when reopening the playback port is safe. While a thread stands in a tail, a reopen lets that thread
 clean up under the new output task: the codec is released while the task writes, and a task that still
 holds a frame may write it after a frame that was accepted later.
 */
module PlaybackReopen {
  import opened Wrappers
  import opened PcmFormat
  import opened PlaybackPort
  import opened PlaybackRuns
  import opened PlaybackWriter

  // ----- Going on from a state

  function Follow(l: Limits, s: System, more: seq<Step>): System
    decreases |more|
  {
    if more == [] then s else Follow(l, Next(l, s, more[0]), more[1..])
  }

  /** From `s` on, the port is opened only while nobody stands in the tail. */
  predicate DisciplinedFrom(l: Limits, s: System, more: seq<Step>)
    decreases |more|
  {
    more == [] ||
    ((Reopens(l, s, more[0]) ==> NobodyInTail(s)) && DisciplinedFrom(l, Next(l, s, more[0]), more[1..]))
  }

  /** A continuation that opens the port at once, and later only while nobody stands in the tail. */
  predicate Reopening(l: Limits, s: System, more: seq<Step>) {
    more != [] && Reopens(l, s, more[0]) && DisciplinedFrom(l, Next(l, s, more[0]), more[1..])
  }

  predicate NoOpen(more: seq<Step>) { forall i | 0 <= i < |more| :: !more[i].OpenCall? }

  lemma RunAppend(l: Limits, steps: seq<Step>, step: Step)
    ensures Run(l, steps + [step]) == Next(l, Run(l, steps), step)
  {
    assert (steps + [step])[..|steps|] == steps;
  }

  lemma {:induction false} RunSteps(l: Limits, steps: seq<Step>, more: seq<Step>)
    ensures Run(l, steps + more) == Follow(l, Run(l, steps), more)
    decreases |more|
  {
    hide Run, Next;
    if more == [] {
      assert steps + more == steps;
    } else {
      RunAppend(l, steps, more[0]);
      RunSteps(l, steps + [more[0]], more[1..]);
      assert steps + [more[0]] + more[1..] == steps + more;
    }
  }

  lemma {:induction false} FollowAppend(l: Limits, s: System, a: seq<Step>, b: seq<Step>)
    ensures Follow(l, s, a + b) == Follow(l, Follow(l, s, a), b)
    decreases |a|
  {
    hide Next;
    if a == [] {
      assert a + b == b;
    } else {
      FollowAppend(l, Next(l, s, a[0]), a[1..], b);
      assert (a + b)[1..] == a[1..] + b;
    }
  }

  lemma {:induction false} DisciplinedAppend(l: Limits, s: System, a: seq<Step>, b: seq<Step>)
    requires DisciplinedFrom(l, s, a) && DisciplinedFrom(l, Follow(l, s, a), b)
    ensures DisciplinedFrom(l, s, a + b)
    decreases |a|
  {
    hide Next, Reopens, NobodyInTail;
    if a == [] {
      assert a + b == b;
    } else {
      DisciplinedAppend(l, Next(l, s, a[0]), a[1..], b);
      assert (a + b)[1..] == a[1..] + b;
    }
  }

  lemma {:induction false} NoOpenDisciplined(l: Limits, s: System, more: seq<Step>)
    requires NoOpen(more)
    ensures DisciplinedFrom(l, s, more)
    decreases |more|
  {
    hide Next, NobodyInTail;
    if more != [] {
      NoOpenDisciplined(l, Next(l, s, more[0]), more[1..]);
    }
  }

  lemma DisciplinedSnoc(l: Limits, steps: seq<Step>, step: Step)
    requires Disciplined(l, steps) && (Reopens(l, Run(l, steps), step) ==> NobodyInTail(Run(l, steps)))
    ensures Disciplined(l, steps + [step])
  {
    hide Run, Reopens, NobodyInTail;
    assert (steps + [step])[..|steps|] == steps;
  }

  /** A disciplined run that goes on disciplined is a disciplined run. */
  lemma {:induction false} DisciplinedRun(l: Limits, steps: seq<Step>, more: seq<Step>)
    requires Disciplined(l, steps) && DisciplinedFrom(l, Run(l, steps), more)
    ensures Disciplined(l, steps + more)
    decreases |more|
  {
    hide Run, Next, Reopens, NobodyInTail;
    if more == [] {
      assert steps + more == steps;
    } else {
      DisciplinedSnoc(l, steps, more[0]);
      RunAppend(l, steps, more[0]);
      DisciplinedRun(l, steps + [more[0]], more[1..]);
      assert steps + [more[0]] + more[1..] == steps + more;
    }
  }

  // ----- One frame on an empty port

  /** One sample for each channel: it plays for a millisecond, so it fits any budget. */
  function ShortFrame(channels: nat): Frame {
    Frame(Format(PcmS16Le, 16000, channels, 16, 20), seq(2 * channels, _ => 0))
  }

  lemma ShortFrameFits(channels: nat)
    requires 1 <= channels <= 255
    ensures Playable(ShortFrame(channels), channels) && PcmDurationMs(ShortFrame(channels)) == 1
  {
    var f := ShortFrame(channels);
    assert |f.payload| == 2 * channels;
    assert f.format.bitsPerSample / 8 * f.format.channels == 2 * channels;
    assert |f.payload| / (2 * channels) == 1;
  }

  /** A closed port with an empty queue. */
  predicate Shut(s: System) {
    !s.port.open && !s.port.closing && !s.port.cleanup && s.port.queue == [] && s.port.queuedMs == 0
    && s.base == |s.accepted|
  }

  /** Every reachable closed port is shut. */
  lemma ClosedIsShut(l: Limits, steps: seq<Step>)
    requires !Run(l, steps).port.open && !Run(l, steps).port.closing
    ensures Shut(Run(l, steps))
  {
    InvAlways(l, steps);
    assert SumMs([]) == 0;
    hide Run, Playable, PcmDurationMs;
  }

  /** The limits under which the short frame can be played. */
  predicate Plays(l: Limits) { Opens(l, 1) && 1 <= l.channels <= 255 }

  /** Open the port, push the short frame, and have the new task take it. */
  function TakeFrame(l: Limits, n: nat): seq<Step> {
    [OpenCall(1, Succeeds), PushCall(ShortFrame(l.channels)), PushWake(n + 1), Pop(n)]
  }

  /** After that the new task, thread `n`, holds the new frame; the earlier threads and the record of writes are as before. */
  predicate HasTaken(s: System, t: System) {
    var n := |s.threads|;
    && t.port.open && !t.port.closing && !t.port.cleanup && t.port.queue == [] && t.port.queuedMs == 0
    && t.port.codec == Some(|s.releases|) && t.releases == s.releases + [0] && t.handles == s.handles + [|s.releases|]
    && |t.threads| == n + 2 && t.threads[..n] == s.threads && t.threads[n].pc == Holding(s.base)
    && t.threads[n + 1].pc.Returned?
    && t.base == |t.accepted| == s.base + 1 && t.written == s.written
  }

  lemma OpensNew(l: Limits, s: System) returns (t: System)
    requires Shut(s) && Plays(l)
    ensures t == Next(l, s, OpenCall(1, Succeeds))
    ensures t.port == Opened(s.port, |s.releases|) && t.releases == s.releases + [0]
    ensures t.handles == s.handles + [|s.releases|]
    ensures t.threads == s.threads + [Thread(Looping, |s.handles| + 1, false)]
    ensures t.accepted == s.accepted && t.base == s.base && t.written == s.written
  {
    hide Opens;
    t := Next(l, s, OpenCall(1, Succeeds));
  }

  lemma PushesNew(l: Limits, s: System) returns (t: System)
    requires Accepting(s.port) && s.port.running && s.port.queue == [] && s.port.queuedMs == 0 && Plays(l)
    ensures t == Next(l, Next(l, s, PushCall(ShortFrame(l.channels))), PushWake(|s.threads|))
    ensures t == s.(port := Enqueued(s.port, ShortFrame(l.channels)), accepted := s.accepted + [ShortFrame(l.channels)],
                    threads := s.threads + [Thread(Returned(true), |s.handles|, false)])
  {
    var f := ShortFrame(l.channels);
    ShortFrameFits(l.channels);
    hide Playable, PcmDurationMs, ShortFrame, SumMs;
    var s1 := Next(l, s, PushCall(f));
    assert s1 == Spawn(s, Thread(Pushing(f), |s.handles|, false));
    t := Next(l, s1, PushWake(|s.threads|));
    assert t.threads == s.threads + [Thread(Returned(true), |s.handles|, false)];
  }

  lemma PopsOnly(l: Limits, s: System, n: nat) returns (t: System)
    requires n < |s.threads| && s.threads[n].pc.Looping? && |s.port.queue| == 1
    ensures t == Next(l, s, Pop(n))
    ensures t == Move(s, n, Holding(s.base)).(port := s.port.(queue := [], queuedMs := 0), base := s.base + 1,
                                              popped := s.popped + [s.base])
  {
    hide PcmDurationMs;
    assert s.port.queue[1..] == [] && SumMs([]) == 0;
    t := Next(l, s, Pop(n));
    assert t == NextTask(s, Pop(n));
  }

  lemma FollowFour(l: Limits, s: System, more: seq<Step>)
    requires |more| == 4
    ensures Follow(l, s, more) == Next(l, Next(l, Next(l, Next(l, s, more[0]), more[1]), more[2]), more[3])
  {
    hide Next;
    var s1 := Next(l, s, more[0]);
    var s2 := Next(l, s1, more[1]);
    var s3 := Next(l, s2, more[2]);
    assert more[1..][1..] == more[2..] && more[2..][1..] == more[3..] && more[3..][1..] == [];
    assert Follow(l, s1, more[1..]) == Follow(l, s2, more[2..]);
    assert Follow(l, s2, more[2..]) == Follow(l, s3, more[3..]);
    assert Follow(l, s3, more[3..]) == Follow(l, Next(l, s3, more[3]), []);
  }

  lemma TakesFrame(l: Limits, s: System)
    requires Shut(s) && Plays(l)
    ensures HasTaken(s, Follow(l, s, TakeFrame(l, |s.threads|)))
  {
    var n := |s.threads|;
    hide Next, ShortFrame, PcmDurationMs, SumMs;
    FollowFour(l, s, TakeFrame(l, n));
    var s1 := OpensNew(l, s);
    var s2 := PushesNew(l, s1);
    var t := PopsOnly(l, s2, n);
    assert t.threads[..n] == s.threads;
  }

  // ----- The codec released under a writer

  /** A close begins, and thread `id` enters the cleanup section and releases the codec. */
  function CleanUp(id: nat): seq<Step> { [CloseCall, ReadClosing(id), BeginCleanup(id), Release(id)] }

  /** After that thread `id` has released the handle of the port; all other threads are as before. */
  predicate HasReleased(s: System, id: nat, h: nat, t: System) {
    && t.port == Detached(CloseBegun(s.port)) && t.cleaner == Some(id)
    && id < |s.threads| && |t.threads| == |s.threads| + 1 && t.threads[id].pc.Cleaning?
    && (forall i | 0 <= i < |s.threads| && i != id :: t.threads[i] == s.threads[i])
    && t.threads[|s.threads|].pc.AwaitTask?
    && t.releases == Counted(s.releases, h) && t.handles == s.handles
    && t.accepted == s.accepted && t.base == |s.accepted| && t.written == s.written
  }

  lemma BeginsClose(l: Limits, s: System, id: nat) returns (t: System)
    requires s.port.open && !s.port.closing && id < |s.threads| && InTail(s.threads[id].pc)
    ensures t == Next(l, Next(l, s, CloseCall), ReadClosing(id))
    ensures t.port == CloseBegun(s.port) && |t.threads| == |s.threads| + 1 && t.threads[id].pc.Finalizing?
    ensures t.threads[|s.threads|].pc.AwaitTask?
    ensures forall i | 0 <= i < |s.threads| && i != id :: t.threads[i] == s.threads[i]
    ensures t == s.(port := t.port, threads := t.threads, base := |s.accepted|)
  {
    hide NextOpen, NextPush, NextWait, NextCleanup;
    var s1 := Next(l, s, CloseCall);
    assert s1 == Spawn(s, Thread(AwaitTask, |s.handles|, true)).(port := CloseBegun(s.port), base := |s.accepted|);
    t := Next(l, s1, ReadClosing(id));
    assert t == Move(s1, id, Finalizing(s1.threads[id].pc.seen));
  }

  lemma DetachesAndReleases(l: Limits, s: System, id: nat, h: nat) returns (t: System)
    requires s.port.closing && !s.port.cleanup && s.port.codec == Some(h)
    requires id < |s.threads| && s.threads[id].pc.Finalizing?
    ensures t == Next(l, Next(l, s, BeginCleanup(id)), Release(id))
    ensures t == Move(s, id, Cleaning).(port := Detached(s.port), cleaner := Some(id), releases := Counted(s.releases, h))
  {
    hide NextOpen, NextPush, NextWait, NextTask, NextCall;
    var s1 := Next(l, s, BeginCleanup(id));
    assert s1 == Move(s, id, Releasing(Some(h))).(port := Detached(s.port), cleaner := Some(id));
    t := Next(l, s1, Release(id));
    assert t == Move(s1, id, Cleaning).(releases := Counted(s1.releases, h));
    assert t.threads == s.threads[id := s.threads[id].(pc := Cleaning)];
  }

  lemma ReleasesCodec(l: Limits, s: System, id: nat, h: nat)
    requires s.port.open && !s.port.closing && !s.port.cleanup && s.port.codec == Some(h)
    requires id < |s.threads| && InTail(s.threads[id].pc)
    ensures HasReleased(s, id, h, Follow(l, s, CleanUp(id)))
  {
    FollowFour(l, s, CleanUp(id));
    hide Follow, Next, Counted;
    var s1 := BeginsClose(l, s, id);
    var s2 := DetachesAndReleases(l, s1, id, h);
  }

  lemma BeginsWrite(l: Limits, s: System, n: nat)
    requires n < |s.threads| && s.threads[n].pc.Holding?
    ensures var k := s.threads[n].pc.frame;
            Follow(l, s, [BeginWrite(n)]) == Move(s, n, Writing(k)).(written := s.written + [k])
  {
    assert Next(l, s, BeginWrite(n)) == NextTask(s, BeginWrite(n));
    hide Next;
    assert [BeginWrite(n)][1..] == [];
  }

  /** The handle of the last open has been released while thread `n` writes. */
  predicate ReleasedWhileWriting(s: System, n: nat) {
    && n < |s.threads| && s.threads[n].pc.Writing? && s.handles != []
    && s.handles[|s.handles| - 1] < |s.releases| && s.releases[s.handles[|s.handles| - 1]] == 1
  }

  function BreakRelease(l: Limits, n: nat, id: nat): seq<Step> {
    TakeFrame(l, n) + ([BeginWrite(n)] + CleanUp(id))
  }

  lemma ReleaseBroken(l: Limits, s: System, id: nat)
    requires Shut(s) && Plays(l) && id < |s.threads| && InTail(s.threads[id].pc)
    ensures var t := Follow(l, s, BreakRelease(l, |s.threads|, id));
            ReleasedWhileWriting(t, |s.threads|) && ReleasedUnderWriter(t)
  {
    var n, h := |s.threads|, |s.releases|;
    hide Follow, TakeFrame, CleanUp, Plays;
    TakesFrame(l, s);
    FollowAppend(l, s, TakeFrame(l, n), [BeginWrite(n)] + CleanUp(id));
    var s1 := Follow(l, s, TakeFrame(l, n));
    assert s1.threads[id] == s.threads[id] by { assert s1.threads[..n][id] == s.threads[id]; }
    FollowAppend(l, s1, [BeginWrite(n)], CleanUp(id));
    BeginsWrite(l, s1, n);
    var s2 := Follow(l, s1, [BeginWrite(n)]);
    ReleasesCodec(l, s2, id, h);
    var t := Follow(l, s2, CleanUp(id));
    assert t.threads[n] == s2.threads[n];
    assert InCleanup(t.threads[id].pc) && t.threads[n].pc.Writing?;
  }

  /**
   From every reachable closed port with a thread in the tail, nine steps, of which only the first opens the
   port, release its codec while its task writes.
   */
  lemma ReopenBreaks(l: Limits, steps: seq<Step>, id: nat) returns (more: seq<Step>)
    requires var s := Run(l, steps);
             !s.port.open && !s.port.closing && id < |s.threads| && InTail(s.threads[id].pc)
    requires Plays(l)
    ensures |more| == 9 && Reopening(l, Run(l, steps), more) && NoOpen(more[1..])
    ensures var t := Run(l, steps + more);
            ReleasedWhileWriting(t, |Run(l, steps).threads|) && ReleasedUnderWriter(t)
  {
    var s := Run(l, steps);
    more := BreakRelease(l, |s.threads|, id);
    assert more[0] == OpenCall(1, Succeeds) && NoOpen(more[1..]);
    assert Reopens(l, s, more[0]);
    ClosedIsShut(l, steps);
    hide Run, Next, BreakRelease, ReleasedWhileWriting, ReleasedUnderWriter, NoOpen, Shut;
    NoOpenDisciplined(l, Next(l, s, more[0]), more[1..]);
    ReleaseBroken(l, s, id);
    RunSteps(l, steps, more);
  }

  /**
   After any disciplined run that leaves the port closed: opening it again, with later opens disciplined, can lead
   to a codec released under a writer if and only if a thread stands in the tail at that moment.
   */
  lemma ReopenSafeIff(l: Limits, steps: seq<Step>)
    requires Disciplined(l, steps) && Plays(l) && !Run(l, steps).port.open && !Run(l, steps).port.closing
    ensures (exists more | Reopening(l, Run(l, steps), more) :: ReleasedUnderWriter(Run(l, steps + more)))
            <==> !NobodyInTail(Run(l, steps))
  {
    hide ReleasedUnderWriter, Plays, Run, Disciplined;
    var s := Run(l, steps);
    if NobodyInTail(s) {
      forall more | Reopening(l, s, more) ensures !ReleasedUnderWriter(Run(l, steps + more)) {
        DisciplinedRun(l, steps, more);
        WritersAreOrderly(l, steps + more);
      }
    } else {
      var id: nat :| id < |s.threads| && InTail(s.threads[id].pc);
      var more := ReopenBreaks(l, steps, id);
    }
  }

  // ----- Writes out of order

  /** Every thread below `k` that stands in a tail finds a closed port and returns. */
  function Drain(k: nat): seq<Step> {
    if k == 0 then [] else Drain(k - 1) + [ReadClosing(k - 1), BeginCleanup(k - 1)]
  }

  lemma {:induction false} DrainOpensNothing(k: nat)
    ensures NoOpen(Drain(k))
  {
    if k > 0 {
      DrainOpensNothing(k - 1);
    }
  }

  /** The port, the record and every thread outside a tail are as before; below `k` nobody is left in one. */
  predicate Drained(s: System, k: nat, t: System) {
    && t == s.(threads := t.threads) && |t.threads| == |s.threads|
    && (forall i | 0 <= i < |s.threads| && !InTail(s.threads[i].pc) :: t.threads[i] == s.threads[i])
    && (forall i | 0 <= i < |s.threads| && i >= k :: t.threads[i] == s.threads[i])
    && (forall i | 0 <= i < |s.threads| && i < k :: !InTail(t.threads[i].pc))
  }

  lemma LeavesTail(l: Limits, s: System, id: nat)
    requires !s.port.closing && id < |s.threads|
    ensures var t := Follow(l, s, [ReadClosing(id), BeginCleanup(id)]);
            && t == s.(threads := t.threads) && |t.threads| == |s.threads| && !InTail(t.threads[id].pc)
            && (!InTail(s.threads[id].pc) ==> t.threads[id] == s.threads[id])
            && forall i | 0 <= i < |s.threads| && i != id :: t.threads[i] == s.threads[i]
  {
    var two := [ReadClosing(id), BeginCleanup(id)];
    hide NextOpen, NextPush, NextWait, NextCall;
    var s1 := Next(l, s, two[0]);
    assert s1 == NextTask(s, two[0]);
    var s2 := Next(l, s1, two[1]);
    assert s2 == NextCleanup(s1, two[1]);
    assert two[1..][1..] == [];
    assert Follow(l, s1, two[1..]) == Follow(l, s2, []);
  }

  lemma {:induction false} DrainWorks(l: Limits, s: System, k: nat)
    requires !s.port.closing && k <= |s.threads|
    ensures Drained(s, k, Follow(l, s, Drain(k)))
  {
    if k > 0 {
      hide Follow, Drain;
      DrainWorks(l, s, k - 1);
      var t := Follow(l, s, Drain(k - 1));
      LeavesTail(l, t, k - 1);
      FollowAppend(l, s, Drain(k - 1), [ReadClosing(k - 1), BeginCleanup(k - 1)]);
      assert Drain(k) == Drain(k - 1) + [ReadClosing(k - 1), BeginCleanup(k - 1)] by { DrainUnfold(k); }
    }
  }

  lemma DrainUnfold(k: nat)
    requires k > 0
    ensures Drain(k) == Drain(k - 1) + [ReadClosing(k - 1), BeginCleanup(k - 1)]
  {
  }

  lemma FinishesCleanup(l: Limits, s: System, id: nat)
    requires id < |s.threads| && s.threads[id].pc.Cleaning?
    ensures Follow(l, s, [FinishCleanup(id)]) == Move(s, id, Returned(true)).(port := Cleaned(s.port), cleaner := None)
  {
    assert Next(l, s, FinishCleanup(id)) == NextCleanup(s, FinishCleanup(id));
    hide Next;
    assert [FinishCleanup(id)][1..] == [];
  }

  /** The new task takes a frame; the thread in the tail cleans up under it, and every other thread leaves its tail. */
  function LoseTask(l: Limits, n: nat, id: nat): seq<Step> {
    TakeFrame(l, n) + (CleanUp(id) + ([FinishCleanup(id)] + Drain(n)))
  }

  /** Another task takes a later frame and writes it; then the first one writes its own. */
  function WriteBoth(l: Limits, n: nat, m: nat): seq<Step> { TakeFrame(l, m) + ([BeginWrite(m)] + [BeginWrite(n)]) }

  lemma TaskLost(l: Limits, s: System, id: nat)
    requires Shut(s) && Plays(l) && id < |s.threads| && InTail(s.threads[id].pc)
    ensures var n := |s.threads|; var t := Follow(l, s, LoseTask(l, n, id));
            && Shut(t) && NobodyInTail(t) && |t.threads| == n + 3 && t.threads[n].pc == Holding(s.base)
            && t.base == s.base + 1 && t.written == s.written
  {
    var n, h := |s.threads|, |s.releases|;
    hide Follow, TakeFrame, CleanUp, Plays, Drain, Counted;
    TakesFrame(l, s);
    FollowAppend(l, s, TakeFrame(l, n), CleanUp(id) + ([FinishCleanup(id)] + Drain(n)));
    var s1 := Follow(l, s, TakeFrame(l, n));
    assert s1.threads[id] == s.threads[id] by { assert s1.threads[..n][id] == s.threads[id]; }
    ReleasesCodec(l, s1, id, h);
    FollowAppend(l, s1, CleanUp(id), [FinishCleanup(id)] + Drain(n));
    var s2 := Follow(l, s1, CleanUp(id));
    FinishesCleanup(l, s2, id);
    FollowAppend(l, s2, [FinishCleanup(id)], Drain(n));
    var s3 := Follow(l, s2, [FinishCleanup(id)]);
    assert s3.threads[n] == s1.threads[n] && s3.threads[n + 1] == s1.threads[n + 1] && s3.threads[n + 2] == s2.threads[n + 2];
    DrainWorks(l, s3, n);
  }

  lemma BothWritten(l: Limits, s: System, n: nat)
    requires Shut(s) && Plays(l) && n < |s.threads| && s.threads[n].pc.Holding? && s.threads[n].pc.frame < s.base
    ensures !Increasing(Follow(l, s, WriteBoth(l, n, |s.threads|)).written)
  {
    var m := |s.threads|;
    hide Follow, TakeFrame, Plays;
    TakesFrame(l, s);
    FollowAppend(l, s, TakeFrame(l, m), [BeginWrite(m)] + [BeginWrite(n)]);
    var s1 := Follow(l, s, TakeFrame(l, m));
    assert s1.threads[n] == s.threads[n] by { assert s1.threads[..m][n] == s.threads[n]; }
    FollowAppend(l, s1, [BeginWrite(m)], [BeginWrite(n)]);
    BeginsWrite(l, s1, m);
    var s2 := Follow(l, s1, [BeginWrite(m)]);
    BeginsWrite(l, s2, n);
    var w := Follow(l, s2, [BeginWrite(n)]).written;
    assert w == s.written + [s.base] + [s.threads[n].pc.frame];
    assert w[|s.written|] > w[|s.written| + 1];
  }

  lemma ReopeningTwice(l: Limits, s: System, a: seq<Step>, b: seq<Step>)
    requires a != [] && Reopens(l, s, a[0]) && NoOpen(a[1..]) && NobodyInTail(Follow(l, s, a))
    requires b != [] && NoOpen(b[1..])
    ensures Reopening(l, s, a + b)
  {
    hide Follow, Next, NoOpen, Reopens, NobodyInTail;
    var t := Follow(l, s, a);
    FollowFirst(l, s, a);
    NoOpenDisciplined(l, Next(l, s, a[0]), a[1..]);
    NoOpenDisciplined(l, Next(l, t, b[0]), b[1..]);
    assert DisciplinedFrom(l, t, b);
    DisciplinedAppend(l, Next(l, s, a[0]), a[1..], b);
    assert (a + b)[1..] == a[1..] + b;
  }

  lemma OrderBroken(l: Limits, s: System, id: nat)
    requires Shut(s) && Plays(l) && id < |s.threads| && InTail(s.threads[id].pc)
    ensures var n := |s.threads|; var more := LoseTask(l, n, id) + WriteBoth(l, n, n + 3);
            Reopening(l, s, more) && !Increasing(Follow(l, s, more).written)
  {
    var n := |s.threads|;
    var a, b := LoseTask(l, n, id), WriteBoth(l, n, n + 3);
    hide Follow, LoseTask, WriteBoth, Next, Increasing, Reopening, NoOpen;
    TaskLost(l, s, id);
    BothWritten(l, Follow(l, s, a), n);
    FollowAppend(l, s, a, b);
    LoseOpensOnce(l, n, id);
    WriteOpensOnce(l, n, n + 3);
    ReopeningTwice(l, s, a, b);
  }

  /**
   From every reachable closed port with a thread in the tail, a continuation whose later open finds nobody in a
   tail, and after which a frame has been written before one that was accepted earlier.
   */
  lemma OrderBreaks(l: Limits, steps: seq<Step>, id: nat) returns (more: seq<Step>)
    requires var s := Run(l, steps);
             !s.port.open && !s.port.closing && id < |s.threads| && InTail(s.threads[id].pc)
    requires Plays(l)
    ensures Reopening(l, Run(l, steps), more) && !Increasing(Run(l, steps + more).written)
  {
    ClosedIsShut(l, steps);
    var s := Run(l, steps);
    var n := |s.threads|;
    hide Run, Follow, LoseTask, WriteBoth, Shut, Increasing, Reopening, Plays;
    OrderBroken(l, s, id);
    more := LoseTask(l, n, id) + WriteBoth(l, n, n + 3);
    RunSteps(l, steps, more);
  }

  lemma FollowFirst(l: Limits, s: System, more: seq<Step>)
    requires more != []
    ensures Follow(l, s, more) == Follow(l, Next(l, s, more[0]), more[1..])
  {
  }

  lemma LoseOpensOnce(l: Limits, n: nat, id: nat)
    ensures var a := LoseTask(l, n, id); a != [] && a[0] == OpenCall(1, Succeeds) && NoOpen(a[1..])
  {
    DrainOpensNothing(n);
    hide Drain, ShortFrame;
    var a := LoseTask(l, n, id);
    forall i | 0 <= i < |a| - 1 ensures !a[1..][i].OpenCall? {
      assert a[1..][i] == a[i + 1];
      if i + 1 >= 9 {
        assert a[i + 1] == Drain(n)[i + 1 - 9];
      }
    }
  }

  lemma WriteOpensOnce(l: Limits, n: nat, m: nat)
    ensures var b := WriteBoth(l, n, m); b != [] && b[0] == OpenCall(1, Succeeds) && NoOpen(b[1..])
  {
    hide ShortFrame;
  }

  /**
   After any disciplined run that leaves the port closed: opening it again, with later opens disciplined, can lead
   to frames written out of acceptance order if and only if a thread stands in the tail at that moment.
   */
  lemma OrderSafeIff(l: Limits, steps: seq<Step>)
    requires Disciplined(l, steps) && Plays(l) && !Run(l, steps).port.open && !Run(l, steps).port.closing
    ensures (exists more | Reopening(l, Run(l, steps), more) :: !Increasing(Run(l, steps + more).written))
            <==> !NobodyInTail(Run(l, steps))
  {
    hide Increasing, Plays, Run, Disciplined;
    var s := Run(l, steps);
    if NobodyInTail(s) {
      forall more | Reopening(l, s, more) ensures Increasing(Run(l, steps + more).written) {
        DisciplinedRun(l, steps, more);
        WritersAreOrderly(l, steps + more);
      }
    } else {
      var id: nat :| id < |s.threads| && InTail(s.threads[id].pc);
      var more := OrderBreaks(l, steps, id);
    }
  }

  // ----- Both kinds of tail are reachable with the port closed

  lemma FirstOpenDisciplined(l: Limits, steps: seq<Step>)
    requires steps != [] && NoOpen(steps[1..])
    ensures Disciplined(l, steps) && Run(l, []) == INITIAL && [] + steps == steps
  {
    assert Run(l, []) == INITIAL && Disciplined(l, []);
    hide Run, Next, Disciplined;
    NoOpenDisciplined(l, Next(l, INITIAL, steps[0]), steps[1..]);
    assert DisciplinedFrom(l, INITIAL, steps);
    DisciplinedRun(l, [], steps);
    assert [] + steps == steps;
  }

  lemma FollowEight(l: Limits, s: System, more: seq<Step>)
    requires |more| == 8
    ensures Follow(l, s, more) ==
            Next(l, Next(l, Next(l, Next(l, Next(l, Next(l, Next(l, Next(l, s,
              more[0]), more[1]), more[2]), more[3]), more[4]), more[5]), more[6]), more[7])
  {
    hide Follow, Next;
    FollowAppend(l, s, more[..4], more[4..]);
    assert more[..4] + more[4..] == more;
    FollowFour(l, s, more[..4]);
    FollowFour(l, Follow(l, s, more[..4]), more[4..]);
  }

  /** One open, its task and one closer, in the given places. */
  function Pair(task: Pc, closer: Pc, p: Port, releases: nat, cleaner: Option<nat>): System {
    System(p, [Thread(task, 1, false), Thread(closer, 1, true)], [], 0, [], [], [0], [releases], cleaner)
  }

  const BEGUN := CLOSED.(open := true, closing := true, task := true, codec := Some(0))
  const LEFT := BEGUN.(task := false)

  lemma PairBegins(l: Limits)
    requires Opens(l, 1)
    ensures Next(l, Next(l, INITIAL, OpenCall(1, Succeeds)), CloseCall) == Pair(Looping, AwaitTask, BEGUN, 0, None)
  {
    hide Opens;
    var s := Next(l, INITIAL, OpenCall(1, Succeeds));
    assert s.threads == [Thread(Looping, 1, false)] && s.handles == [0] && s.releases == [0];
    assert s.port == CLOSED.(open := true, running := true, task := true, codec := Some(0));
    assert Next(l, s, CloseCall) == NextCall(l, s, CloseCall);
  }

  /** The task exits and clears its handle; the closer notices. */
  lemma PairLeaves(l: Limits)
    ensures Next(l, Pair(Looping, AwaitTask, BEGUN, 0, None), Pop(0)) == Pair(Exiting, AwaitTask, BEGUN, 0, None)
    ensures Next(l, Pair(Exiting, AwaitTask, BEGUN, 0, None), MarkDone(0)) == Pair(Tail(1), AwaitTask, LEFT, 0, None)
    ensures Next(l, Pair(Tail(1), AwaitTask, LEFT, 0, None), SeeTaskGone(1))
         == Pair(Tail(1), Finalizing(1), LEFT, 0, None)
  {
    hide NextOpen, NextCall, NextPush, NextCleanup;
  }

  /** The closer cleans up while the task stays in its tail. */
  lemma PairCloserReleases(l: Limits, pc: Pc)
    ensures Next(l, Next(l, Pair(pc, Finalizing(1), LEFT, 0, None), BeginCleanup(1)), Release(1))
         == Pair(pc, Cleaning, Detached(LEFT), 1, Some(1))
  {
    hide Next;
    var s := Pair(pc, Finalizing(1), LEFT, 0, None);
    var t := DetachesAndReleases(l, s, 1, 0);
    assert t.threads == [s.threads[0], Thread(Cleaning, 1, true)] && t.releases == [1];
  }

  lemma PairCloserFinishes(l: Limits, pc: Pc)
    ensures Next(l, Pair(pc, Cleaning, Detached(LEFT), 1, Some(1)), FinishCleanup(1))
         == Pair(pc, Returned(true), CLOSED, 1, None)
  {
    hide NextOpen, NextCall, NextPush, NextWait, NextTask;
  }

  /** The task cleans up while the closer stays before the finalizer. */
  lemma PairTaskReads(l: Limits, pc: Pc)
    ensures Next(l, Pair(Tail(1), pc, LEFT, 0, None), ReadClosing(0)) == Pair(Finalizing(1), pc, LEFT, 0, None)
  {
    hide NextOpen, NextCall, NextPush, NextWait, NextCleanup;
  }

  lemma PairTaskReleases(l: Limits, pc: Pc)
    ensures Next(l, Next(l, Pair(Finalizing(1), pc, LEFT, 0, None), BeginCleanup(0)), Release(0))
         == Pair(Cleaning, pc, Detached(LEFT), 1, Some(0))
  {
    hide Next;
    var s := Pair(Finalizing(1), pc, LEFT, 0, None);
    var t := DetachesAndReleases(l, s, 0, 0);
    assert t.threads == [Thread(Cleaning, 1, false), s.threads[1]] && t.releases == [1];
  }

  lemma PairTaskFinishes(l: Limits, pc: Pc)
    ensures Next(l, Pair(Cleaning, pc, Detached(LEFT), 1, Some(0)), FinishCleanup(0))
         == Pair(Returned(true), pc, CLOSED, 1, None)
  {
    hide NextOpen, NextCall, NextPush, NextWait, NextTask;
  }

  /** The port can be closed while an exited task still stands in its tail: only the closer cleaned up. */
  lemma TaskTailReachable(l: Limits) returns (steps: seq<Step>)
    requires Opens(l, 1)
    ensures Disciplined(l, steps) && Run(l, steps) == Pair(Tail(1), Returned(true), CLOSED, 1, None)
  {
    steps := [OpenCall(1, Succeeds), CloseCall, Pop(0), MarkDone(0), SeeTaskGone(1),
              BeginCleanup(1), Release(1), FinishCleanup(1)];
    FirstOpenDisciplined(l, steps);
    PairBegins(l);
    PairLeaves(l);
    PairCloserReleases(l, Tail(1));
    PairCloserFinishes(l, Tail(1));
    assert Run(l, []) == INITIAL;
    hide Run, Next, Opens, Disciplined, Pair;
    RunSteps(l, [], steps);
    FollowEight(l, INITIAL, steps);
  }

  /** The port can be closed while a closer still stands before the finalizer: only the task cleaned up. */
  lemma CloserTailReachable(l: Limits) returns (steps: seq<Step>)
    requires Opens(l, 1)
    ensures Disciplined(l, steps) && Run(l, steps) == Pair(Returned(true), Finalizing(1), CLOSED, 1, None)
  {
    var most := [OpenCall(1, Succeeds), CloseCall, Pop(0), MarkDone(0), SeeTaskGone(1),
                 ReadClosing(0), BeginCleanup(0), Release(0)];
    steps := most + [FinishCleanup(0)];
    FirstOpenDisciplined(l, steps);
    PairBegins(l);
    PairLeaves(l);
    PairTaskReads(l, Finalizing(1));
    PairTaskReleases(l, Finalizing(1));
    PairTaskFinishes(l, Finalizing(1));
    RunAppend(l, most, FinishCleanup(0));
    assert Run(l, []) == INITIAL;
    hide Run, Next, Opens, Disciplined, Pair;
    assert [] + most == most;
    RunSteps(l, [], most);
    FollowEight(l, INITIAL, most);
  }
}
