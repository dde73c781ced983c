/**
 The WebSocket fragment assembler: which fragment sequences it turns into which messages.
 */
module WebSocketAssembler {
  import opened Wrappers

  datatype Opcode = Continuation | Text | Binary | Other(code: nat)

  /** A data callback; `hasData` is false for a null data pointer. */
  datatype Fragment = Fragment(
    generation: nat, opcode: Opcode, hasData: bool, data: Bytes, payloadLen: nat, payloadOffset: nat, fin: bool)

  datatype Message = Message(generation: nat, opcode: Opcode, payload: Bytes)

  datatype ErrorCode = InvalidArgument | Conflict

  datatype Outcome = Pending | Complete(message: Message) | Rejected(code: ErrorCode)

  datatype State = Idle | Assembling(generation: nat, opcode: Opcode, expected: nat, payload: Bytes)

  // ----- What one push does

  predicate BadBounds(max: nat, f: Fragment) {
    || max == 0 || f.payloadLen > max || |f.data| > max || f.payloadOffset > f.payloadLen
    || |f.data| > f.payloadLen - f.payloadOffset || (|f.data| > 0 && !f.hasData)
  }

  predicate Starts(f: Fragment) {
    (f.opcode.Text? || f.opcode.Binary?) && f.payloadOffset == 0 && f.payloadLen > 0
  }

  predicate Continues(s: State, f: Fragment)
    requires s.Assembling?
  {
    && f.generation == s.generation && f.payloadLen == s.expected && f.payloadOffset == |s.payload|
    && (f.opcode == s.opcode || f.opcode.Continuation?)
  }

  /** The state once a fragment has been taken in. */
  function Taken(s: State, f: Fragment): State {
    if s.Idle? then Assembling(f.generation, f.opcode, f.payloadLen, f.data)
    else s.(payload := s.payload + f.data)
  }

  function PushSpec(max: nat, s: State, f: Fragment): (State, Outcome) {
    if BadBounds(max, f) then (Idle, Rejected(InvalidArgument))
    else if s.Idle? && !Starts(f) then (Idle, Rejected(InvalidArgument))
    else if s.Assembling? && !Continues(s, f) then (Idle, Rejected(Conflict))
    else
      var t := Taken(s, f);
      if |t.payload| == t.expected then (Idle, Complete(Message(t.generation, t.opcode, t.payload)))
      else (t, Pending)
  }

  class Assembler {
    const maxMessageBytes: nat
    var assembling: bool
    var generation: nat
    var opcode: Opcode
    var expectedPayloadLen: nat
    var payload: Bytes

    ghost predicate Valid()
      reads this
    {
      if assembling then |payload| < expectedPayloadLen else payload == []
    }

    ghost function Model(): State
      reads this
    {
      if assembling then Assembling(generation, opcode, expectedPayloadLen, payload) else Idle
    }

    constructor (max: nat)
      ensures Valid() && Model() == Idle && maxMessageBytes == max
    {
      maxMessageBytes := max;
      assembling, generation, opcode, expectedPayloadLen, payload := false, 0, Continuation, 0, [];
    }

    method Reset()
      modifies this
      ensures Valid() && Model() == Idle
    {
      assembling, generation, opcode, expectedPayloadLen, payload := false, 0, Continuation, 0, [];
    }

    method Reject(code: ErrorCode) returns (r: Outcome)
      modifies this
      ensures Valid() && Model() == Idle && r == Rejected(code)
    {
      Reset();
      return Rejected(code);
    }

    /** Besides meeting its specification, a push never reaches the length-mismatch refusal at its end. */
    method Push(f: Fragment) returns (r: Outcome)
      requires Valid()
      modifies this
      ensures Valid()
      ensures (Model(), r) == PushSpec(maxMessageBytes, old(Model()), f)
    {
      if || maxMessageBytes == 0 || f.payloadLen > maxMessageBytes || |f.data| > maxMessageBytes
         || f.payloadOffset > f.payloadLen || |f.data| > f.payloadLen - f.payloadOffset
         || (|f.data| > 0 && !f.hasData)
      {
        r := Reject(InvalidArgument);
        return;
      }
      if !assembling {
        if f.opcode == Continuation {
          r := Reject(InvalidArgument);
          return;
        }
        if f.opcode != Text && f.opcode != Binary {
          r := Reject(InvalidArgument);
          return;
        }
        if f.payloadOffset != 0 || f.payloadLen == 0 {
          r := Reject(InvalidArgument);
          return;
        }
        assembling, generation, opcode, expectedPayloadLen := true, f.generation, f.opcode, f.payloadLen;
      } else {
        if f.generation != generation {
          r := Reject(Conflict);
          return;
        }
        var sameFrameChunk := f.opcode == opcode && f.payloadLen == expectedPayloadLen;
        var protocolContinuation := f.opcode == Continuation && f.payloadLen == expectedPayloadLen;
        if !sameFrameChunk && !protocolContinuation {
          r := Reject(Conflict);
          return;
        }
        if f.payloadOffset != |payload| {
          r := Reject(Conflict);
          return;
        }
      }
      assert |f.data| == 0 ==> payload + f.data == payload;
      assert !old(assembling) ==> payload + f.data == f.data;
      if |f.data| > 0 {
        payload := payload + f.data;
      }
      if |payload| == expectedPayloadLen {
        r := Complete(Message(generation, opcode, payload));
        Reset();
        return;
      }
      assert |payload| < expectedPayloadLen;
      return Pending;
    }
  }

  /**
   Why a fragment is refused: an out-of-bounds one, or one that opens no message while none is under way, as an invalid
   argument; one that does not go on with the message under way, where it stopped, as a conflict.
   */
  lemma RefusedExactly(max: nat, s: State, f: Fragment)
    ensures
      var o := PushSpec(max, s, f).1;
      var outside := f.payloadLen > max || f.payloadOffset + |f.data| > f.payloadLen || max == 0 || (f.data != [] && !f.hasData);
      && (o == Rejected(InvalidArgument) <==>
            || outside
            || (s.Idle? && (f.opcode == Continuation || f.opcode.Other? || f.payloadOffset > 0 || f.payloadLen == 0)))
      && (o == Rejected(Conflict) <==>
            && !outside && s.Assembling?
            && (|| f.generation != s.generation || f.payloadLen != s.expected || f.payloadOffset != |s.payload|
                || (f.opcode != s.opcode && f.opcode != Continuation)))
      && (o.Rejected? ==> PushSpec(max, s, f).0 == Idle)
  {
  }

  // ----- Runs

  function Run(max: nat, s: State, fs: seq<Fragment>): (r: (State, seq<Outcome>))
    ensures |r.1| == |fs|
  {
    if fs == [] then (s, [])
    else
      var (s1, os) := Run(max, s, fs[..|fs| - 1]);
      var (s2, o) := PushSpec(max, s1, fs[|fs| - 1]);
      (s2, os + [o])
  }

  function Messages(os: seq<Outcome>): seq<Message> {
    if os == [] then []
    else Messages(os[..|os| - 1]) + if os[|os| - 1].Complete? then [os[|os| - 1].message] else []
  }

  function Data(fs: seq<Fragment>): Bytes {
    if fs == [] then [] else Data(fs[..|fs| - 1]) + fs[|fs| - 1].data
  }

  // ----- Trains: the fragment sequences that carry one message

  /** Fragments of one message so far: same generation and length, right opcodes, no gap, not complete before the end. */
  predicate IsTrain(max: nat, generation: nat, opcode: Opcode, length: nat, fs: seq<Fragment>) {
    && fs != [] && fs[0].opcode == opcode && (opcode.Text? || opcode.Binary?) && 0 < length <= max
    && (forall i | 0 <= i < |fs| ::
          && fs[i].generation == generation && fs[i].payloadLen == length
          && fs[i].payloadOffset == |Data(fs[..i])| < length
          && (|fs[i].data| > 0 ==> fs[i].hasData)
          && (i > 0 ==> fs[i].opcode == opcode || fs[i].opcode.Continuation?))
    && |Data(fs)| <= length
  }

  /** The fragments carry exactly the message `m`. */
  predicate Carries(max: nat, fs: seq<Fragment>, m: Message) {
    IsTrain(max, m.generation, m.opcode, |m.payload|, fs) && Data(fs) == m.payload
  }

  lemma DataSnoc(fs: seq<Fragment>, f: Fragment)
    ensures Data(fs + [f]) == Data(fs) + f.data
    ensures forall i | 0 <= i <= |fs| :: Data((fs + [f])[..i]) == Data(fs[..i])
  {
    assert (fs + [f])[..|fs|] == fs;
    forall i | 0 <= i <= |fs|
      ensures Data((fs + [f])[..i]) == Data(fs[..i])
    {
      assert (fs + [f])[..i] == fs[..i];
    }
  }

  /** The state that a train which is not complete leads to from idle. */
  function StateOf(fs: seq<Fragment>): State
    requires fs != []
  {
    Assembling(fs[0].generation, fs[0].opcode, fs[0].payloadLen, Data(fs))
  }

  predicate IsOpenTrain(max: nat, fs: seq<Fragment>) {
    fs != [] && IsTrain(max, fs[0].generation, fs[0].opcode, fs[0].payloadLen, fs) && |Data(fs)| < fs[0].payloadLen
  }

  lemma DataOfOne(f: Fragment)
    ensures Data([f]) == f.data && Data([f][..0]) == []
  {
    assert [f][..0] == [];
  }

  /** A first fragment is accepted exactly when it is a train on its own. */
  lemma FirstStep(max: nat, f: Fragment)
    ensures
      var (s, o) := PushSpec(max, Idle, f);
      && (o.Rejected? <==> !IsTrain(max, f.generation, f.opcode, f.payloadLen, [f]))
      && (o.Pending? ==> IsOpenTrain(max, [f]) && s == StateOf([f]))
      && (o.Complete? ==> Carries(max, [f], o.message))
  {
    DataOfOne(f);
  }

  /** A further fragment is accepted exactly when it extends the train. */
  lemma NextStep(max: nat, fs: seq<Fragment>, f: Fragment)
    requires IsOpenTrain(max, fs)
    ensures
      var (s, o) := PushSpec(max, StateOf(fs), f);
      var more := fs + [f];
      && (o.Rejected? <==> !IsTrain(max, fs[0].generation, fs[0].opcode, fs[0].payloadLen, more))
      && (o.Pending? ==> IsOpenTrain(max, more) && s == StateOf(more))
      && (o.Complete? ==> Carries(max, more, o.message))
  {
    var more := fs + [f];
    DataSnoc(fs, f);
    hide Data;
    assert more[|fs|] == f && more[..|fs|] == fs;
    if PushSpec(max, StateOf(fs), f).1.Rejected? {
      assert !(&& f.generation == fs[0].generation && f.payloadLen == fs[0].payloadLen
               && f.payloadOffset == |Data(more[..|fs|])| < f.payloadLen
               && (|f.data| > 0 ==> f.hasData)
               && (f.opcode == fs[0].opcode || f.opcode.Continuation?)
               && |Data(more)| <= f.payloadLen);
    } else {
      forall i | 0 <= i < |more|
        ensures && more[i].generation == fs[0].generation && more[i].payloadLen == fs[0].payloadLen
                && more[i].payloadOffset == |Data(more[..i])| < fs[0].payloadLen
                && (|more[i].data| > 0 ==> more[i].hasData)
                && (i > 0 ==> more[i].opcode == fs[0].opcode || more[i].opcode.Continuation?)
      {
        if i < |fs| {
          assert more[i] == fs[i];
        }
      }
    }
  }

  lemma TrainPrefix(max: nat, generation: nat, opcode: Opcode, length: nat, fs: seq<Fragment>)
    requires IsTrain(max, generation, opcode, length, fs) && |fs| > 1
    ensures IsOpenTrain(max, fs[..|fs| - 1])
    ensures IsTrain(max, generation, opcode, length, fs[..|fs| - 1])
  {
    var n := |fs| - 1;
    var init := fs[..n];
    forall i | 0 <= i <= n
      ensures Data(init[..i]) == Data(fs[..i])
    {
      assert init[..i] == fs[..i];
    }
    hide Data;
    assert init[..n] == init && init[0] == fs[0];
    assert fs[n].payloadOffset == |Data(init)| < length;
    assert forall i | 0 <= i < n :: init[i] == fs[i];
  }

  function Pendings(n: nat): seq<Outcome> { seq(n, _ => Pending) }

  lemma OpenStep(max: nat, init: seq<Fragment>, f: Fragment)
    requires IsOpenTrain(max, init + [f]) && (init != [] ==> IsOpenTrain(max, init))
    ensures PushSpec(max, if init == [] then Idle else StateOf(init), f) == (StateOf(init + [f]), Pending)
  {
    if init == [] {
      assert init + [f] == [f];
      FirstStep(max, f);
    } else {
      NextStep(max, init, f);
    }
    hide PushSpec;
    hide Data;
  }

  lemma {:induction false} OpenTrainRuns(max: nat, fs: seq<Fragment>)
    requires IsOpenTrain(max, fs)
    ensures Run(max, Idle, fs) == (StateOf(fs), Pendings(|fs|))
    decreases |fs|
  {
    hide PushSpec, StateOf, IsTrain, Run;
    var n := |fs| - 1;
    var init, f := fs[..n], fs[n];
    assert fs == init + [f];
    if n > 0 {
      TrainPrefix(max, fs[0].generation, fs[0].opcode, fs[0].payloadLen, fs);
      OpenTrainRuns(max, init);
    } else {
      RunNothing(max, Idle);
    }
    hide IsOpenTrain, Pendings;
    OpenStep(max, init, f);
    RunSnoc(max, Idle, init, f);
    PendingsSnoc(n);
  }

  lemma RunNothing(max: nat, s: State)
    ensures Run(max, s, []) == (s, Pendings(0))
  {
    assert Pendings(0) == [];
  }

  lemma PendingsSnoc(n: nat)
    ensures Pendings(n) + [Pending] == Pendings(n + 1)
  {
  }

  /** All but the last outcome are pending, and the last one completes `m`. */
  predicate CompletesLast(os: seq<Outcome>, m: Message) {
    && os != [] && os[|os| - 1] == Complete(m)
    && forall i | 0 <= i < |os| - 1 :: os[i] == Pending
  }

  /** From idle, the fragments that complete a message with their last one are exactly those that carry it. */
  lemma CompletesExactly(max: nat, fs: seq<Fragment>, m: Message)
    ensures CompletesLast(Run(max, Idle, fs).1, m) <==> Carries(max, fs, m)
    ensures Carries(max, fs, m) ==> Run(max, Idle, fs).0 == Idle
  {
    if Carries(max, fs, m) {
      CarriedIsCompleted(max, fs, m);
    }
    if CompletesLast(Run(max, Idle, fs).1, m) {
      CompletedIsCarried(max, fs, m);
    }
  }

  lemma CarriedIsCompleted(max: nat, fs: seq<Fragment>, m: Message)
    requires Carries(max, fs, m)
    ensures Run(max, Idle, fs).0 == Idle && CompletesLast(Run(max, Idle, fs).1, m)
  {
    hide PushSpec;
    hide Data;
    var n := |fs| - 1;
    var init, f := fs[..n], fs[n];
    assert fs == init + [f];
    var s := if n == 0 then Idle else StateOf(init);
    if n == 0 {
      FirstStep(max, f);
    } else {
      TrainPrefix(max, m.generation, m.opcode, |m.payload|, fs);
      OpenTrainRuns(max, init);
      assert init[0] == fs[0];
      NextStep(max, init, f);
    }
    LastPush(max, s, f);
  }

  /** Only a pending push leaves a state other than idle. */
  lemma LastPush(max: nat, s: State, f: Fragment)
    ensures
      var (t, o) := PushSpec(max, s, f);
      !o.Pending? ==> t == Idle
  {
  }

  /** The last push of a run, and the outcomes before it. */
  lemma RunLast(max: nat, s: State, fs: seq<Fragment>)
    requires fs != []
    ensures
      var n := |fs| - 1;
      var (before, os) := Run(max, s, fs[..n]);
      && fs == fs[..n] + [fs[n]]
      && (Run(max, s, fs).0, Run(max, s, fs).1[n]) == PushSpec(max, before, fs[n])
      && forall i | 0 <= i < n :: Run(max, s, fs).1[i] == os[i]
  {
    hide PushSpec;
  }

  lemma {:induction false} PendingIsOpen(max: nat, fs: seq<Fragment>)
    requires fs != [] && forall i | 0 <= i < |fs| :: Run(max, Idle, fs).1[i] == Pending
    ensures IsOpenTrain(max, fs) && Run(max, Idle, fs).0 == StateOf(fs)
    decreases |fs|
  {
    hide PushSpec, IsTrain, Data, Run, StateOf;
    RunLast(max, Idle, fs);
    var n := |fs| - 1;
    var init, f := fs[..n], fs[n];
    if n == 0 {
      assert init == [] && fs == [f];
      RunNothing(max, Idle);
      FirstStep(max, f);
    } else {
      PendingIsOpen(max, init);
      hide IsOpenTrain;
      NextStep(max, init, f);
    }
  }

  lemma CompletedIsCarried(max: nat, fs: seq<Fragment>, m: Message)
    requires CompletesLast(Run(max, Idle, fs).1, m)
    ensures Carries(max, fs, m)
  {
    hide PushSpec, Carries, Data, Run, StateOf, IsTrain;
    RunLast(max, Idle, fs);
    var n := |fs| - 1;
    var init, f := fs[..n], fs[n];
    if n == 0 {
      assert init == [] && fs == [f];
      RunNothing(max, Idle);
      FirstStep(max, f);
    } else {
      PendingIsOpen(max, init);
      hide IsOpenTrain;
      NextStep(max, init, f);
    }
  }

  // ----- Many messages

  lemma {:induction false} RunAppend(max: nat, s: State, a: seq<Fragment>, b: seq<Fragment>)
    ensures
      var (s1, o1) := Run(max, s, a);
      var (s2, o2) := Run(max, s1, b);
      Run(max, s, a + b) == (s2, o1 + o2)
    decreases |b|
  {
    hide PushSpec;
    if b == [] {
      assert a + b == a;
      assert Run(max, s, a).1 + [] == Run(max, s, a).1;
    } else {
      var init, f := b[..|b| - 1], b[|b| - 1];
      RunAppend(max, s, a, init);
      RunSnoc(max, s, a + init, f);
      RunSnoc(max, Run(max, s, a).0, init, f);
      hide Run;
      Regroup(a, init, f);
      assert b == init + [f];
      var o1, o2 := Run(max, s, a).1, Run(max, Run(max, s, a).0, init).1;
      Regroup(o1, o2, PushSpec(max, Run(max, s, a + init).0, f).1);
    }
  }

  lemma Regroup<T>(a: seq<T>, b: seq<T>, c: T)
    ensures a + (b + [c]) == (a + b) + [c]
  {
  }

  lemma RunSnoc(max: nat, s: State, fs: seq<Fragment>, f: Fragment)
    ensures
      var (s1, os) := Run(max, s, fs);
      var (s2, o) := PushSpec(max, s1, f);
      Run(max, s, fs + [f]) == (s2, os + [o])
  {
    hide PushSpec;
    assert (fs + [f])[..|fs|] == fs;
  }

  lemma {:induction false} MessagesAppend(a: seq<Outcome>, b: seq<Outcome>)
    ensures Messages(a + b) == Messages(a) + Messages(b)
    decreases |b|
  {
    if b == [] {
      assert a + b == a;
    } else {
      var init := b[..|b| - 1];
      MessagesAppend(a, init);
      assert (a + b)[..|a + b| - 1] == a + init && (a + b)[|a + b| - 1] == b[|b| - 1];
    }
  }

  lemma {:induction false} NoMessages(os: seq<Outcome>)
    requires forall i | 0 <= i < |os| :: os[i] == Pending
    ensures Messages(os) == []
  {
    if os != [] {
      NoMessages(os[..|os| - 1]);
    }
  }

  function Flatten(trains: seq<seq<Fragment>>): seq<Fragment> {
    if trains == [] then [] else Flatten(trains[..|trains| - 1]) + trains[|trains| - 1]
  }

  /** However each message is cut, the assembler returns exactly the messages, in order, and ends idle. */
  lemma {:induction false} MessagesInOrder(max: nat, trains: seq<seq<Fragment>>, ms: seq<Message>)
    requires |trains| == |ms| && forall i | 0 <= i < |ms| :: Carries(max, trains[i], ms[i])
    ensures
      var (s, os) := Run(max, Idle, Flatten(trains));
      s == Idle && Messages(os) == ms && NothingRejected(os)
    decreases |ms|
  {
    hide Carries, PushSpec, Messages, NothingRejected;
    if ms == [] {
      NothingYet();
    } else {
      var n := |ms| - 1;
      MessagesInOrder(max, trains[..n], ms[..n]);
      hide Run;
      MessageAdded(max, Flatten(trains[..n]), trains[n], ms[n]);
      assert ms == ms[..n] + [ms[n]];
    }
  }

  predicate NothingRejected(os: seq<Outcome>) { forall i | 0 <= i < |os| :: !os[i].Rejected? }

  lemma NothingYet()
    ensures Messages([]) == [] && NothingRejected([])
  {
  }

  /** A further message after fragments that leave the assembler idle. */
  lemma MessageAdded(max: nat, before: seq<Fragment>, train: seq<Fragment>, m: Message)
    requires Run(max, Idle, before).0 == Idle && NothingRejected(Run(max, Idle, before).1) && Carries(max, train, m)
    ensures
      var (s, os) := Run(max, Idle, before + train);
      s == Idle && Messages(os) == Messages(Run(max, Idle, before).1) + [m] && NothingRejected(os)
  {
    hide Carries, PushSpec, Messages, Run;
    var o1, o2 := Run(max, Idle, before).1, Run(max, Idle, train).1;
    CompletesExactly(max, train, m);
    RunAppend(max, Idle, before, train);
    MessagesAppend(o1, o2);
    OneMessage(o2, m);
  }

  lemma OneMessage(os: seq<Outcome>, m: Message)
    requires CompletesLast(os, m)
    ensures Messages(os) == [m]
  {
    NoMessages(os[..|os| - 1]);
  }

  // ----- Arbitrary streams

  /** After a refused fragment the assembler behaves as a fresh one on the rest of the stream. */
  lemma RejectionForgets(max: nat, s: State, before: seq<Fragment>, f: Fragment, after: seq<Fragment>)
    requires Run(max, s, before + [f]).1[|before|].Rejected?
    ensures Run(max, s, before + [f] + after).1[|before| + 1..] == Run(max, Idle, after).1
    ensures Run(max, s, before + [f] + after).0 == Run(max, Idle, after).0
  {
    hide PushSpec;
    var upto := before + [f];
    assert upto[..|upto| - 1] == before;
    LastPush(max, Run(max, s, before).0, f);
    RunAppend(max, s, upto, after);
  }

  /** Where the train that ends the stream starts, if the assembler is in the middle of one. */
  ghost predicate OpenFrom(max: nat, s: State, fs: seq<Fragment>, i: nat) {
    i < |fs| && IsOpenTrain(max, fs[i..]) && s == StateOf(fs[i..])
  }

  ghost predicate CarriedFrom(max: nat, fs: seq<Fragment>, j: nat, m: Message, i: nat) {
    i <= j < |fs| && Carries(max, fs[i..j + 1], m)
  }

  /**
   Whatever the stream, a completed message is carried by a run of consecutive fragments ending
   there: one generation, no gap, and the payload their concatenation.
   */
  lemma {:induction false} CompletedAreCarried(max: nat, fs: seq<Fragment>)
    ensures
      var (s, os) := Run(max, Idle, fs);
      && (s.Assembling? ==> exists i: nat :: OpenFrom(max, s, fs, i))
      && forall j | 0 <= j < |fs| && os[j].Complete? :: exists i: nat :: CarriedFrom(max, fs, j, os[j].message, i)
    decreases |fs|
  {
    hide PushSpec;
    hide IsOpenTrain;
    hide Carries;
    var (s, os) := Run(max, Idle, fs);
    var n := |fs| - 1;
    if n >= 0 {
      var init, f := fs[..n], fs[n];
      var s1 := Run(max, Idle, init).0;
      CompletedAreCarried(max, init);
      forall j | 0 <= j < n && os[j].Complete?
        ensures exists i: nat :: CarriedFrom(max, fs, j, os[j].message, i)
      {
        var i: nat :| CarriedFrom(max, init, j, os[j].message, i);
        assert init[i..j + 1] == fs[i..j + 1];
        assert CarriedFrom(max, fs, j, os[j].message, i);
      }
      LastOfStream(max, init, s1, f);
      assert init + [f] == fs;
      assert (s, os[n]) == PushSpec(max, s1, f);
    }
  }

  lemma LastOfStream(max: nat, init: seq<Fragment>, s1: State, f: Fragment)
    requires s1.Assembling? ==> exists i: nat :: OpenFrom(max, s1, init, i)
    ensures
      var (s, o) := PushSpec(max, s1, f);
      var fs := init + [f];
      && (s.Assembling? ==> exists i: nat :: OpenFrom(max, s, fs, i))
      && (o.Complete? ==> exists i: nat :: CarriedFrom(max, fs, |init|, o.message, i))
  {
    hide IsOpenTrain;
    hide Carries;
    var fs := init + [f];
    LastPush(max, s1, f);
    var i: nat := |init|;
    if s1.Idle? {
      FirstStep(max, f);
      assert fs[i..] == [f];
    } else {
      var k: nat :| OpenFrom(max, s1, init, k);
      i := k;
      NextStep(max, init[i..], f);
      assert fs[i..] == init[i..] + [f];
    }
    assert fs[i..|init| + 1] == fs[i..];
    var (s, o) := PushSpec(max, s1, f);
    hide PushSpec;
    assert s.Assembling? ==> OpenFrom(max, s, fs, i);
    assert o.Complete? ==> CarriedFrom(max, fs, |init|, o.message, i);
  }
}
