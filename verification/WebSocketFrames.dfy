/**
 Data frames and the messages they make up, after section 5.4 of RFC 6455, against what the assembler returns.
 The assembler takes each frame for a message of its own: it never reads the final bit, and it refuses
 every continuation frame.
 */
module WebSocketFrames {
  import opened Wrappers
  import opened WebSocketAssembler

  datatype DataFrame = DataFrame(opcode: Opcode, fin: bool, payload: Bytes)

  /** A frame and the data callbacks it is delivered in. */
  datatype Sent = Sent(frame: DataFrame, cut: seq<Fragment>)

  /** The callbacks carry the frame's header and, one after the other, all of its payload. */
  predicate IsCut(generation: nat, x: Sent) {
    && x.cut != [] && Data(x.cut) == x.frame.payload
    && forall i | 0 <= i < |x.cut| ::
         && x.cut[i].generation == generation && x.cut[i].opcode == x.frame.opcode && x.cut[i].fin == x.frame.fin
         && x.cut[i].payloadLen == |x.frame.payload|
         && x.cut[i].payloadOffset == |Data(x.cut[..i])| && (x.frame.payload != [] ==> x.cut[i].payloadOffset < |x.frame.payload|)
         && (|x.cut[i].data| > 0 ==> x.cut[i].hasData)
  }

  /** A message: a text or binary frame, continuation frames after it, and the final bit on the last one alone. */
  predicate IsMessage(generation: nat, m: seq<Sent>) {
    && m != [] && (m[0].frame.opcode.Text? || m[0].frame.opcode.Binary?)
    && forall i | 0 <= i < |m| ::
         && IsCut(generation, m[i]) && (i > 0 ==> m[i].frame.opcode.Continuation?)
         && m[i].frame.fin == (i == |m| - 1)
  }

  function Payload(m: seq<Sent>): Bytes {
    if m == [] then [] else m[0].frame.payload + Payload(m[1..])
  }

  /** The message that the frames make up. */
  function Whole(generation: nat, m: seq<Sent>): Message
    requires m != []
  {
    Message(generation, m[0].frame.opcode, Payload(m))
  }

  function Fragments(m: seq<Sent>): seq<Fragment> {
    if m == [] then [] else Fragments(m[..|m| - 1]) + m[|m| - 1].cut
  }

  // ----- The final bit

  /** No push depends on the final bit. */
  lemma FinNeverRead(max: nat, s: State, f: Fragment, fin: bool)
    ensures PushSpec(max, s, f.(fin := fin)) == PushSpec(max, s, f)
  {
  }

  // ----- What the assembler makes of each frame

  predicate Fits(max: nat, x: Sent) { 0 < |x.frame.payload| <= max }

  function Refusals(n: nat): seq<Outcome> { seq(n, _ => Rejected(InvalidArgument)) }

  /** The outcomes of a frame's callbacks: a first frame that fits is completed by its last one; all others are refused. */
  function FrameOutcomes(max: nat, generation: nat, first: bool, x: Sent): seq<Outcome>
    requires x.cut != []
  {
    if first && Fits(max, x)
    then Pendings(|x.cut| - 1) + [Complete(Message(generation, x.frame.opcode, x.frame.payload))]
    else Refusals(|x.cut|)
  }

  function MessageOutcomes(max: nat, generation: nat, m: seq<Sent>): seq<Outcome>
    requires forall i | 0 <= i < |m| :: m[i].cut != []
  {
    if m == [] then []
    else MessageOutcomes(max, generation, m[..|m| - 1]) + FrameOutcomes(max, generation, |m| == 1, m[|m| - 1])
  }

  lemma FirstFrameCarries(max: nat, generation: nat, x: Sent)
    requires IsCut(generation, x) && Fits(max, x) && (x.frame.opcode.Text? || x.frame.opcode.Binary?)
    ensures Carries(max, x.cut, Message(generation, x.frame.opcode, x.frame.payload))
  {
    hide Data;
  }

  lemma {:induction false} AllRefused(max: nat, fs: seq<Fragment>)
    requires forall i | 0 <= i < |fs| :: PushSpec(max, Idle, fs[i]) == (Idle, Rejected(InvalidArgument))
    ensures Run(max, Idle, fs) == (Idle, Refusals(|fs|))
    decreases |fs|
  {
    hide PushSpec, Run;
    if fs == [] {
      RunNothing(max, Idle);
      assert Refusals(0) == Pendings(0);
    } else {
      var n := |fs| - 1;
      AllRefused(max, fs[..n]);
      RunSnoc(max, Idle, fs[..n], fs[n]);
      assert fs[..n] + [fs[n]] == fs;
      hide PushSpec;
      assert Refusals(n) + [Rejected(InvalidArgument)] == Refusals(n + 1);
    }
  }

  lemma FrameRuns(max: nat, generation: nat, first: bool, x: Sent)
    requires IsCut(generation, x)
    requires if first then x.frame.opcode.Text? || x.frame.opcode.Binary? else x.frame.opcode.Continuation?
    ensures Run(max, Idle, x.cut) == (Idle, FrameOutcomes(max, generation, first, x))
  {
    if first && Fits(max, x) {
      var m := Message(generation, x.frame.opcode, x.frame.payload);
      FirstFrameCarries(max, generation, x);
      hide Carries, PushSpec, IsCut, Run;
      CarriedIsCompleted(max, x.cut, m);
      var os := Run(max, Idle, x.cut).1;
      assert os == Pendings(|x.cut| - 1) + [Complete(m)];
    } else {
      hide Data, Run;
      AllRefused(max, x.cut);
    }
  }

  lemma {:induction false} MessageRuns(max: nat, generation: nat, m: seq<Sent>, whole: seq<Sent>)
    requires IsMessage(generation, whole) && m <= whole
    ensures Run(max, Idle, Fragments(m)) == (Idle, MessageOutcomes(max, generation, m))
    decreases |m|
  {
    hide IsCut, FrameOutcomes, PushSpec;
    if m != [] {
      var n := |m| - 1;
      assert m[..n] <= whole && m[n] == whole[n];
      MessageRuns(max, generation, m[..n], whole);
      FrameRuns(max, generation, n == 0, m[n]);
      hide Run;
      RunAppend(max, Idle, Fragments(m[..n]), m[n].cut);
    }
  }

  // ----- Streams of messages

  function StreamFragments(ms: seq<seq<Sent>>): seq<Fragment> {
    if ms == [] then [] else StreamFragments(ms[..|ms| - 1]) + Fragments(ms[|ms| - 1])
  }

  predicate IsStream(generation: nat, ms: seq<seq<Sent>>) { forall i | 0 <= i < |ms| :: IsMessage(generation, ms[i]) }

  /** The messages that the stream makes up. */
  function Intended(generation: nat, ms: seq<seq<Sent>>): (r: seq<Message>)
    requires IsStream(generation, ms)
    ensures |r| == |ms|
  {
    if ms == [] then [] else Intended(generation, ms[..|ms| - 1]) + [Whole(generation, ms[|ms| - 1])]
  }

  /** What the assembler returns for one message: its first frame alone, if that fits. */
  function Returned(max: nat, generation: nat, m: seq<Sent>): seq<Message>
    requires m != []
  {
    if Fits(max, m[0]) then [Message(generation, m[0].frame.opcode, m[0].frame.payload)] else []
  }

  function ReturnedAll(max: nat, generation: nat, ms: seq<seq<Sent>>): (r: seq<Message>)
    requires IsStream(generation, ms)
    ensures |r| <= |ms|
  {
    if ms == [] then [] else ReturnedAll(max, generation, ms[..|ms| - 1]) + Returned(max, generation, ms[|ms| - 1])
  }

  lemma RefusalsReturnNothing(n: nat)
    ensures Messages(Refusals(n)) == []
  {
    if n > 0 {
      RefusalsReturnNothing(n - 1);
      assert Refusals(n)[..n - 1] == Refusals(n - 1);
    }
  }

  lemma FrameReturns(max: nat, generation: nat, first: bool, x: Sent)
    requires x.cut != []
    ensures Messages(FrameOutcomes(max, generation, first, x))
         == if first && Fits(max, x) then [Message(generation, x.frame.opcode, x.frame.payload)] else []
    ensures NothingRejected(FrameOutcomes(max, generation, first, x)) <==> first && Fits(max, x)
  {
    if first && Fits(max, x) {
      OneMessage(FrameOutcomes(max, generation, first, x), Message(generation, x.frame.opcode, x.frame.payload));
    } else {
      RefusalsReturnNothing(|x.cut|);
      assert Refusals(|x.cut|)[0].Rejected?;
    }
  }

  lemma RefusedAppend(a: seq<Outcome>, b: seq<Outcome>)
    ensures NothingRejected(a + b) <==> NothingRejected(a) && NothingRejected(b)
  {
    assert forall i | 0 <= i < |a| :: (a + b)[i] == a[i];
    assert forall i | 0 <= i < |b| :: (a + b)[|a| + i] == b[i];
  }

  lemma {:induction false} MessageReturns(max: nat, generation: nat, m: seq<Sent>)
    requires m != [] && forall i | 0 <= i < |m| :: m[i].cut != []
    ensures Messages(MessageOutcomes(max, generation, m)) == Returned(max, generation, m)
    ensures NothingRejected(MessageOutcomes(max, generation, m)) <==> |m| == 1 && Fits(max, m[0])
    decreases |m|
  {
    hide Messages, FrameOutcomes, NothingRejected;
    var n := |m| - 1;
    var init := MessageOutcomes(max, generation, m[..n]);
    var last := FrameOutcomes(max, generation, n == 0, m[n]);
    FrameReturns(max, generation, n == 0, m[n]);
    MessagesAppend(init, last);
    RefusedAppend(init, last);
    if n > 0 {
      MessageReturns(max, generation, m[..n]);
    } else {
      EmptyReturns();
    }
  }

  lemma EmptyReturns()
    ensures Messages([]) == [] && NothingRejected([])
  {
  }

  /** Whether every message of the stream is one frame that fits. */
  predicate SingleFrames(max: nat, generation: nat, ms: seq<seq<Sent>>)
    requires IsStream(generation, ms)
  {
    forall i | 0 <= i < |ms| :: |ms[i]| == 1 && Fits(max, ms[i][0])
  }

  /**
   For every stream of messages, each in any number of frames and each frame cut anyhow: the assembler ends idle and
   returns, for each message, its first frame alone if that is not empty and within the limit. It refuses
   nothing if and only if every message is a single such frame.
   */
  lemma {:induction false} StreamRuns(max: nat, generation: nat, ms: seq<seq<Sent>>)
    requires IsStream(generation, ms)
    ensures
      var (s, os) := Run(max, Idle, StreamFragments(ms));
      && s == Idle && Messages(os) == ReturnedAll(max, generation, ms)
      && (NothingRejected(os) <==> SingleFrames(max, generation, ms))
    decreases |ms|
  {
    hide PushSpec, IsMessage, Returned, NothingRejected, Fits;
    if ms == [] {
      EmptyReturns();
    } else {
      var n := |ms| - 1;
      var before, last := ms[..n], ms[n];
      StreamRuns(max, generation, before);
      LastMessage(max, generation, last);
      hide Run, Messages;
      RunAppend(max, Idle, StreamFragments(before), Fragments(last));
      MessagesAppend(Run(max, Idle, StreamFragments(before)).1, Run(max, Idle, Fragments(last)).1);
      RefusedAppend(Run(max, Idle, StreamFragments(before)).1, Run(max, Idle, Fragments(last)).1);
      SingleSnoc(max, generation, ms);
    }
  }

  lemma SingleSnoc(max: nat, generation: nat, ms: seq<seq<Sent>>)
    requires IsStream(generation, ms) && ms != []
    ensures var n := |ms| - 1;
            SingleFrames(max, generation, ms)
            <==> SingleFrames(max, generation, ms[..n]) && |ms[n]| == 1 && Fits(max, ms[n][0])
  {
    hide Fits;
    var n := |ms| - 1;
    assert forall i | 0 <= i < n :: ms[..n][i] == ms[i];
  }

  lemma LastMessage(max: nat, generation: nat, m: seq<Sent>)
    requires IsMessage(generation, m)
    ensures m != []
    ensures
      var (s, os) := Run(max, Idle, Fragments(m));
      && s == Idle && Messages(os) == Returned(max, generation, m)
      && (NothingRejected(os) <==> |m| == 1 && Fits(max, m[0]))
  {
    hide Run, Messages, Returned, NothingRejected, MessageOutcomes;
    MessageRuns(max, generation, m, m);
    MessageReturns(max, generation, m);
  }

  // ----- Exactly when the messages come out

  /** A message of which the first frame carries everything: it fits, and the frames after it are empty. */
  predicate AllInFirst(max: nat, m: seq<Sent>)
    requires m != []
  {
    Fits(max, m[0]) && forall i | 1 <= i < |m| :: m[i].frame.payload == []
  }

  lemma {:induction false} EmptyPayload(m: seq<Sent>)
    ensures Payload(m) == [] <==> forall i | 0 <= i < |m| :: m[i].frame.payload == []
  {
    if m != [] {
      EmptyPayload(m[1..]);
      assert forall i | 1 <= i < |m| :: m[i] == m[1..][i - 1];
    }
  }

  lemma FirstIsAll(m: seq<Sent>)
    requires m != []
    ensures Payload(m) == m[0].frame.payload <==> forall i | 1 <= i < |m| :: m[i].frame.payload == []
  {
    EmptyPayload(m[1..]);
    var rest := Payload(m[1..]);
    assert Payload(m) == m[0].frame.payload + rest;
    assert Payload(m) == m[0].frame.payload <==> rest == [];
    hide Payload;
    assert forall i | 1 <= i < |m| :: m[i] == m[1..][i - 1];
    assert forall i | 0 <= i < |m| - 1 :: m[1..][i] == m[i + 1];
  }

  /**
   For every stream: the assembler returns exactly the messages the stream makes up if and only if each of them has
   all its bytes in a first frame that is not empty and within the limit.
   */
  lemma {:induction false} MessagesExactIff(max: nat, generation: nat, ms: seq<seq<Sent>>)
    requires IsStream(generation, ms)
    ensures Messages(Run(max, Idle, StreamFragments(ms)).1) == Intended(generation, ms)
            <==> forall i | 0 <= i < |ms| :: AllInFirst(max, ms[i])
  {
    StreamRuns(max, generation, ms);
    hide Run, Messages, StreamFragments, AllInFirst, SingleFrames;
    ReturnedIff(max, generation, ms);
  }

  lemma {:induction false} ReturnedIff(max: nat, generation: nat, ms: seq<seq<Sent>>)
    requires IsStream(generation, ms)
    ensures ReturnedAll(max, generation, ms) == Intended(generation, ms) <==> forall i | 0 <= i < |ms| :: AllInFirst(max, ms[i])
    decreases |ms|
  {
    hide Returned, Whole, AllInFirst, IsMessage;
    if ms != [] {
      var n := |ms| - 1;
      ReturnedIff(max, generation, ms[..n]);
      LastReturned(max, generation, ms);
      hide ReturnedAll, Intended;
      assert forall i | 0 <= i < n :: ms[..n][i] == ms[i];
    }
  }

  lemma LastReturned(max: nat, generation: nat, ms: seq<seq<Sent>>)
    requires IsStream(generation, ms) && ms != []
    ensures var n := |ms| - 1;
            && ms[n] != []
            && (ReturnedAll(max, generation, ms) == Intended(generation, ms) <==>
                ReturnedAll(max, generation, ms[..n]) == Intended(generation, ms[..n]) && AllInFirst(max, ms[n]))
  {
    hide Returned, Whole, AllInFirst, IsMessage;
    var n := |ms| - 1;
    OneReturned(max, generation, ms[n]);
    SameEnds(ReturnedAll(max, generation, ms[..n]), Returned(max, generation, ms[n]),
             Intended(generation, ms[..n]), Whole(generation, ms[n]));
  }

  lemma OneReturned(max: nat, generation: nat, m: seq<Sent>)
    requires IsMessage(generation, m)
    ensures m != [] && |Returned(max, generation, m)| <= 1
    ensures Returned(max, generation, m) == [Whole(generation, m)] <==> AllInFirst(max, m)
  {
    hide Payload, IsCut;
    FirstIsAll(m);
  }

  lemma SameEnds<T>(a: seq<T>, b: seq<T>, c: seq<T>, d: T)
    requires |a| <= |c| && |b| <= 1
    ensures a + b == c + [d] <==> a == c && b == [d]
  {
    if a + b == c + [d] {
      assert |a| == |c| && |b| == 1;
      assert a == (a + b)[..|a|] && c == (c + [d])[..|c|];
      assert b[0] == (a + b)[|a|];
    }
  }

  /** The smallest case: a text message in two frames comes out as its first half, and the second half is refused. */
  lemma SplitMessageBreaks(max: nat, generation: nat, a: Byte, b: Byte)
    requires max >= 1
    ensures
      var first := Fragment(generation, Text, true, [a], 1, 0, false);
      var second := Fragment(generation, Continuation, true, [b], 1, 0, true);
      Run(max, Idle, [first, second])
      == (Idle, [Complete(Message(generation, Text, [a])), Rejected(InvalidArgument)])
  {
    var first := Fragment(generation, Text, true, [a], 1, 0, false);
    var second := Fragment(generation, Continuation, true, [b], 1, 0, true);
    assert PushSpec(max, Idle, first) == (Idle, Complete(Message(generation, Text, [a])));
    assert PushSpec(max, Idle, second) == (Idle, Rejected(InvalidArgument));
    hide PushSpec, Run;
    RunTwo(max, first, second);
  }

  lemma RunTwo(max: nat, f: Fragment, g: Fragment)
    requires PushSpec(max, Idle, f).0 == Idle && PushSpec(max, Idle, g).0 == Idle
    ensures Run(max, Idle, [f, g]) == (Idle, [PushSpec(max, Idle, f).1, PushSpec(max, Idle, g).1])
  {
    assert Run(max, Idle, []) == (Idle, []);
    hide PushSpec, Run;
    RunSnoc(max, Idle, [], f);
    RunSnoc(max, Idle, [f], g);
    TwoOf(f, g);
    TwoOf(PushSpec(max, Idle, f).1, PushSpec(max, Idle, g).1);
  }

  lemma TwoOf<T>(a: T, b: T)
    ensures [] + [a] == [a] && [a] + [b] == [a, b]
  {
  }
}
