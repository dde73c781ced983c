/**
 The decoder after an overflow. Its header promises that feeding stops accumulating until a reset; the code
 never reads the flag it sets. What it does instead, exactly when the promise happens to hold, and what
 becomes of the rest of the over-long frame.
 */
module SseOverflow {
  import opened Wrappers
  import opened SseDecoder
  import opened SseWire

  /** A text that leaves the buffer empty when it is fed to an empty one: all closed, or over the limit again. */
  predicate LeavesNothing(text: string) { Rest(text) == [] || |Rest(text)| >= MAX_FRAME_BYTES }

  /** The flag changes nothing but itself: with it set, any feeds give the frames, buffer and CR flag they give without. */
  lemma {:induction false} FlagNeverRead(s: State, chunks: seq<string>)
    ensures
      var (marked, f1) := FeedAll(s.(overflow := true), chunks);
      var (clear, f2) := FeedAll(s.(overflow := false), chunks);
      f1 == f2 && marked == clear.(overflow := true)
    decreases |chunks|
  {
    hide Rest;
    hide Blocks;
    hide ParsedBlocks;
    if chunks != [] {
      FlagNeverRead(s, chunks[..|chunks| - 1]);
    }
  }

  lemma {:induction false} FeedAllAppend(s: State, first: string, chunks: seq<string>)
    ensures
      var (s1, f1) := FeedSpec(s, first);
      var (s2, f2) := FeedAll(s1, chunks);
      FeedAll(s, [first] + chunks) == (s2, f1 + f2)
    decreases |chunks|
  {
    hide FeedSpec;
    var whole := [first] + chunks;
    if chunks == [] {
      assert whole == [first];
      FeedOne(s, first);
      assert FeedSpec(s, first).1 + [] == FeedSpec(s, first).1;
    } else {
      var n := |chunks| - 1;
      FeedAllAppend(s, first, chunks[..n]);
      assert whole[..|whole| - 1] == [first] + chunks[..n] && whole[|whole| - 1] == chunks[n];
      var f1, f2 := FeedSpec(s, first).1, FeedAll(FeedSpec(s, first).0, chunks[..n]).1;
      var f3 := FeedSpec(FeedAll(FeedSpec(s, first).0, chunks[..n]).0, chunks[n]).1;
      assert (f1 + f2) + f3 == f1 + (f2 + f3);
    }
  }

  /**
   A feed that overflows drops what is unfinished, and from there on the decoder does what a new one does,
   but for the flag and for a line feed right after a carriage return.
   */
  lemma OverflowForgets(s: State, bytes: string, chunks: seq<string>)
    requires |Rest(Text(s, bytes))| >= MAX_FRAME_BYTES
    ensures
      var fresh' := State("", EndsWithCr(bytes, s.trailingCr), false);
      var (later, frames) := FeedAll(fresh', chunks);
      FeedAll(s, [bytes] + chunks) == (later.(overflow := true), FeedSpec(s, bytes).1 + frames)
  {
    var s1 := FeedSpec(s, bytes).0;
    FeedAllAppend(s, bytes, chunks);
    FlagNeverRead(s1, chunks);
    assert s1.(overflow := true) == s1;
    assert s1.(overflow := false) == State("", EndsWithCr(bytes, s.trailingCr), false);
    hide FeedAll;
    hide FeedSpec;
  }

  /** The promise at an input: a whole unfinished text below the limit is buffered although the flag is set. */
  lemma GoesOnAccumulating(body: string)
    requires '\r' !in body && NoBlank(body) && |body| < MAX_FRAME_BYTES
    ensures FeedSpec(State("", false, true), body).0.buffer == body
  {
    FoldPlain(body, false);
    var s := State("", false, true);
    assert Text(s, body) == body;
    RestOfNoBlank(body);
  }

  lemma RestOfNoBlank(s: string)
    requires NoBlank(s)
    ensures Rest(s) == s
  {
    assert FirstBlank(s).None?;
  }

  /** The text that chunk `k` adds. */
  function ChunkText(chunks: seq<string>, k: nat, afterCr: bool): string
    requires k < |chunks|
  {
    FoldEol(chunks[k], EndsWithCr(Concat(chunks[..k]), afterCr))
  }

  /** The buffer after the first `k` feeds that follow an overflow. */
  function Kept(afterCr: bool, chunks: seq<string>, k: nat): string
    requires k <= |chunks|
  {
    FeedAll(State("", afterCr, true), chunks[..k]).0.buffer
  }

  /**
   Exactly when feeding stops accumulating: after an overflow, whatever is fed, the buffer is empty after every
   feed if and only if every chunk by itself closes its last block or overflows again.
   */
  lemma StopsAccumulatingIff(afterCr: bool, chunks: seq<string>)
    ensures (forall k | 0 <= k <= |chunks| :: Kept(afterCr, chunks, k) == "")
            <==> forall k | 0 <= k < |chunks| :: LeavesNothing(ChunkText(chunks, k, afterCr))
  {
    hide LeavesNothing, ChunkText, Kept;
    StopsUpTo(afterCr, chunks, |chunks|);
  }

  lemma {:induction false} StopsUpTo(afterCr: bool, chunks: seq<string>, m: nat)
    requires m <= |chunks|
    ensures (forall k | 0 <= k <= m :: Kept(afterCr, chunks, k) == "")
            <==> forall k | 0 <= k < m :: LeavesNothing(ChunkText(chunks, k, afterCr))
    decreases m
  {
    hide LeavesNothing, ChunkText, Kept;
    if m == 0 {
      NothingKept(afterCr, chunks);
    } else {
      StopsUpTo(afterCr, chunks, m - 1);
      ChunkLeaves(afterCr, chunks, m - 1);
    }
  }

  lemma NothingKept(afterCr: bool, chunks: seq<string>)
    ensures Kept(afterCr, chunks, 0) == ""
  {
    assert chunks[..0] == [];
  }

  lemma ChunkLeaves(afterCr: bool, chunks: seq<string>, k: nat)
    requires k < |chunks|
    ensures Kept(afterCr, chunks, k) == "" ==>
              (Kept(afterCr, chunks, k + 1) == "" <==> LeavesNothing(ChunkText(chunks, k, afterCr)))
  {
    hide LeavesNothing, FeedSpec;
    var s := State("", afterCr, true);
    assert chunks[..k + 1][..k] == chunks[..k] && chunks[..k + 1][k] == chunks[k];
    CrAfter(s, chunks[..k]);
    FeedLeaves(FeedAll(s, chunks[..k]).0, chunks[k]);
  }

  lemma FeedLeaves(s: State, bytes: string)
    ensures s.buffer == "" ==>
              (FeedSpec(s, bytes).0.buffer == "" <==> LeavesNothing(FoldEol(bytes, s.trailingCr)))
  {
    if s.buffer == "" {
      assert Text(s, bytes) == FoldEol(bytes, s.trailingCr);
    }
  }

  lemma {:induction false} CrAfter(s: State, chunks: seq<string>)
    ensures FeedAll(s, chunks).0.trailingCr == EndsWithCr(Concat(chunks), s.trailingCr)
    decreases |chunks|
  {
    hide Rest;
    hide Blocks;
    hide ParsedBlocks;
    if chunks != [] {
      CrAfter(s, chunks[..|chunks| - 1]);
      FoldAppend(Concat(chunks[..|chunks| - 1]), chunks[|chunks| - 1], s.trailingCr);
    }
  }

  // ----- The rest of an over-long frame

  lemma PrefixFirstLine(body: string, lines: seq<string>)
    requires lines != []
    ensures body + JoinLines(lines) == JoinLines([body + lines[0]] + lines[1..])
  {
    var with := [body + lines[0]] + lines[1..];
    assert with[1..] == lines[1..];
    if |lines| > 1 {
      var eol: string, more := "\n", JoinLines(lines[1..]);
      assert JoinLines(lines) == lines[0] + eol + more && JoinLines(with) == body + lines[0] + eol + more;
      hide JoinLines;
      RegroupText(body, lines[0], eol);
      RegroupText(body, lines[0] + eol, more);
    }
  }

  lemma LongBlockLines(body: string, f: Frame)
    requires '\n' !in body && '\n' !in f.id && '\n' !in f.event
    ensures Lines(body + Block(f)) == [body + FrameLines(f)[0]] + FrameLines(f)[1..]
  {
    FrameLinesAreLines(f);
    hide FrameLines, JoinLines, Lines;
    PrefixFirstLine(body, FrameLines(f));
    LinesOfJoinPrefixed(body, FrameLines(f));
  }

  lemma LinesOfJoinPrefixed(body: string, short: seq<string>)
    requires short != [] && '\n' !in body && forall i | 0 <= i < |short| :: '\n' !in short[i]
    ensures var lines := [body + short[0]] + short[1..]; Lines(JoinLines(lines)) == lines
  {
    hide JoinLines, Lines;
    var lines := [body + short[0]] + short[1..];
    forall i | 0 <= i < |lines| ensures '\n' !in lines[i] {
      if i > 0 {
        assert lines[i] == short[i];
      }
    }
    LinesOfJoin(lines);
  }

  lemma LinesOfFrame(f: Frame, first: string)
    ensures [first] + FrameLines(f)[1..] == [first, "event: " + f.event] + DataLines(Lines(f.data))
  {
    hide DataLines;
    hide Lines;
  }

  /** Uncut, a frame whose first line is lengthened by text without a colon loses its id to an unknown field. */
  lemma LengthenedParsed(body: string, f: Frame)
    requires '\n' !in body && ':' !in body && body != [] && '\n' !in f.id && '\n' !in f.event
    ensures ParsedBlock(body + Block(f)) == Some(Frame("", Trim(f.event), StripNewlines(f.data)))
  {
    var first := body + FrameLines(f)[0];
    LongBlockLines(body, f);
    LinesOfFrame(f, first);
    FirstLineIgnored(body, f.id);
    RegroupText(body, "id: ", f.id);
    FieldsAfterFirst(f, first);
    hide FrameLines;
    hide Block;
    hide ApplyLines;
    hide Lines;
    hide Trim;
    hide StripNewlines;
  }

  lemma FieldsAfterFirst(f: Frame, first: string)
    requires ApplyLine(NO_FIELDS, first) == NO_FIELDS
    ensures ApplyLines(NO_FIELDS, [first, "event: " + f.event] + DataLines(Lines(f.data)))
         == Fields(Frame("", Trim(f.event), StripNewlines(f.data)), true)
  {
    hide ApplyLine;
    hide ApplyLines;
    hide DataLines;
    hide Trim;
    hide StripNewlines;
    hide Lines;
    hide JoinAll;
    var ls := DataLines(Lines(f.data));
    var f2 := ApplyField(NO_FIELDS, "event", f.event);
    FieldLine(NO_FIELDS, "event", f.event);
    assert "event" + ": " + f.event == "event: " + f.event;
    ApplyTwo(NO_FIELDS, first, "event: " + f.event, ls);
    DataLinesApplied(f2, Lines(f.data));
    JoinLosesLeadingNewlines(f.data);
  }

  lemma FirstLineIgnored(body: string, id: string)
    requires body != [] && ':' !in body
    ensures ApplyLine(NO_FIELDS, body + "id: " + id) == NO_FIELDS
  {
    hide ApplyLine;
    var name := body + "id";
    assert name + ": " + id == body + "id: " + id;
    FieldLine(NO_FIELDS, name, id);
    UnknownField(body);
  }

  lemma UnknownField(body: string)
    requires body != []
    ensures body + "id" != "id" && body + "id" != "event" && body + "id" != "data"
  {
    var name := body + "id";
    assert name[|name| - 1] == 'd' && |name| > 2;
  }

  /**
   The consequence: when a cut falls inside an over-long first line, what follows the cut is decoded as a frame of
   its own, with the id of the text after the cut; in one feed the same bytes are one frame without an id.
   */
  lemma TailBecomesFrame(body: string, f: Frame)
    requires WellFormed(f) && |body| >= MAX_FRAME_BYTES && '\r' !in body && '\n' !in body && ':' !in body
    ensures FeedAll(INITIAL, [body, Encode(f)]) == (State("", false, true), [f])
    ensures FeedAll(INITIAL, [body + Encode(f)]) == (INITIAL, [f.(id := "")])
  {
    CutInside(body, f);
    UncutWhole(body, f);
  }

  lemma PlainText(s: State, text: string)
    requires s.buffer == "" && !s.trailingCr && '\r' !in text
    ensures Text(s, text) == text && EndsWithCr(text, false) == false
  {
    FoldPlain(text, false);
    assert "" + text == text;
  }

  lemma TakeDrop(a: string, b: string)
    ensures (a + b)[..|a|] == a && (a + b)[|a + b|..] == []
  {
  }

  lemma RegroupText(a: string, b: string, c: string)
    ensures a + b + c == a + (b + c)
  {
  }

  lemma NothingLeft()
    ensures Rest([]) == [] && Blocks([]) == []
  {
    assert FirstBlank([]).None?;
  }

  lemma OneBlockCut(block: string, end: string)
    requires |end| == 2 && FirstBlank(block + end) == Some(|block|)
    ensures Rest(block + end) == [] && Blocks(block + end) == [block]
  {
    hide FirstBlank;
    NothingLeft();
    TakeDrop(block, end);
    assert |block + end| == |block| + 2;
  }

  lemma OneParsed(block: string, f: Frame)
    requires ParsedBlock(block) == Some(f)
    ensures ParsedBlocks([block]) == [f]
  {
    hide ParsedBlock;
    assert [block][1..] == [];
  }

  lemma OneFrameFed(s: State, block: string, end: string, f: Frame)
    requires s.buffer == "" && !s.trailingCr && '\r' !in block && '\r' !in end
    requires |end| == 2 && FirstBlank(block + end) == Some(|block|) && ParsedBlock(block) == Some(f)
    ensures FeedSpec(s, block + end) == (s, [f])
  {
    PlainText(s, block + end);
    OneBlockCut(block, end);
    OneParsed(block, f);
    hide Text, EndsWithCr, Rest, Blocks, ParsedBlock, ParsedBlocks, FirstBlank;
  }

  lemma OverflowFed(body: string)
    requires |body| >= MAX_FRAME_BYTES && '\r' !in body && '\n' !in body
    ensures FeedSpec(INITIAL, body) == (State("", false, true), [])
  {
    PlainText(INITIAL, body);
    assert FirstBlank(body).None?;
    hide Text;
    hide EndsWithCr;
    hide FirstBlank;
  }

  lemma FrameFedAfter(s: State, f: Frame)
    requires WellFormed(f) && s.buffer == "" && !s.trailingCr
    ensures FeedSpec(s, Encode(f)) == (s, [f])
  {
    EncodeHasNoCr(f);
    FirstBlockEnds(f, []);
    BlockRoundTrip(f);
    hide FeedSpec, Block, ParsedBlock, FirstBlank;
    assert Encode(f) + [] == Encode(f);
    OneFrameFed(s, Block(f), "\n\n", f);
  }

  lemma CutInside(body: string, f: Frame)
    requires WellFormed(f) && |body| >= MAX_FRAME_BYTES && '\r' !in body && '\n' !in body
    ensures FeedAll(INITIAL, [body, Encode(f)]) == (State("", false, true), [f])
  {
    var s := State("", false, true);
    OverflowFed(body);
    FrameFedAfter(s, f);
    hide FeedSpec, FeedAll, Encode, WellFormed;
    FeedAllAppend(INITIAL, body, [Encode(f)]);
    FeedOne(s, Encode(f));
    assert [body] + [Encode(f)] == [body, Encode(f)];
  }

  lemma EncodeHasNoCr(f: Frame)
    requires WellFormed(f)
    ensures '\r' !in Block(f)
  {
    BlockIsPlain(f);
  }

  lemma UncutWhole(body: string, f: Frame)
    requires WellFormed(f) && body != [] && '\r' !in body && '\n' !in body && ':' !in body
    ensures FeedAll(INITIAL, [body + Encode(f)]) == (INITIAL, [f.(id := "")])
  {
    EncodeHasNoCr(f);
    LengthenedParsed(body, f);
    StripShortens(f.data);
    FirstBlockEnds(f, []);
    assert Encode(f) + [] == Encode(f);
    LengthenedFed(body, Block(f), "\n\n", f.(id := ""));
    hide FeedSpec;
    FeedOne(INITIAL, body + Encode(f));
  }

  lemma LengthenedFed(body: string, block: string, end: string, f: Frame)
    requires '\n' !in body && '\r' !in body && '\r' !in block && '\r' !in end && |end| == 2
    requires FirstBlank(block + end) == Some(|block|) && ParsedBlock(body + block) == Some(f)
    ensures FeedSpec(INITIAL, body + (block + end)) == (INITIAL, [f])
  {
    hide FirstBlank, ParsedBlock, FeedSpec;
    RegroupText(body, block, end);
    BlankMoves(body, block + end, |block|);
    assert |body + block| == |body| + |block|;
    OneFrameFed(INITIAL, body + block, end, f);
  }

  /** Text without a line end before a text moves its first blank line on. */
  lemma BlankMoves(body: string, e: string, i: nat)
    requires '\n' !in body && FirstBlank(e) == Some(i)
    ensures FirstBlank(body + e) == Some(|body| + i)
  {
    var s := body + e;
    assert BlankAt(e, i);
    forall j | j < |body| + i ensures !BlankAt(s, j) {
      if 0 <= j < |body| {
        assert s[j] == body[j];
      } else {
        BeforeFirstBlank(e, i, j - |body|);
      }
    }
    hide FirstBlank;
    FirstBlankUnique(s, |body| + i);
  }

  lemma BeforeFirstBlank(s: string, i: nat, j: int)
    requires FirstBlank(s) == Some(i) && j < i
    ensures !BlankAt(s, j)
  {
  }
}
