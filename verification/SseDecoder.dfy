/**
 The incremental server-sent-events decoder of the IM component.

 `Feed` is specified by `FeedSpec`, a declarative reading of the bytes: fold the line
 endings, cut the text at blank lines, parse each block. The main results are that the
 decoder does not depend on how the byte stream is cut, and that it is a left inverse
 of the wire format.
 */
module SseDecoder {
  import opened Wrappers

  datatype Frame = Frame(id: string, event: string, data: string)

  const MAX_FRAME_BYTES: nat := 4096

  // ----- Line endings

  /** What one byte contributes to the text: CR becomes LF, and an LF right after a CR is dropped. */
  function Emit(c: char, afterCr: bool): string {
    if c == '\r' then "\n" else if c == '\n' && afterCr then "" else [c]
  }

  function FoldEol(bytes: string, afterCr: bool): string {
    if bytes == [] then [] else Emit(bytes[0], afterCr) + FoldEol(bytes[1..], bytes[0] == '\r')
  }

  function EndsWithCr(bytes: string, afterCr: bool): bool {
    if bytes == [] then afterCr else bytes[|bytes| - 1] == '\r'
  }

  // ----- Blank lines

  predicate BlankAt(s: string, i: int) {
    0 <= i && i + 1 < |s| && s[i] == '\n' && s[i + 1] == '\n'
  }

  ghost predicate NoBlank(s: string) {
    forall i :: !BlankAt(s, i)
  }

  /** The position of the first blank line, as `find("\n\n")` gives it. */
  function FirstBlank(s: string): (r: Option<nat>)
    ensures r.Some? ==> BlankAt(s, r.value) && forall i | i < r.value :: !BlankAt(s, i)
    ensures r.None? ==> NoBlank(s)
  {
    if |s| < 2 then None
    else if BlankAt(s, 0) then Some(0)
    else
      var r := FirstBlank(s[1..]);
      assert forall i | 0 < i :: BlankAt(s, i) <==> BlankAt(s[1..], i - 1);
      if r.Some? then Some(r.value + 1) else None
  }

  /** The blocks that blank lines close. */
  function Blocks(s: string): seq<string>
    decreases |s|
  {
    match FirstBlank(s)
    case None => []
    case Some(i) => [s[..i]] + Blocks(s[i + 2..])
  }

  /** The text after the last closed block. */
  function Rest(s: string): string
    decreases |s|
  {
    match FirstBlank(s)
    case None => s
    case Some(i) => Rest(s[i + 2..])
  }

  // ----- Blocks

  function IndexOf(s: string, c: char): (r: Option<nat>)
    ensures r.Some? ==> r.value < |s| && s[r.value] == c && forall j | 0 <= j < r.value :: s[j] != c
    ensures r.None? ==> c !in s
  {
    if s == [] then None
    else if s[0] == c then Some(0)
    else
      var r := IndexOf(s[1..], c);
      if r.Some? then Some(r.value + 1) else None
  }

  function Lines(s: string): (r: seq<string>)
    ensures |r| >= 1
    decreases |s|
  {
    match IndexOf(s, '\n')
    case None => [s]
    case Some(i) => [s[..i]] + Lines(s[i + 1..])
  }

  predicate IsBlankChar(c: char) { c == ' ' || c == '\t' }

  function Trim(s: string): string {
    if s == [] then []
    else if IsBlankChar(s[0]) then Trim(s[1..])
    else if IsBlankChar(s[|s| - 1]) then Trim(s[..|s| - 1])
    else s
  }

  /** What the block parser has gathered so far. */
  datatype Fields = Fields(frame: Frame, present: bool)

  function DropLeadingSpace(s: string): string {
    if s != [] && s[0] == ' ' then s[1..] else s
  }

  function JoinData(data: string, value: string): string {
    (if data != [] then data + "\n" else data) + value
  }

  function ApplyField(f: Fields, field: string, value: string): Fields {
    if field == "id" then Fields(f.frame.(id := Trim(value)), true)
    else if field == "event" then Fields(f.frame.(event := Trim(value)), true)
    else if field == "data" then Fields(f.frame.(data := JoinData(f.frame.data, value)), true)
    else f
  }

  function ApplyLine(f: Fields, line: string): Fields {
    if line == [] || line[0] == ':' then f
    else match IndexOf(line, ':')
      case None => f
      case Some(colon) => ApplyField(f, line[..colon], DropLeadingSpace(line[colon + 1..]))
  }

  function ApplyLines(f: Fields, lines: seq<string>): Fields
    decreases |lines|
  {
    if lines == [] then f else ApplyLines(ApplyLine(f, lines[0]), lines[1..])
  }

  const NO_FIELDS := Fields(Frame("", "", ""), false)

  function ParsedBlock(block: string): Option<Frame> {
    var f := ApplyLines(NO_FIELDS, Lines(block));
    if f.present then Some(f.frame) else None
  }

  function ParsedBlocks(blocks: seq<string>): seq<Frame> {
    if blocks == [] then []
    else (match ParsedBlock(blocks[0]) case None => [] case Some(f) => [f]) + ParsedBlocks(blocks[1..])
  }

  // ----- The decoder

  datatype State = State(buffer: string, trailingCr: bool, overflow: bool)

  const INITIAL := State("", false, false)

  ghost predicate Quiescent(s: State) {
    NoBlank(s.buffer) && |s.buffer| < MAX_FRAME_BYTES
  }

  /** The text a feed works on: what was buffered and what the new bytes add to it. */
  function Text(s: State, bytes: string): string {
    s.buffer + FoldEol(bytes, s.trailingCr)
  }

  function FeedSpec(s: State, bytes: string): (State, seq<Frame>) {
    var text := Text(s, bytes);
    var rest := Rest(text);
    var over := |rest| >= MAX_FRAME_BYTES;
    (State(if over then "" else rest, EndsWithCr(bytes, s.trailingCr), s.overflow || over),
     ParsedBlocks(Blocks(text)))
  }

  class Decoder {
    var buffer: string
    var trailingCr: bool
    var overflow: bool

    ghost function Model(): State
      reads this
    {
      State(buffer, trailingCr, overflow)
    }

    constructor ()
      ensures Model() == INITIAL
    {
      buffer, trailingCr, overflow := "", false, false;
    }

    method Reset()
      modifies this
      ensures Model() == INITIAL
    {
      buffer := "";
      trailingCr := false;
      overflow := false;
    }

    method Feed(bytes: string) returns (frames: seq<Frame>)
      modifies this
      ensures (Model(), frames) == FeedSpec(old(Model()), bytes)
      ensures Quiescent(Model())
    {
      FoldInto(bytes);
      frames := CutFrames();
      RestHasNoBlank(old(Text(Model(), bytes)));
      if |buffer| >= MAX_FRAME_BYTES {
        overflow := true;
        buffer := "";
      }
    }

    /** The first loop of a feed: append the bytes with their line endings folded. */
    method FoldInto(bytes: string)
      modifies this
      ensures buffer == old(Text(Model(), bytes)) && overflow == old(overflow)
      ensures trailingCr == EndsWithCr(bytes, old(trailingCr))
    {
      hide FoldEol;
      ghost var before, cr := buffer, trailingCr;
      FoldNothing(cr);
      assert bytes[..0] == [];
      var i := 0;
      while i < |bytes|
        invariant i <= |bytes|
        invariant buffer == before + FoldEol(bytes[..i], cr)
        invariant trailingCr == EndsWithCr(bytes[..i], cr)
        invariant overflow == old(overflow)
      {
        FoldOneMore(bytes, i, cr);
        ghost var folded := FoldEol(bytes[..i], cr);
        assert before + (folded + Emit(bytes[i], trailingCr)) == buffer + Emit(bytes[i], trailingCr);
        if bytes[i] == '\r' {
          buffer := buffer + "\n";
          trailingCr := true;
          if i + 1 < |bytes| && bytes[i + 1] == '\n' {
            i := i + 1;
            FoldOneMore(bytes, i, cr);
            assert FoldEol(bytes[..i + 1], cr) == FoldEol(bytes[..i], cr);
            trailingCr := false;
          }
        } else if bytes[i] == '\n' && trailingCr {
          assert folded + "" == folded;
          trailingCr := false;
        } else {
          trailingCr := false;
          buffer := buffer + [bytes[i]];
        }
        i := i + 1;
      }
      assert bytes[..i] == bytes;
    }

    /** The second loop of a feed: cut off and parse every closed block. */
    method CutFrames() returns (frames: seq<Frame>)
      modifies this`buffer
      ensures buffer == Rest(old(buffer)) && frames == ParsedBlocks(Blocks(old(buffer)))
    {
      hide Rest, Blocks, ParsedBlocks, ParsedBlock, FirstBlank;
      frames := [];
      ghost var all, rest := ParsedBlocks(Blocks(buffer)), Rest(buffer);
      while FirstBlank(buffer).Some?
        invariant Rest(buffer) == rest
        invariant frames + ParsedBlocks(Blocks(buffer)) == all
        decreases |buffer|
      {
        var separator := FirstBlank(buffer).value;
        var block := buffer[..separator];
        CutOne(buffer);
        ghost var later := ParsedBlocks(Blocks(buffer[separator + 2..]));
        buffer := buffer[separator + 2..];
        var frame := ParseBlock(block);
        if frame.Some? {
          Regroup(frames, frame.value, later);
          frames := frames + [frame.value];
        }
      }
      NothingToCut(buffer);
    }
  }

  lemma Regroup(frames: seq<Frame>, f: Frame, later: seq<Frame>)
    ensures frames + ([f] + later) == (frames + [f]) + later
  {
  }

  lemma NothingToCut(s: string)
    requires FirstBlank(s).None?
    ensures Rest(s) == s && ParsedBlocks(Blocks(s)) == []
  {
  }

  lemma CutOne(s: string)
    requires FirstBlank(s).Some?
    ensures
      var i := FirstBlank(s).value;
      var later := ParsedBlocks(Blocks(s[i + 2..]));
      && Rest(s) == Rest(s[i + 2..])
      && ParsedBlocks(Blocks(s))
         == match ParsedBlock(s[..i]) case None => later case Some(f) => [f] + later
  {
    var i := FirstBlank(s).value;
    assert Blocks(s)[1..] == Blocks(s[i + 2..]);
  }

  method ParseBlock(block: string) returns (r: Option<Frame>)
    ensures r == ParsedBlock(block)
  {
    var f := NO_FIELDS;
    var lineStart := 0;
    while lineStart <= |block|
      invariant lineStart <= |block| + 1
      invariant ApplyLines(NO_FIELDS, Lines(block))
             == if lineStart <= |block| then ApplyLines(f, Lines(block[lineStart..])) else f
      decreases |block| + 1 - lineStart
    {
      var tail := block[lineStart..];
      var newline := IndexOf(tail, '\n');
      var line := if newline.Some? then tail[..newline.value] else tail;
      assert ApplyLines(f, Lines(tail))
          == if newline.Some? then ApplyLines(ApplyLine(f, line), Lines(tail[newline.value + 1..]))
             else ApplyLine(f, line);
      if newline.Some? {
        assert block[lineStart + newline.value + 1..] == tail[newline.value + 1..];
      }
      lineStart := if newline.Some? then lineStart + newline.value + 1 else |block| + 1;
      f := ApplyLine(f, line);
    }
    if !f.present {
      return None;
    }
    return Some(f.frame);
  }

  // ----- Folding and cutting work piece by piece

  lemma {:induction false} FoldAppend(a: string, b: string, afterCr: bool)
    ensures FoldEol(a + b, afterCr) == FoldEol(a, afterCr) + FoldEol(b, EndsWithCr(a, afterCr))
    ensures EndsWithCr(a + b, afterCr) == EndsWithCr(b, EndsWithCr(a, afterCr))
  {
    if a == [] {
      assert a + b == b;
    } else {
      assert (a + b)[1..] == a[1..] + b;
      FoldAppend(a[1..], b, a[0] == '\r');
      FoldFirst(a, afterCr);
      FoldFirst(a + b, afterCr);
      hide FoldEol, Emit;
    }
  }

  lemma FoldFirst(s: string, afterCr: bool)
    requires s != []
    ensures FoldEol(s, afterCr) == Emit(s[0], afterCr) + FoldEol(s[1..], s[0] == '\r')
  {
  }

  lemma FoldNothing(afterCr: bool)
    ensures FoldEol([], afterCr) == []
  {
  }

  lemma FoldOneMore(bytes: string, i: nat, afterCr: bool)
    requires i < |bytes|
    ensures FoldEol(bytes[..i + 1], afterCr)
         == FoldEol(bytes[..i], afterCr) + Emit(bytes[i], EndsWithCr(bytes[..i], afterCr))
    ensures EndsWithCr(bytes[..i + 1], afterCr) == (bytes[i] == '\r')
  {
    var c := [bytes[i]];
    assert bytes[..i + 1] == bytes[..i] + c;
    FoldAppend(bytes[..i], c, afterCr);
    var e := EndsWithCr(bytes[..i], afterCr);
    assert FoldEol(c, e) == Emit(c[0], e) + FoldEol(c[1..], c[0] == '\r');
  }

  lemma FirstBlankUnique(s: string, i: nat)
    requires BlankAt(s, i) && forall j | j < i :: !BlankAt(s, j)
    ensures FirstBlank(s) == Some(i)
  {
    hide FirstBlank;
  }

  lemma RestHasNoBlank(s: string)
    ensures NoBlank(Rest(s))
    decreases |s|
  {
    if FirstBlank(s).Some? {
      RestHasNoBlank(s[FirstBlank(s).value + 2..]);
    }
  }

  lemma {:induction false} CutAppend(x: string, y: string)
    ensures Blocks(x + y) == Blocks(x) + Blocks(Rest(x) + y)
    ensures Rest(x + y) == Rest(Rest(x) + y)
    decreases |x|
  {
    hide FirstBlank;
    if FirstBlank(x).Some? {
      var i := FirstBlank(x).value;
      FirstBlankStays(x, y);
      assert (x + y)[..i] == x[..i];
      assert (x + y)[i + 2..] == x[i + 2..] + y;
      CutAppend(x[i + 2..], y);
    }
  }

  lemma FirstBlankStays(x: string, y: string)
    requires FirstBlank(x).Some?
    ensures FirstBlank(x + y) == FirstBlank(x)
  {
    hide FirstBlank;
    var i := FirstBlank(x).value;
    assert forall j | 0 <= j <= i :: BlankAt(x + y, j) <==> BlankAt(x, j);
    FirstBlankUnique(x + y, i);
  }

  lemma {:induction false} ParsedAppend(a: seq<string>, b: seq<string>)
    ensures ParsedBlocks(a + b) == ParsedBlocks(a) + ParsedBlocks(b)
  {
    if a == [] {
      assert a + b == b;
    } else {
      assert (a + b)[1..] == a[1..] + b;
      ParsedAppend(a[1..], b);
    }
  }

  /** Two feeds in a row do what one feed of the joined bytes does, unless the first one overflows. */
  lemma FeedTwice(s: State, a: string, b: string)
    requires |Rest(Text(s, a))| < MAX_FRAME_BYTES
    ensures
      var (s1, f1) := FeedSpec(s, a);
      var (s2, f2) := FeedSpec(s1, b);
      FeedSpec(s, a + b) == (s2, f1 + f2)
  {
    var s1 := FeedSpec(s, a).0;
    var x, y := Text(s, a), FoldEol(b, s1.trailingCr);
    TextAppend(s, a, b);
    CutParsed(x, y);
    assert Text(s1, b) == Rest(x) + y;
    FoldAppend(a, b, s.trailingCr);
  }

  lemma TextAppend(s: State, a: string, b: string)
    ensures Text(s, a + b) == Text(s, a) + FoldEol(b, EndsWithCr(a, s.trailingCr))
  {
    FoldAppend(a, b, s.trailingCr);
  }

  lemma CutParsed(x: string, y: string)
    ensures Rest(x + y) == Rest(Rest(x) + y)
    ensures ParsedBlocks(Blocks(x + y)) == ParsedBlocks(Blocks(x)) + ParsedBlocks(Blocks(Rest(x) + y))
  {
    CutAppend(x, y);
    ParsedAppend(Blocks(x), Blocks(Rest(x) + y));
  }

  // ----- Any cutting of a stream

  function Concat(chunks: seq<string>): string {
    if chunks == [] then [] else Concat(chunks[..|chunks| - 1]) + chunks[|chunks| - 1]
  }

  /** Feeding the chunks one after the other. */
  function FeedAll(s: State, chunks: seq<string>): (State, seq<Frame>) {
    if chunks == [] then (s, [])
    else
      var (s1, f1) := FeedAll(s, chunks[..|chunks| - 1]);
      var (s2, f2) := FeedSpec(s1, chunks[|chunks| - 1]);
      (s2, f1 + f2)
  }

  /** What an uncut reading of the first `k` chunks leaves unfinished. */
  function Unfinished(s: State, chunks: seq<string>, k: nat): string
    requires k <= |chunks|
  {
    Rest(Text(s, Concat(chunks[..k])))
  }

  predicate FitsAtCuts(s: State, chunks: seq<string>) {
    forall k | 0 <= k <= |chunks| :: |Unfinished(s, chunks, k)| < MAX_FRAME_BYTES
  }

  /**
   The decoder is independent of chunking. Starting from any quiescent state, no feed
   overflows exactly when no cut of the stream leaves an unfinished frame of the limit or
   more, and then frames, residual buffer and CR flag are those of one single feed.
   */
  lemma {:induction false} ChunkingIndependent(s: State, chunks: seq<string>)
    requires Quiescent(s) && !s.overflow
    ensures FeedAll(s, chunks).0.overflow <==> !FitsAtCuts(s, chunks)
    ensures FitsAtCuts(s, chunks) ==> FeedAll(s, chunks) == FeedSpec(s, Concat(chunks))
    ensures Quiescent(FeedAll(s, chunks).0)
  {
    hide FeedSpec;
    hide FitsAtCuts;
    hide Quiescent;
    var n := |chunks|;
    if n == 0 {
      FeedNothing(s, chunks);
    } else {
      var init, last := chunks[..n - 1], chunks[n - 1];
      ChunkingIndependent(s, init);
      FitsAtCutsSplits(s, chunks);
      FeedFacts(FeedAll(s, init).0, last);
      if FitsAtCuts(s, init) {
        FitsAtEnd(s, init);
        FeedTwice(s, Concat(init), last);
        FeedFacts(s, Concat(chunks));
      }
    }
  }

  lemma FeedNothing(s: State, chunks: seq<string>)
    requires Quiescent(s) && !s.overflow && chunks == []
    ensures FeedSpec(s, Concat(chunks)) == (s, []) && FitsAtCuts(s, chunks)
  {
    assert chunks[..0] == [];
    assert s.buffer + [] == s.buffer;
  }

  lemma FeedFacts(s: State, bytes: string)
    ensures Quiescent(FeedSpec(s, bytes).0)
    ensures FeedSpec(s, bytes).0.overflow <==> s.overflow || |Rest(Text(s, bytes))| >= MAX_FRAME_BYTES
  {
    RestHasNoBlank(Text(s, bytes));
  }

  lemma FitsAtEnd(s: State, chunks: seq<string>)
    requires FitsAtCuts(s, chunks)
    ensures |Rest(Text(s, Concat(chunks)))| < MAX_FRAME_BYTES
  {
    assert chunks[..|chunks|] == chunks;
    assert |Unfinished(s, chunks, |chunks|)| < MAX_FRAME_BYTES;
  }

  lemma FitsAtCutsSplits(s: State, chunks: seq<string>)
    requires |chunks| > 0
    ensures FitsAtCuts(s, chunks)
       <==> FitsAtCuts(s, chunks[..|chunks| - 1]) && |Rest(Text(s, Concat(chunks)))| < MAX_FRAME_BYTES
  {
    hide Text;
    hide Rest;
    hide Concat;
    var init := chunks[..|chunks| - 1];
    assert chunks[..|chunks|] == chunks;
    assert Unfinished(s, chunks, |chunks|) == Rest(Text(s, Concat(chunks)));
    forall k | 0 <= k <= |init|
      ensures Unfinished(s, init, k) == Unfinished(s, chunks, k)
    {
      assert init[..k] == chunks[..k];
    }
  }

  /**
   The limit is on what a cut leaves over: any text of the limit's size without a line end passes when its blank
   line comes in the same feed, and overflows when the cut falls before the blank line.
   */
  lemma LimitDependsOnCuts(s: State, body: string)
    requires s == INITIAL && |body| == MAX_FRAME_BYTES && '\r' !in body && '\n' !in body
    ensures FeedAll(s, [body, "\n\n"]).0.overflow
    ensures !FeedAll(s, [body + "\n\n"]).0.overflow
  {
    CutBeforeBlank(s, body);
    var chunks := [body, "\n\n"];
    assert chunks[..1] == [body];
    assert FeedAll(s, chunks).0 == FeedSpec(FeedAll(s, [body]).0, "\n\n").0;
    UncutFits(s, body);
  }

  lemma CutBeforeBlank(s: State, body: string)
    requires s == INITIAL && |body| == MAX_FRAME_BYTES && '\r' !in body && '\n' !in body
    ensures FeedAll(s, [body]).0.overflow
  {
    FoldPlain(body, false);
    FeedOne(s, body);
    assert Text(s, body) == body;
    assert NoBlank(body);
  }

  lemma UncutFits(s: State, body: string)
    requires s == INITIAL && '\r' !in body && '\n' !in body
    ensures !FeedAll(s, [body + "\n\n"]).0.overflow
  {
    hide FeedAll;
    hide FoldEol;
    hide Blocks;
    var whole: string := body + "\n\n";
    FoldPlain(whole, false);
    FeedOne(s, whole);
    assert Text(s, whole) == whole;
    RestOfOne(body);
  }

  lemma RestOfOne(body: string)
    requires '\n' !in body
    ensures Rest(body + "\n\n") == []
  {
    hide FirstBlank;
    var whole: string := body + "\n\n";
    FirstBlankUnique(whole, |body|);
    assert whole[|body| + 2..] == [];
    assert !BlankAt("", 0);
    assert FirstBlank([]).None?;
  }

  lemma FeedOne(s: State, chunk: string)
    ensures FeedAll(s, [chunk]) == FeedSpec(s, chunk)
  {
    var one := [chunk];
    assert one[..0] == [];
    assert [] + FeedSpec(s, chunk).1 == FeedSpec(s, chunk).1;
  }

  lemma {:induction false} FoldPlain(s: string, afterCr: bool)
    requires '\r' !in s && (s == [] || !afterCr)
    ensures FoldEol(s, afterCr) == s && EndsWithCr(s, afterCr) == afterCr
  {
    if s != [] {
      FoldPlain(s[1..], false);
    }
  }
}
