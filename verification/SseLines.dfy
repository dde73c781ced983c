/**
 What a block means, line by line and independently of the parser: which lines carry a field, which are ignored, and the
 frame they make up, if any. Comments and unknown fields may stand anywhere in a stream without changing what is read.
 */
module SseLines {
  import opened Wrappers
  import opened SseDecoder
  import opened SseStream
  import opened SseWire

  // ----- The meaning of lines

  predicate IsField(line: string) { "id:" <= line || "event:" <= line || "data:" <= line }

  /** What follows the field's name and colon, without one blank right after the colon. */
  function ValueOf(line: string, name: string): string
    requires name <= line
  {
    var v := line[|name|..];
    if v != [] && v[0] == ' ' then v[1..] else v
  }

  /** The value of the last line with this name and colon, or nothing. */
  function LastValue(lines: seq<string>, name: string): string {
    if lines == [] then ""
    else
      var n := |lines| - 1;
      if name <= lines[n] then ValueOf(lines[n], name) else LastValue(lines[..n], name)
  }

  function DataValues(lines: seq<string>): seq<string> {
    if lines == [] then []
    else
      var n := |lines| - 1;
      DataValues(lines[..n]) + if "data:" <= lines[n] then [ValueOf(lines[n], "data:")] else []
  }

  /** The data lines' values with a line end between any two, except that empty ones at the start leave nothing. */
  function Joined(values: seq<string>): string {
    if values == [] then ""
    else
      var n := |values| - 1;
      var before := Joined(values[..n]);
      if before == "" then values[n] else before + "\n" + values[n]
  }

  /** The frame that a block's lines make up, if any of them carries a field. */
  function Meaning(lines: seq<string>): Option<Frame> {
    if exists i | 0 <= i < |lines| :: IsField(lines[i])
    then Some(Frame(Trim(LastValue(lines, "id:")), Trim(LastValue(lines, "event:")), Joined(DataValues(lines))))
    else None
  }

  // ----- The parser

  lemma Prefixes(line: string)
    ensures "id:" <= line ==> !("event:" <= line) && !("data:" <= line)
    ensures "event:" <= line ==> !("data:" <= line)
  {
    assert "id:"[0] == 'i' && "event:"[0] == 'e' && "data:"[0] == 'd';
  }

  /** A line that starts with a name and a colon sets that field to its value. */
  lemma FieldApplied(f: Fields, name: string, line: string)
    requires name != [] && ':' !in name && name + ":" <= line
    ensures ApplyLine(f, line) == ApplyField(f, name, ValueOf(line, name + ":"))
  {
    assert line[|name|] == (name + ":")[|name|] == ':';
    assert forall j | 0 <= j < |name| :: line[j] == (name + ":")[j] == name[j];
    IndexIs(line, ':', |name|);
    assert line[..|name|] == name;
  }

  lemma OtherIgnored(f: Fields, line: string)
    requires !IsField(line)
    ensures ApplyLine(f, line) == f
  {
    var r := IndexOf(line, ':');
    if r.Some? {
      var name := line[..r.value];
      assert name + ":" == line[..r.value + 1];
      assert name != "id" && name != "event" && name != "data" by { NotAField(line, name); }
    }
  }

  lemma NotAField(line: string, name: string)
    requires !IsField(line) && name + ":" <= line
    ensures name != "id" && name != "event" && name != "data"
  {
    assert "id" + ":" == "id:" && "event" + ":" == "event:" && "data" + ":" == "data:";
  }

  /** What each line does to what was gathered before it. */
  lemma LineApplied(f: Fields, line: string)
    ensures ApplyLine(f, line)
         == if "id:" <= line then Fields(f.frame.(id := Trim(ValueOf(line, "id:"))), true)
            else if "event:" <= line then Fields(f.frame.(event := Trim(ValueOf(line, "event:"))), true)
            else if "data:" <= line then
              Fields(f.frame.(data := if f.frame.data == "" then ValueOf(line, "data:")
                                      else f.frame.data + "\n" + ValueOf(line, "data:")), true)
            else f
  {
    hide ApplyLine, Trim, ValueOf;
    assert "id" + ":" == "id:" && "event" + ":" == "event:" && "data" + ":" == "data:";
    if "id:" <= line {
      FieldApplied(f, "id", line);
    } else if "event:" <= line {
      FieldApplied(f, "event", line);
    } else if "data:" <= line {
      FieldApplied(f, "data", line);
      DataJoined(f.frame.data, ValueOf(line, "data:"));
    } else {
      OtherIgnored(f, line);
    }
  }

  lemma DataJoined(data: string, value: string)
    ensures JoinData(data, value) == if data == "" then value else data + "\n" + value
  {
    assert "" + value == value;
  }

  lemma {:induction false} ApplySnoc(f: Fields, lines: seq<string>, last: string)
    ensures ApplyLines(f, lines + [last]) == ApplyLine(ApplyLines(f, lines), last)
    decreases |lines|
  {
    hide ApplyLine;
    var all := lines + [last];
    if lines == [] {
      assert all[1..] == [];
    } else {
      ApplySnoc(ApplyLine(f, lines[0]), lines[1..], last);
      assert all[1..] == lines[1..] + [last];
    }
  }

  /** What the parser has gathered after some lines. */
  function Gathered(lines: seq<string>): Fields {
    Fields(Frame(Trim(LastValue(lines, "id:")), Trim(LastValue(lines, "event:")), Joined(DataValues(lines))),
           exists i | 0 <= i < |lines| :: IsField(lines[i]))
  }

  lemma {:induction false} LinesGathered(lines: seq<string>)
    ensures ApplyLines(NO_FIELDS, lines) == Gathered(lines)
    decreases |lines|
  {
    if lines == [] {
      assert Trim("") == "";
    } else {
      var n := |lines| - 1;
      LinesGathered(lines[..n]);
      ApplySnoc(NO_FIELDS, lines[..n], lines[n]);
      assert lines[..n] + [lines[n]] == lines;
      LineApplied(Gathered(lines[..n]), lines[n]);
      hide ApplyLines, ApplyLine;
      GatheredSnoc(lines);
    }
  }

  lemma GatheredSnoc(lines: seq<string>)
    requires lines != []
    ensures
      var n := |lines| - 1;
      var f, line := Gathered(lines[..n]), lines[n];
      Gathered(lines)
      == if "id:" <= line then Fields(f.frame.(id := Trim(ValueOf(line, "id:"))), true)
         else if "event:" <= line then Fields(f.frame.(event := Trim(ValueOf(line, "event:"))), true)
         else if "data:" <= line then
           Fields(f.frame.(data := if f.frame.data == "" then ValueOf(line, "data:")
                                   else f.frame.data + "\n" + ValueOf(line, "data:")), true)
         else f
  {
    hide Trim, ValueOf;
    var n := |lines| - 1;
    var line := lines[n];
    Prefixes(line);
    assert forall i | 0 <= i < n :: lines[..n][i] == lines[i];
    AnyField(lines);
    if "data:" <= line {
      JoinedSnoc(DataValues(lines[..n]), ValueOf(line, "data:"));
    } else {
      assert DataValues(lines[..n]) + [] == DataValues(lines[..n]);
    }
  }

  lemma AnyField(lines: seq<string>)
    requires lines != []
    ensures
      var n := |lines| - 1;
      (exists i | 0 <= i < |lines| :: IsField(lines[i]))
      <==> IsField(lines[n]) || exists i | 0 <= i < n :: IsField(lines[..n][i])
  {
    var n := |lines| - 1;
    hide IsField;
    assert forall i | 0 <= i < n :: lines[..n][i] == lines[i];
  }

  lemma JoinedSnoc(values: seq<string>, v: string)
    ensures Joined(values + [v]) == if Joined(values) == "" then v else Joined(values) + "\n" + v
  {
    assert (values + [v])[..|values|] == values;
  }

  /** Every block whatever is parsed to exactly what its lines mean. */
  lemma BlockMeans(block: string)
    ensures ParsedBlock(block) == Meaning(Lines(block))
  {
    LinesGathered(Lines(block));
    hide ApplyLines, Lines, Trim, LastValue, Joined, DataValues, IsField;
  }

  /** A block gives no frame if and only if none of its lines starts with one of the three names and a colon. */
  lemma NoFrameIff(block: string)
    ensures ParsedBlock(block).None? <==> forall i | 0 <= i < |Lines(block)| :: !IsField(Lines(block)[i])
  {
    BlockMeans(block);
    hide ParsedBlock, Lines, Trim, LastValue, Joined, DataValues, IsField;
  }

  /** The blank after the colon is optional, and only one is taken off. */
  lemma BlankIsOptional(name: string, value: string)
    ensures ValueOf(name + " " + value, name) == value
    ensures (value == "" || value[0] != ' ') ==> ValueOf(name + value, name) == value
  {
    assert (name + " " + value)[|name|..] == " " + value && (" " + value)[1..] == value;
    assert (name + value)[|name|..] == value;
  }

  // ----- Trimming

  predicate AllBlank(s: string) { forall i | 0 <= i < |s| :: IsBlankChar(s[i]) }

  lemma TrimStep(s: string)
    requires s != []
    ensures Trim(s) == if IsBlankChar(s[0]) then Trim(s[1..]) else if IsBlankChar(s[|s| - 1]) then Trim(s[..|s| - 1]) else s
  {
  }

  /** What is left does not start or end with a blank or tab. */
  lemma {:induction false} TrimEnds(s: string)
    ensures Trim(s) == "" || (Trim(s)[0] !in {' ', '\t'} && Trim(s)[|Trim(s)| - 1] !in {' ', '\t'})
    decreases |s|
  {
    if s == [] {
      assert Trim(s) == "";
    } else {
      TrimStep(s);
      hide Trim;
      if IsBlankChar(s[0]) {
        TrimEnds(s[1..]);
      } else if IsBlankChar(s[|s| - 1]) {
        TrimEnds(s[..|s| - 1]);
      }
    }
  }

  /** Trimming takes off nothing but blanks and tabs at both ends. */
  lemma {:induction false} TrimExact(s: string) returns (a: string, b: string)
    ensures s == a + Trim(s) + b && AllBlank(a) && AllBlank(b)
    decreases |s|
  {
    a, b := "", "";
    if s == [] {
      assert Trim(s) == "";
    } else {
      TrimStep(s);
      hide Trim;
      var n := |s| - 1;
      if IsBlankChar(s[0]) {
        var a', b' := TrimExact(s[1..]);
        a, b := [s[0]] + a', b';
        OuterLeft([s[0]], a', Trim(s[1..]), b');
        assert s == [s[0]] + s[1..];
      } else if IsBlankChar(s[n]) {
        var a', b' := TrimExact(s[..n]);
        a, b := a', b' + [s[n]];
        OuterRight(a', Trim(s[..n]), b', [s[n]]);
        assert s == s[..n] + [s[n]];
      } else {
        OuterNothing(s);
      }
    }
  }

  lemma OuterNothing(s: string)
    ensures s == "" + s + ""
  {
  }

  lemma OuterLeft(x: string, a: string, t: string, b: string)
    ensures x + (a + t + b) == (x + a) + t + b
  {
  }

  lemma OuterRight(a: string, t: string, b: string, x: string)
    ensures (a + t + b) + x == a + t + (b + x)
  {
  }

  // ----- Lines that change nothing

  function Kept(lines: seq<string>): seq<string> {
    if lines == [] then []
    else
      var n := |lines| - 1;
      Kept(lines[..n]) + if IsField(lines[n]) then [lines[n]] else []
  }

  /** Lines that carry no field, anywhere among the others, change nothing that is read. */
  lemma {:induction false} OthersChangeNothing(lines: seq<string>)
    ensures Gathered(Kept(lines)) == Gathered(lines)
    decreases |lines|
  {
    if lines != [] {
      var n := |lines| - 1;
      OthersChangeNothing(lines[..n]);
      GatheredSnoc(lines);
      if IsField(lines[n]) {
        var kept := Kept(lines);
        assert kept[..|kept| - 1] == Kept(lines[..n]) && kept[|kept| - 1] == lines[n];
        GatheredSnoc(kept);
      } else {
        assert Kept(lines[..n]) + [] == Kept(lines[..n]);
      }
      hide Gathered;
    }
  }

  lemma MeaningOfKept(lines: seq<string>)
    ensures Meaning(Kept(lines)) == Meaning(lines)
  {
    OthersChangeNothing(lines);
    hide Trim, LastValue, Joined, DataValues, IsField, Kept;
    assert Gathered(Kept(lines)).present == Gathered(lines).present;
  }

  // ----- Streams with comments

  /** A block on the wire: its lines, and the frame that those of them which carry a field were written for, if any. */
  datatype Item = Item(lines: seq<string>, frame: Option<Frame>)

  /** The lines are single, not empty, and fit the limit; those with a field are the frame's own, or there are none. */
  predicate WellWritten(x: Item) {
    && x.lines != [] && (forall i | 0 <= i < |x.lines| :: x.lines[i] != [] && OneLine(x.lines[i]))
    && |JoinLines(x.lines)| + 2 <= MAX_FRAME_BYTES
    && if x.frame.Some? then WellFormed(x.frame.value) && Kept(x.lines) == FrameLines(x.frame.value) else Kept(x.lines) == []
  }

  function ItemBlocks(xs: seq<Item>): (r: seq<string>)
    ensures |r| == |xs| && forall i | 0 <= i < |xs| :: r[i] == TextOf(xs[i])
  {
    if xs == [] then [] else [TextOf(xs[0])] + ItemBlocks(xs[1..])
  }

  function TextOf(x: Item): string { if x.lines == [] then "" else JoinLines(x.lines) }

  /** The frames that were written, in order. */
  function FramesOf(xs: seq<Item>): seq<Frame> {
    if xs == [] then [] else (if xs[0].frame.Some? then [xs[0].frame.value] else []) + FramesOf(xs[1..])
  }

  lemma ItemParsed(x: Item)
    requires WellWritten(x)
    ensures ParsedBlock(TextOf(x)) == x.frame
  {
    BlockMeans(JoinLines(x.lines));
    LinesOfJoin(x.lines);
    MeaningOfKept(x.lines);
    hide ParsedBlock, Meaning, Kept, FrameLines, JoinLines, Lines;
    if x.frame.Some? {
      FrameMeans(x.frame.value);
    } else {
      NothingMeant();
    }
  }

  lemma NothingMeant()
    ensures Meaning([]) == None
  {
  }

  lemma FrameMeans(f: Frame)
    requires WellFormed(f)
    ensures Meaning(FrameLines(f)) == Some(f)
  {
    BlockRoundTrip(f);
    BlockMeans(Block(f));
    FrameLinesAreLines(f);
    LinesOfJoin(FrameLines(f));
    hide ParsedBlock, Meaning, FrameLines, JoinLines, Lines;
  }

  lemma ItemIsPlain(x: Item)
    requires WellWritten(x)
    ensures PlainBlock(TextOf(x))
  {
    hide Kept;
    NoBlankInJoin(x.lines);
    JoinHasNoCr(x.lines);
    hide JoinLines;
  }

  lemma {:induction false} ItemsParsed(xs: seq<Item>)
    requires forall i | 0 <= i < |xs| :: WellWritten(xs[i])
    ensures ParsedBlocks(ItemBlocks(xs)) == FramesOf(xs)
  {
    hide WellWritten, ParsedBlock, TextOf;
    if xs != [] {
      ItemsParsed(xs[1..]);
      ItemParsed(xs[0]);
      assert ItemBlocks(xs)[1..] == ItemBlocks(xs[1..]);
    }
  }

  /**
   Every stream of well-formed frames with comments and unknown fields anywhere, between the frames and among their
   lines, written with any of the three line ends and cut anywhere at all, is decoded to exactly the frames written.
   */
  lemma CommentedRoundTrip(xs: seq<Item>, eol: Eol, chunks: seq<string>)
    requires forall i | 0 <= i < |xs| :: WellWritten(xs[i])
    requires Concat(chunks) == Render(CloseAll(ItemBlocks(xs)), eol)
    ensures
      var (s, frames) := FeedAll(INITIAL, chunks);
      frames == FramesOf(xs) && s.buffer == [] && !s.overflow
  {
    hide FeedAll, WellWritten, Concat, ParsedBlocks, Render, CloseAll, TextOf;
    var bs := ItemBlocks(xs);
    forall i | 0 <= i < |bs| ensures PlainBlock(bs[i]) {
      ItemIsPlain(xs[i]);
    }
    ItemsParsed(xs);
    StreamDecoded(bs, eol, chunks);
  }

  /** The gateway's heartbeat: a comment alone is no frame. */
  lemma HeartbeatIgnored(text: string)
    requires '\n' !in text
    ensures ParsedBlock(":" + text).None?
  {
    var line: string := ":" + text;
    assert Lines(line) == [line];
    assert line[0] == ':' && "id:"[0] == 'i' && "event:"[0] == 'e' && "data:"[0] == 'd';
    NoFrameIff(line);
  }
}
