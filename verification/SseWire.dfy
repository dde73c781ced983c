/**
 The server-sent-events wire format, written down independently of the decoder, and the
 proof that the decoder inverts it under every cutting of the byte stream.
 */
module SseWire {
  import opened Wrappers
  import opened SseDecoder
  import opened SseStream

  function JoinLines(lines: seq<string>): string
    requires lines != []
  {
    if |lines| == 1 then lines[0] else lines[0] + "\n" + JoinLines(lines[1..])
  }

  function DataLines(values: seq<string>): seq<string> {
    if values == [] then [] else ["data: " + values[0]] + DataLines(values[1..])
  }

  function FrameLines(f: Frame): (r: seq<string>)
    ensures r != []
  {
    ["id: " + f.id, "event: " + f.event] + DataLines(Lines(f.data))
  }

  function Block(f: Frame): string { JoinLines(FrameLines(f)) }

  function Encode(f: Frame): string { Block(f) + "\n\n" }

  function EncodeAll(fs: seq<Frame>): string {
    if fs == [] then [] else Encode(fs[0]) + EncodeAll(fs[1..])
  }

  predicate OneLine(s: string) { '\n' !in s && '\r' !in s }

  /** A frame the wire format carries faithfully and whose encoding fits the decoder's limit. */
  predicate WellFormed(f: Frame) {
    && OneLine(f.id) && Trim(f.id) == f.id
    && OneLine(f.event) && Trim(f.event) == f.event
    && '\r' !in f.data && (f.data != [] ==> f.data[0] != '\n')
    && |Encode(f)| <= MAX_FRAME_BYTES
  }

  function StripNewlines(s: string): string {
    if s != [] && s[0] == '\n' then StripNewlines(s[1..]) else s
  }

  // ----- Lines

  lemma IndexIs(s: string, c: char, i: nat)
    requires i < |s| && s[i] == c && forall j | 0 <= j < i :: s[j] != c
    ensures IndexOf(s, c) == Some(i)
  {
  }

  lemma {:induction false} LinesOfJoin(lines: seq<string>)
    requires lines != [] && forall i | 0 <= i < |lines| :: '\n' !in lines[i]
    ensures Lines(JoinLines(lines)) == lines
    decreases |lines|
  {
    var s := JoinLines(lines);
    if |lines| > 1 {
      var i := |lines[0]|;
      assert s[..i] == lines[0];
      IndexIs(s, '\n', i);
      assert s[i + 1..] == JoinLines(lines[1..]);
      LinesOfJoin(lines[1..]);
    }
  }

  lemma {:induction false} JoinOfLines(s: string)
    ensures JoinLines(Lines(s)) == s
    ensures forall i | 0 <= i < |Lines(s)| :: '\n' !in Lines(s)[i]
    decreases |s|
  {
    hide IndexOf;
    var r := IndexOf(s, '\n');
    if r.Some? {
      var i := r.value;
      JoinOfLines(s[i + 1..]);
      assert Lines(s)[1..] == Lines(s[i + 1..]);
      assert s == s[..i] + "\n" + s[i + 1..];
    }
  }

  /** Lines that are all non-empty make no blank line, whatever follows but a line end. */
  lemma {:induction false} NoBlankInJoin(lines: seq<string>)
    requires lines != [] && forall i | 0 <= i < |lines| :: lines[i] != [] && '\n' !in lines[i]
    ensures NoBlank(JoinLines(lines) + "\n")
    ensures JoinLines(lines) != [] && JoinLines(lines)[0] != '\n'
    decreases |lines|
  {
    var s := JoinLines(lines) + "\n";
    var n := |lines[0]|;
    forall i
      ensures !BlankAt(s, i)
    {
      if |lines| > 1 {
        var t := JoinLines(lines[1..]) + "\n";
        NoBlankInJoin(lines[1..]);
        assert s == lines[0] + "\n" + t;
        if i > n {
          assert !BlankAt(t, i - n - 1);
        } else if 0 <= i < n {
          assert s[i] == lines[0][i];
        }
      } else if 0 <= i < n {
        assert s[i] == lines[0][i];
      }
    }
  }

  // ----- One block

  lemma FieldLine(f: Fields, name: string, value: string)
    requires name != [] && ':' !in name
    ensures ApplyLine(f, name + ": " + value) == ApplyField(f, name, value)
  {
    var line := name + ": " + value;
    assert line[..|name|] == name;
    IndexIs(line, ':', |name|);
    assert line[|name| + 1..] == " " + value;
    assert (" " + value)[1..] == value;
  }

  function JoinAll(data: string, values: seq<string>): string
    decreases |values|
  {
    if values == [] then data else JoinAll(JoinData(data, values[0]), values[1..])
  }

  lemma {:induction false} DataLinesApplied(f: Fields, values: seq<string>)
    ensures ApplyLines(f, DataLines(values))
         == Fields(f.frame.(data := JoinAll(f.frame.data, values)), f.present || values != [])
    decreases |values|
  {
    if values != [] {
      FieldLine(f, "data", values[0]);
      assert "data" + ": " == "data: ";
      assert DataLines(values)[1..] == DataLines(values[1..]);
      DataLinesApplied(ApplyField(f, "data", values[0]), values[1..]);
    }
  }

  lemma {:induction false} JoinAfterFirst(data: string, values: seq<string>)
    requires data != [] && values != []
    ensures JoinAll(data, values) == data + "\n" + JoinLines(values)
    decreases |values|
  {
    var next := data + "\n" + values[0];
    assert JoinData(data, values[0]) == next;
    if |values| > 1 {
      JoinAfterFirst(next, values[1..]);
      assert next + "\n" + JoinLines(values[1..]) == data + "\n" + (values[0] + "\n" + JoinLines(values[1..]));
    }
  }

  /** Joining the data lines gives the data back, except that its leading line ends are lost. */
  lemma {:induction false} JoinLosesLeadingNewlines(s: string)
    ensures JoinAll("", Lines(s)) == StripNewlines(s)
    decreases |s|
  {
    JoinOfLines(s);
    var ls := Lines(s);
    assert JoinData("", ls[0]) == ls[0];
    if s != [] && s[0] == '\n' {
      IndexIs(s, '\n', 0);
      assert ls[1..] == Lines(s[1..]);
      JoinLosesLeadingNewlines(s[1..]);
    } else if |ls| > 1 {
      JoinAfterFirst(ls[0], ls[1..]);
    }
  }

  lemma FrameLinesAreLines(f: Frame)
    requires '\n' !in f.id && '\n' !in f.event
    ensures forall i | 0 <= i < |FrameLines(f)| :: FrameLines(f)[i] != [] && '\n' !in FrameLines(f)[i]
  {
    JoinOfLines(f.data);
    DataLinesAreLines(Lines(f.data));
  }

  lemma {:induction false} DataLinesAreLines(values: seq<string>)
    requires forall i | 0 <= i < |values| :: '\n' !in values[i]
    ensures forall i | 0 <= i < |DataLines(values)| :: DataLines(values)[i] != [] && '\n' !in DataLines(values)[i]
  {
    if values != [] {
      DataLinesAreLines(values[1..]);
    }
  }

  /** What the decoder reads from the block of any frame whose id and event are single lines. */
  lemma BlockParsed(f: Frame)
    requires '\n' !in f.id && '\n' !in f.event
    ensures ParsedBlock(Block(f)) == Some(Frame(Trim(f.id), Trim(f.event), StripNewlines(f.data)))
  {
    FrameLinesAreLines(f);
    LinesOfJoin(FrameLines(f));
    var ls := DataLines(Lines(f.data));
    var f1 := ApplyField(NO_FIELDS, "id", f.id);
    var f2 := ApplyField(f1, "event", f.event);
    assert "id" + ": " == "id: " && "event" + ": " == "event: ";
    FieldLine(NO_FIELDS, "id", f.id);
    FieldLine(f1, "event", f.event);
    ApplyTwo(NO_FIELDS, "id: " + f.id, "event: " + f.event, ls);
    DataLinesApplied(f2, Lines(f.data));
    JoinLosesLeadingNewlines(f.data);
  }

  lemma ApplyTwo(f: Fields, a: string, b: string, lines: seq<string>)
    ensures ApplyLines(f, [a, b] + lines) == ApplyLines(ApplyLine(ApplyLine(f, a), b), lines)
  {
    var all := [a, b] + lines;
    assert all[1..] == [b] + lines && all[1..][1..] == lines;
  }

  /** A block round-trips exactly when id and event carry no outer blanks and the data does not start with a line end. */
  lemma BlockRoundTrip(f: Frame)
    requires '\n' !in f.id && '\n' !in f.event
    ensures ParsedBlock(Block(f)) == Some(f)
       <==> Trim(f.id) == f.id && Trim(f.event) == f.event && (f.data != [] ==> f.data[0] != '\n')
  {
    BlockParsed(f);
    StripShortens(f.data);
  }

  lemma StripShortens(s: string)
    ensures |StripNewlines(s)| <= |s|
    ensures StripNewlines(s) == s <==> s == [] || s[0] != '\n'
  {
  }

  // ----- Many blocks

  lemma FirstBlockEnds(f: Frame, more: string)
    requires '\n' !in f.id && '\n' !in f.event
    ensures FirstBlank(Encode(f) + more) == Some(|Block(f)|)
  {
    FrameLinesAreLines(f);
    NoBlankInJoin(FrameLines(f));
    hide FrameLines, JoinLines, FirstBlank;
    BlockEnds(Block(f), more);
  }

  function FrameBlocks(fs: seq<Frame>): (r: seq<string>)
    ensures |r| == |fs| && forall i | 0 <= i < |fs| :: r[i] == Block(fs[i])
  {
    if fs == [] then [] else [Block(fs[0])] + FrameBlocks(fs[1..])
  }

  lemma BlockIsPlain(f: Frame)
    requires WellFormed(f)
    ensures PlainBlock(Block(f))
  {
    FrameLinesAreLines(f);
    NoBlankInJoin(FrameLines(f));
    LinesHaveNoCr(f.data);
    DataLinesHaveNoCr(Lines(f.data));
    JoinHasNoCr(FrameLines(f));
    hide JoinLines;
  }

  lemma {:induction false} EncodedBlocks(fs: seq<Frame>)
    ensures EncodeAll(fs) == CloseAll(FrameBlocks(fs))
  {
    hide Block;
    if fs != [] {
      EncodedBlocks(fs[1..]);
      assert FrameBlocks(fs)[1..] == FrameBlocks(fs[1..]);
    }
  }

  lemma {:induction false} BlocksAreFrames(fs: seq<Frame>)
    requires forall i | 0 <= i < |fs| :: WellFormed(fs[i])
    ensures ParsedBlocks(FrameBlocks(fs)) == fs
  {
    hide Block, ParsedBlock;
    if fs != [] {
      BlocksAreFrames(fs[1..]);
      BlockRoundTrip(fs[0]);
      assert FrameBlocks(fs)[1..] == FrameBlocks(fs[1..]);
    }
  }

  lemma {:induction false} LinesHaveNoCr(s: string)
    requires '\r' !in s
    ensures forall i | 0 <= i < |Lines(s)| :: '\r' !in Lines(s)[i]
    decreases |s|
  {
    var r := IndexOf(s, '\n');
    if r.Some? {
      LinesHaveNoCr(s[r.value + 1..]);
    }
  }

  lemma {:induction false} DataLinesHaveNoCr(values: seq<string>)
    requires forall i | 0 <= i < |values| :: '\r' !in values[i]
    ensures forall i | 0 <= i < |DataLines(values)| :: '\r' !in DataLines(values)[i]
  {
    if values != [] {
      DataLinesHaveNoCr(values[1..]);
    }
  }

  lemma {:induction false} JoinHasNoCr(lines: seq<string>)
    requires lines != [] && forall i | 0 <= i < |lines| :: '\r' !in lines[i]
    ensures '\r' !in JoinLines(lines)
    decreases |lines|
  {
    if |lines| > 1 {
      JoinHasNoCr(lines[1..]);
    }
  }

  /**
   Every list of well-formed frames, written with any of the three line ends and cut into
   chunks anywhere at all, is decoded to exactly that list, with nothing left over and no
   overflow.
   */
  lemma WireRoundTrip(fs: seq<Frame>, eol: Eol, chunks: seq<string>)
    requires forall i | 0 <= i < |fs| :: WellFormed(fs[i])
    requires Concat(chunks) == Render(EncodeAll(fs), eol)
    ensures
      var (s, frames) := FeedAll(INITIAL, chunks);
      frames == fs && s.buffer == [] && !s.overflow
  {
    hide FeedAll, EncodeAll, WellFormed, Concat, ParsedBlocks, Render, Block;
    var bs := FrameBlocks(fs);
    forall i | 0 <= i < |bs| ensures PlainBlock(bs[i]) {
      BlockIsPlain(fs[i]);
    }
    EncodedBlocks(fs);
    BlocksAreFrames(fs);
    StreamDecoded(bs, eol, chunks);
  }
}
