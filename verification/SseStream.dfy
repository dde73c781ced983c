/**
 Streams of blocks: whatever the blocks are, the decoder cuts a stream of them at their ends and parses each one, under
 every line end and every cutting of the bytes.
 */
module SseStream {
  import opened Wrappers
  import opened SseDecoder

  type Eol = e: string | e == "\n" || e == "\r\n" || e == "\r" witness "\n"

  /** The bytes on the wire: every line end written as `eol`. */
  function Render(text: string, eol: Eol): string {
    if text == [] then [] else (if text[0] == '\n' then eol else [text[0]]) + Render(text[1..], eol)
  }

  /** A block with no blank line in it, also before a further line end, which fits the decoder's limit when closed. */
  ghost predicate PlainBlock(b: string) {
    NoBlank(b + "\n") && '\r' !in b && |b| + 2 <= MAX_FRAME_BYTES
  }

  ghost predicate PlainBlocks(bs: seq<string>) { forall i | 0 <= i < |bs| :: PlainBlock(bs[i]) }

  function Closed(b: string): string { b + "\n\n" }

  function CloseAll(bs: seq<string>): string {
    if bs == [] then [] else Closed(bs[0]) + CloseAll(bs[1..])
  }

  // ----- Cutting

  lemma BlockEnds(b: string, more: string)
    requires NoBlank(b + "\n")
    ensures FirstBlank(Closed(b) + more) == Some(|b|)
  {
    var s := Closed(b) + more;
    var t: string := b + "\n";
    forall j | j < |b|
      ensures !BlankAt(s, j)
    {
      assert !BlankAt(t, j);
      if 0 <= j {
        assert s[j] == t[j] && s[j + 1] == t[j + 1];
      }
    }
    FirstBlankUnique(s, |b|);
  }

  lemma ClosedText(b: string, more: string)
    ensures var s := Closed(b) + more; |s| >= |b| + 2 && s[..|b|] == b && s[|b| + 2..] == more
  {
  }

  lemma {:induction false} BlocksCut(bs: seq<string>)
    requires PlainBlocks(bs)
    ensures Blocks(CloseAll(bs)) == bs && Rest(CloseAll(bs)) == []
  {
    hide FirstBlank, PlainBlock;
    if bs == [] {
      NothingToCut([]);
    } else {
      var b, more := bs[0], CloseAll(bs[1..]);
      BlocksCut(bs[1..]);
      PlainEnds(b, more);
      ClosedText(b, more);
      hide Closed;
      assert bs == [b] + bs[1..];
    }
  }

  lemma PlainEnds(b: string, more: string)
    requires PlainBlock(b)
    ensures FirstBlank(Closed(b) + more) == Some(|b|) && '\r' !in Closed(b) && |Closed(b)| <= MAX_FRAME_BYTES
  {
    BlockEnds(b, more);
  }

  /** However much of a stream has been read, what is unfinished is shorter than one closed block. */
  lemma {:induction false} PrefixFits(bs: seq<string>, t: string)
    requires PlainBlocks(bs) && t <= CloseAll(bs)
    ensures |Rest(t)| < MAX_FRAME_BYTES
  {
    hide FirstBlank, PlainBlock;
    if bs != [] {
      var b := bs[0];
      var n := |Closed(b)|;
      if |t| < n {
        UnfinishedStays(b, t);
      } else {
        var u := t[n..];
        assert t == Closed(b) + u;
        PlainEnds(b, u);
        ClosedText(b, u);
        assert Rest(t) == Rest(u);
        PrefixFits(bs[1..], u);
      }
    }
  }

  lemma UnfinishedStays(b: string, t: string)
    requires PlainBlock(b) && |t| < |Closed(b)| && t == Closed(b)[..|t|]
    ensures Rest(t) == t && |t| < MAX_FRAME_BYTES
  {
    var s: string := b + "\n";
    assert forall i | 0 <= i < |t| :: t[i] == s[i];
    forall i ensures !BlankAt(t, i) {
      assert !BlankAt(s, i);
    }
    NothingToCut(t);
  }

  lemma {:induction false} CloseAllHasNoCr(bs: seq<string>)
    requires PlainBlocks(bs)
    ensures '\r' !in CloseAll(bs)
  {
    hide PlainBlock;
    if bs != [] {
      CloseAllHasNoCr(bs[1..]);
      PlainEnds(bs[0], []);
      hide Closed;
    }
  }

  // ----- Line ends

  lemma {:induction false} FoldRender(text: string, eol: Eol, afterCr: bool)
    requires '\r' !in text && (afterCr ==> eol == "\r")
    ensures FoldEol(Render(text, eol), afterCr) == text
  {
    if text != [] {
      var c, more := text[0], Render(text[1..], eol);
      var head := if c == '\n' then eol else [c];
      FoldAppend(head, more, afterCr);
      FoldRender(text[1..], eol, EndsWithCr(head, afterCr));
      FoldHead(c, eol, afterCr);
    }
  }

  lemma FoldHead(c: char, eol: Eol, afterCr: bool)
    requires c != '\r' && (afterCr ==> eol == "\r")
    ensures FoldEol(if c == '\n' then eol else [c], afterCr) == [c]
  {
    var head: string := if c == '\n' then eol else [c];
    if |head| == 1 {
      assert head[1..] == [];
      assert FoldEol([], head[0] == '\r') == [];
    } else {
      assert head == "\r\n" && head[1..] == "\n" && head[1..][1..] == [];
      assert FoldEol("\n", true) == Emit('\n', true) + FoldEol([], false);
    }
  }

  lemma ConcatPrefix(chunks: seq<string>, k: nat)
    requires k <= |chunks|
    ensures Concat(chunks[..k]) <= Concat(chunks)
    decreases |chunks|
  {
    if k < |chunks| {
      var init := chunks[..|chunks| - 1];
      ConcatPrefix(init, k);
      assert init[..k] == chunks[..k];
    } else {
      assert chunks[..k] == chunks;
    }
  }

  lemma FreshText(bytes: string)
    ensures Text(INITIAL, bytes) == FoldEol(bytes, false)
  {
  }

  lemma FreshIsQuiescent()
    ensures Quiescent(INITIAL)
  {
  }

  /** After any number of chunks, what is unfinished is below the limit. */
  lemma PartFits(bs: seq<string>, eol: Eol, chunks: seq<string>, k: nat)
    requires PlainBlocks(bs) && Concat(chunks) == Render(CloseAll(bs), eol) && k <= |chunks|
    ensures |Unfinished(INITIAL, chunks, k)| < MAX_FRAME_BYTES
  {
    hide Rest, CloseAll, PlainBlocks, Concat, FoldEol, Render;
    var part := Concat(chunks[..k]);
    CloseAllHasNoCr(bs);
    FoldRender(CloseAll(bs), eol, false);
    ConcatPrefix(chunks, k);
    var later := Concat(chunks)[|part|..];
    assert Concat(chunks) == part + later;
    FoldAppend(part, later, false);
    FreshText(part);
    PrefixFits(bs, FoldEol(part, false));
  }

  /**
   Every list of plain blocks, written with any of the three line ends and cut into chunks anywhere at all, gives
   exactly the frames its blocks parse to, in order, with nothing left over and no overflow.
   */
  lemma StreamDecoded(bs: seq<string>, eol: Eol, chunks: seq<string>)
    requires PlainBlocks(bs) && Concat(chunks) == Render(CloseAll(bs), eol)
    ensures
      var (s, frames) := FeedAll(INITIAL, chunks);
      frames == ParsedBlocks(bs) && s.buffer == [] && !s.overflow
  {
    hide FeedAll, Rest, CloseAll, PlainBlocks, Concat, FoldEol, Blocks, ParsedBlocks, Unfinished, Render, Quiescent;
    CloseAllHasNoCr(bs);
    FoldRender(CloseAll(bs), eol, false);
    forall k | 0 <= k <= |chunks|
      ensures |Unfinished(INITIAL, chunks, k)| < MAX_FRAME_BYTES
    {
      PartFits(bs, eol, chunks, k);
    }
    FreshIsQuiescent();
    ChunkingIndependent(INITIAL, chunks);
    FreshText(Concat(chunks));
    BlocksCut(bs);
  }
}
