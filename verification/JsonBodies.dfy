/**
 The bodies of string literals after section 7 of RFC 8259, written down piece by piece and independently of the
 reader, with the bytes they denote; and what the reader and the scan make of every one of them.
 */
module JsonBodies {
  import opened Wrappers
  import opened JsonText
  import opened JsonLaws

  /** A piece of a body. A lone surrogate is grammatical but denotes no bytes. */
  datatype Part =
    | Plain(byte: Byte)
    | Short(letter: Byte)
    | Code(hex: Bytes)
    | Pair(high: Bytes, low: Bytes)
    | Lone(hex: Bytes)

  type Body = seq<Part>

  predicate IsShort(b: Byte) {
    b == QUOTE || b == BACKSLASH || b == '/' as int || b == 'b' as int || b == 'f' as int || b == 'n' as int
    || b == 'r' as int || b == 't' as int
  }

  /** Four hexadecimal digits. */
  predicate IsUnit(hex: Bytes) { |hex| == 4 && Hex4(hex).Some? }

  predicate WfPart(p: Part) {
    match p
    case Plain(b) => b >= 0x20 && b != QUOTE && b != BACKSLASH
    case Short(b) => IsShort(b)
    case Code(hex) => IsUnit(hex) && IsScalar(Hex4(hex).value)
    case Pair(high, low) => IsUnit(high) && IsUnit(low) && IsHigh(Hex4(high).value) && IsLow(Hex4(low).value)
    case Lone(hex) => IsUnit(hex) && !IsScalar(Hex4(hex).value)
  }

  /** A high surrogate right before a low one is a pair, not two lone ones. */
  predicate MakesPair(p: Part, q: Part) {
    p.Lone? && q.Lone? && WfPart(p) && WfPart(q) && IsHigh(Hex4(p.hex).value) && IsLow(Hex4(q.hex).value)
  }

  predicate WfBody(ps: Body) {
    && (forall i | 0 <= i < |ps| :: WfPart(ps[i]))
    && (forall i | 0 <= i < |ps| - 1 :: !MakesPair(ps[i], ps[i + 1]))
  }

  function PrintUnit(hex: Bytes): Bytes { [BACKSLASH, LETTER_U] + hex }

  function PrintPart(p: Part): Bytes {
    match p
    case Plain(b) => [b]
    case Short(b) => [BACKSLASH, b]
    case Code(hex) => PrintUnit(hex)
    case Pair(high, low) => PrintUnit(high) + PrintUnit(low)
    case Lone(hex) => PrintUnit(hex)
  }

  function PrintBody(ps: Body): Bytes {
    if ps == [] then [] else PrintPart(ps[0]) + PrintBody(ps[1..])
  }

  predicate HasLone(ps: Body) { exists i | 0 <= i < |ps| :: ps[i].Lone? }

  function ShortValue(b: Byte): Byte {
    if b == 'b' as int then 8 else if b == 'f' as int then 12 else if b == 'n' as int then 10
    else if b == 'r' as int then 13 else if b == 't' as int then 9 else b
  }

  /** The code point of a surrogate pair. */
  function PairPoint(high: nat, low: nat): nat
    requires IsHigh(high) && IsLow(low)
  {
    0x10000 + (high - 0xD800) * 1024 + (low - 0xDC00)
  }

  function PartValue(p: Part): Bytes {
    if !WfPart(p) then []
    else match p
      case Plain(b) => [b]
      case Short(b) => [ShortValue(b)]
      case Code(hex) => Utf8(Hex4(hex).value)
      case Pair(high, low) => Utf8(PairPoint(Hex4(high).value, Hex4(low).value))
      case Lone(_) => []
  }

  /** The bytes that a body without lone surrogates denotes. */
  function Denoted(ps: Body): Bytes {
    if ps == [] then [] else PartValue(ps[0]) + Denoted(ps[1..])
  }

  lemma WfRest(ps: Body)
    requires WfBody(ps) && ps != []
    ensures WfPart(ps[0]) && WfBody(ps[1..])
    ensures HasLone(ps) <==> ps[0].Lone? || HasLone(ps[1..])
  {
    var rest := ps[1..];
    assert forall i | 0 <= i < |rest| :: rest[i] == ps[i + 1];
    if i :| 0 <= i < |ps| && ps[i].Lone? {
      assert i == 0 || rest[i - 1].Lone?;
    }
  }

  // ----- The reader

  lemma Hex4Stable(hex: Bytes, more: Bytes)
    requires IsUnit(hex)
    ensures Hex4(hex + more) == Hex4(hex)
  {
  }

  lemma UnitText(hex: Bytes, more: Bytes)
    ensures var t := PrintUnit(hex) + more;
            |t| >= 2 && t[0] == BACKSLASH && t[1] == LETTER_U && t[1..] == [LETTER_U] + hex + more && t[2..] == hex + more
            && t[1..][1..] == hex + more
  {
    var t := PrintUnit(hex) + more;
    assert t == [BACKSLASH, LETTER_U] + (hex + more);
  }

  lemma TwoUnits(high: Bytes, low: Bytes, more: Bytes)
    ensures PrintUnit(high) + PrintUnit(low) + more == PrintUnit(high) + (PrintUnit(low) + more)
    ensures [LETTER_U] + high + (PrintUnit(low) + more) == [LETTER_U] + high + [BACKSLASH, LETTER_U] + low + more
  {
  }

  /** A backslash and what the reader makes of the escape after it. */
  lemma EscapeRead(t: Bytes)
    requires t != [] && t[0] == BACKSLASH
    ensures ReadPiece(t) == match ReadEscape(t[1..]) case None => None case Some(p) => Some(Piece(p.value, p.length + 1))
  {
    hide ReadEscape;
  }

  lemma PlainRead(b: Byte, more: Bytes)
    requires WfPart(Plain(b))
    ensures ReadPiece([b] + more) == Some(Piece([b], 1))
  {
    hide ReadEscape;
  }

  lemma ShortRead(b: Byte, more: Bytes)
    requires IsShort(b)
    ensures ReadPiece([BACKSLASH, b] + more) == Some(Piece([ShortValue(b)], 2))
  {
    var t := [BACKSLASH, b] + more;
    EscapeRead(t);
    hide ReadPiece, ReadUnicode;
    assert t[1..][0] == b;
  }

  lemma CodeRead(hex: Bytes, more: Bytes)
    requires WfPart(Code(hex))
    ensures ReadPiece(PrintUnit(hex) + more) == Some(Piece(Utf8(Hex4(hex).value), 6))
  {
    hide ReadPiece, ReadEscape, Utf8, Hex4;
    UnitText(hex, more);
    EscapeRead(PrintUnit(hex) + more);
    EscapeDecodes(Hex4(hex).value, hex, more);
  }

  lemma PairRead(high: Bytes, low: Bytes, more: Bytes)
    requires WfPart(Pair(high, low))
    ensures ReadPiece(PrintUnit(high) + PrintUnit(low) + more)
         == Some(Piece(Utf8(PairPoint(Hex4(high).value, Hex4(low).value)), 12))
  {
    PairIs(high, low);
    hide ReadPiece, ReadEscape, Utf8, Hex4, PairPoint, PrintUnit;
    TwoUnits(high, low, more);
    UnitText(high, PrintUnit(low) + more);
    EscapeRead(PrintUnit(high) + (PrintUnit(low) + more));
    PairDecodes(PairPoint(Hex4(high).value, Hex4(low).value), high, low, more);
  }

  /** A piece that is not a lone surrogate is read as the bytes it denotes. */
  lemma PartRead(p: Part, more: Bytes)
    requires WfPart(p) && !p.Lone?
    ensures var t := PrintPart(p);
            && t != [] && t[0] != QUOTE && ReadPiece(t + more) == Some(Piece(PartValue(p), |t|))
  {
    hide ReadPiece, Utf8, Hex4, ShortValue, PairPoint;
    match p
    case Plain(b) => PlainRead(b, more);
    case Short(b) => ShortRead(b, more);
    case Code(hex) => CodeRead(hex, more);
    case Pair(high, low) => PairRead(high, low, more);
  }

  lemma PairIs(high: Bytes, low: Bytes)
    requires IsUnit(high) && IsUnit(low) && IsHigh(Hex4(high).value) && IsLow(Hex4(low).value)
    ensures var cp := PairPoint(Hex4(high).value, Hex4(low).value);
            0x10000 <= cp <= 0x10FFFF && HighOf(cp) == Hex4(high).value && LowOf(cp) == Hex4(low).value
  {
    var h, l := Hex4(high).value - 0xD800, Hex4(low).value - 0xDC00;
    assert (h * 1024 + l) / 1024 == h && (h * 1024 + l) % 1024 == l;
  }

  /** What follows a piece in a body, up to the closing quote and beyond. */
  function AfterPart(ps: Body, tail: Bytes): Bytes { PrintBody(ps) + ([QUOTE] + tail) }

  /** After a lone high surrogate no body goes on with the escape of a low one. */
  lemma NoLowNext(p: Part, rest: Body, tail: Bytes)
    requires WfPart(p) && p.Lone? && IsHigh(Hex4(p.hex).value) && WfBody(rest)
    requires rest != [] ==> !MakesPair(p, rest[0])
    ensures !StartsWithLowEscape(AfterPart(rest, tail))
  {
    if rest != [] {
      AfterFirst(rest, tail);
      NotLowEscape(rest[0], AfterPart(rest[1..], tail));
    }
  }

  lemma NotLowEscape(q: Part, more: Bytes)
    requires WfPart(q) && (q.Lone? ==> !IsLow(Hex4(q.hex).value))
    ensures !StartsWithLowEscape(PrintPart(q) + more)
  {
    match q
    case Plain(b) =>
    case Short(b) =>
      assert (PrintPart(q) + more)[1] == b;
    case Code(hex) =>
      UnitNext(hex, more);
    case Lone(hex) =>
      UnitNext(hex, more);
    case Pair(high, low) =>
      TwoUnits(high, low, more);
      UnitNext(high, PrintUnit(low) + more);
  }

  lemma UnitNext(hex: Bytes, more: Bytes)
    requires IsUnit(hex)
    ensures StartsWithLowEscape(PrintUnit(hex) + more) <==> IsLow(Hex4(hex).value)
  {
    UnitText(hex, more);
    Hex4Stable(hex, more);
    hide Hex4;
  }

  lemma LoneNotRead(p: Part, rest: Body, tail: Bytes)
    requires WfPart(p) && p.Lone? && WfBody(rest) && (rest != [] ==> !MakesPair(p, rest[0]))
    ensures var t := PrintPart(p) + AfterPart(rest, tail); t[0] != QUOTE && ReadPiece(t) == None
  {
    hide ReadPiece, ReadEscape, Hex4;
    var more := AfterPart(rest, tail);
    UnitText(p.hex, more);
    EscapeRead(PrintUnit(p.hex) + more);
    LoneSurrogatesRefused(p.hex, more);
    if IsHigh(Hex4(p.hex).value) {
      NoLowNext(p, rest, tail);
    }
  }

  /**
   Every grammatical body, before its closing quote and anything: the reader gives exactly the bytes it denotes and the
   position past the quote, unless the body has a lone surrogate, and then it refuses.
   */
  lemma {:induction false} ReadBodyExact(ps: Body, tail: Bytes)
    requires WfBody(ps)
    ensures ReadBody(AfterPart(ps, tail))
         == if HasLone(ps) then None else Some(Piece(Denoted(ps), |PrintBody(ps)| + 1))
    decreases |ps|
  {
    hide ReadBody, ReadPiece, PrintPart;
    var t := AfterPart(ps, tail);
    BodyStep(t);
    if ps == [] {
      assert t == [QUOTE] + tail;
    } else {
      var p, rest := ps[0], ps[1..];
      var more := AfterPart(rest, tail);
      WfRest(ps);
      AfterFirst(ps, tail);
      if p.Lone? {
        assert rest != [] ==> !MakesPair(p, rest[0]);
        LoneNotRead(p, rest, tail);
      } else {
        PartRead(p, more);
        ReadBodyExact(rest, tail);
        FirstStays(PrintPart(p), more);
      }
    }
  }

  lemma EmptyAfter(tail: Bytes)
    ensures var t := AfterPart([], tail); t != [] && t[0] == QUOTE && t[1..] == tail
  {
    assert PrintBody([]) == [] && [] + ([QUOTE] + tail) == [QUOTE] + tail;
  }

  lemma AfterFirst(ps: Body, tail: Bytes)
    requires ps != []
    ensures AfterPart(ps, tail) == PrintPart(ps[0]) + AfterPart(ps[1..], tail)
  {
    hide PrintPart;
  }

  lemma FirstStays(a: Bytes, b: Bytes)
    ensures a != [] ==> (a + b)[0] == a[0]
    ensures (a + b)[|a|..] == b
  {
  }

  // ----- The scan

  lemma ScanOverUnit(hex: Bytes, more: Bytes, k: Bracket, depth: nat)
    requires IsUnit(hex)
    ensures ScanTo(PrintUnit(hex) + more, k, depth, Inside) == ShiftBy(6, ScanTo(more, k, depth, Inside))
  {
    UnitText(hex, more);
    Hex4Stable(hex, more);
    hide ScanTo, Hex4, PrintUnit;
    var t := PrintUnit(hex) + more;
    ScanInside(t, k, depth, Inside);
    ScanInside(t[1..], k, depth, Escaped);
    ScanOverHex(hex + more, k, depth);
    FirstStays(hex, more);
  }

  lemma ScanInside(t: Bytes, k: Bracket, depth: nat, at: Scan)
    requires t != [] && !at.Outside?
    ensures ScanTo(t, k, depth, at)
         == ShiftBy(1, ScanTo(t[1..], k, depth,
              if at.Escaped? then Inside
              else if t[0] == BACKSLASH then Escaped else if t[0] == QUOTE then Outside else Inside))
  {
  }

  lemma ScanOverHex(t: Bytes, k: Bracket, depth: nat)
    requires Hex4(t).Some?
    ensures ScanTo(t, k, depth, Inside) == ShiftBy(4, ScanTo(t[4..], k, depth, Inside))
  {
    hide ScanTo;
    ScanInside(t, k, depth, Inside);
    ScanInside(t[1..], k, depth, Inside);
    ScanInside(t[2..], k, depth, Inside);
    ScanInside(t[3..], k, depth, Inside);
  }

  lemma ScanOverShort(b: Byte, more: Bytes, k: Bracket, depth: nat)
    ensures ScanTo([BACKSLASH, b] + more, k, depth, Inside) == ShiftBy(2, ScanTo(more, k, depth, Inside))
  {
    hide ScanTo;
    var t := [BACKSLASH, b] + more;
    ScanInside(t, k, depth, Inside);
    ScanInside(t[1..], k, depth, Escaped);
    assert t[1..][1..] == more;
  }

  lemma ScanOverPart(p: Part, more: Bytes, k: Bracket, depth: nat)
    requires WfPart(p)
    ensures ScanTo(PrintPart(p) + more, k, depth, Inside) == ShiftBy(|PrintPart(p)|, ScanTo(more, k, depth, Inside))
  {
    hide ScanTo, Hex4;
    match p
    case Plain(b) =>
      ScanInside([b] + more, k, depth, Inside);
      FirstStays([b], more);
    case Short(b) =>
      ScanOverShort(b, more, k, depth);
    case Code(hex) =>
      ScanOverUnit(hex, more, k, depth);
    case Pair(high, low) =>
      TwoUnits(high, low, more);
      ScanOverUnit(high, PrintUnit(low) + more, k, depth);
      ScanOverUnit(low, more, k, depth);
    case Lone(hex) =>
      ScanOverUnit(hex, more, k, depth);
  }

  /** The scan leaves every grammatical body exactly past its closing quote, lone surrogates or not. */
  lemma {:induction false} ScanOverBody(ps: Body, tail: Bytes, k: Bracket, depth: nat)
    requires WfBody(ps)
    ensures ScanTo(AfterPart(ps, tail), k, depth, Inside)
         == ShiftBy(|PrintBody(ps)| + 1, ScanTo(tail, k, depth, Outside))
    decreases |ps|
  {
    hide ScanTo, PrintPart;
    if ps == [] {
      EmptyAfter(tail);
      ScanInside(AfterPart(ps, tail), k, depth, Inside);
    } else {
      WfRest(ps);
      AfterFirst(ps, tail);
      assert |PrintBody(ps)| == |PrintPart(ps[0])| + |PrintBody(ps[1..])|;
      hide AfterPart, WfBody, HasLone, PrintBody;
      ScanOverPart(ps[0], AfterPart(ps[1..], tail), k, depth);
      ScanOverBody(ps[1..], tail, k, depth);
    }
  }

  // ----- Whatever the reader accepts is such a body

  lemma WfCons(p: Part, rest: Body)
    requires WfPart(p) && !p.Lone? && WfBody(rest) && !HasLone(rest)
    ensures WfBody([p] + rest) && !HasLone([p] + rest)
    ensures PrintBody([p] + rest) == PrintPart(p) + PrintBody(rest)
    ensures Denoted([p] + rest) == PartValue(p) + Denoted(rest)
  {
    hide PrintPart, PartValue, WfPart;
    var ps := [p] + rest;
    assert ps[1..] == rest;
    assert forall i | 1 <= i < |ps| :: ps[i] == rest[i - 1];
  }

  /** The text starts with this body and a closing quote, and is read as what the body denotes. */
  predicate ReadAs(t: Bytes, ps: Body) {
    && WfBody(ps) && !HasLone(ps) && ReadBody(t) == Some(Piece(Denoted(ps), |PrintBody(ps)| + 1))
    && PrintBody(ps) + [QUOTE] <= t
  }

  /** Whatever text the reader accepts starts with a body without lone surrogates, and is read as that. */
  lemma {:induction false} AcceptedIsBody(t: Bytes) returns (ps: Body)
    requires ReadBody(t).Some?
    ensures ReadAs(t, ps)
    decreases |t|
  {
    hide ReadBody, ReadPiece, ReadAs, WfPart, PrintPart, PartValue;
    BodyStep(t);
    if t[0] == QUOTE {
      ps := [];
      EmptyBody(t);
    } else {
      var p := PieceIsPart(t);
      var rest := AcceptedIsBody(t[|PrintPart(p)|..]);
      ps := [p] + rest;
      BodyCons(t, p, rest);
    }
  }

  lemma EmptyBody(t: Bytes)
    requires t != [] && t[0] == QUOTE
    ensures ReadAs(t, [])
  {
    assert PrintBody([]) == [] && Denoted([]) == [] && [] + [QUOTE] == t[..1];
  }

  lemma BodyCons(t: Bytes, p: Part, rest: Body)
    requires WfPart(p) && !p.Lone? && PrintPart(p) <= t && ReadAs(t[|PrintPart(p)|..], rest)
    requires ReadBody(t) == After(Piece(PartValue(p), |PrintPart(p)|), ReadBody(t[|PrintPart(p)|..]))
    ensures ReadAs(t, [p] + rest)
  {
    hide ReadBody, PrintPart, PartValue, WfPart;
    WfCons(p, rest);
    hide PrintBody, Denoted, WfBody, HasLone;
    PrefixJoin(PrintPart(p), PrintBody(rest), [QUOTE], t);
  }

  lemma PrefixJoin(a: Bytes, b: Bytes, c: Bytes, t: Bytes)
    requires a <= t && b + c <= t[|a|..]
    ensures a + b + c <= t
  {
    assert t == a + t[|a|..];
    assert a + b + c == a + (b + c);
    var rest := t[|a|..];
    assert rest == (b + c) + rest[|b + c|..];
  }

  lemma PieceIsPart(t: Bytes) returns (p: Part)
    requires t != [] && t[0] != QUOTE && ReadPiece(t).Some?
    ensures WfPart(p) && !p.Lone? && PrintPart(p) <= t && ReadPiece(t) == Some(Piece(PartValue(p), |PrintPart(p)|))
  {
    if t[0] != BACKSLASH {
      p := Plain(t[0]);
    } else {
      EscapeRead(t);
      hide ReadPiece;
      if t[1] != LETTER_U {
        p := Short(t[1]);
      } else {
        p := UnicodeIsPart(t);
      }
    }
  }

  lemma UnicodeIsPart(t: Bytes) returns (p: Part)
    requires |t| >= 2 && t[0] == BACKSLASH && t[1] == LETTER_U && ReadUnicode(t[2..]).Some?
    ensures WfPart(p) && !p.Lone? && PrintPart(p) <= t
    ensures ReadUnicode(t[2..]) == Some(Piece(PartValue(p), |PrintPart(p)| - 2))
  {
    var u := t[2..];
    var hex := u[..4];
    HexOfPrefix(u);
    if IsHigh(Hex4(u).value) {
      HexOfPrefix(u[6..]);
      p := Pair(hex, u[6..][..4]);
      hide Hex4, Utf8;
      assert PrintPart(p) == t[..12];
    } else {
      p := Code(hex);
      hide Hex4, Utf8;
      assert PrintPart(p) == t[..6];
    }
  }

  lemma HexOfPrefix(u: Bytes)
    requires Hex4(u).Some?
    ensures |u| >= 4 && Hex4(u[..4]) == Hex4(u)
  {
  }
}
