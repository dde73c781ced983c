/**
 Laws of the JSON reader's strings: quoting is inverted by reading, and escapes decode to UTF-8.
 */
module JsonLaws {
  import opened Wrappers
  import opened JsonText

  // ----- Quoting and reading

  lemma HexCharInverse(n: nat)
    requires n < 16
    ensures HexDigit(HexChar(n)) == Some(n)
  {
  }

  /** The quoted form of one byte reads back as that byte. */
  lemma QuotedByteRead(b: Byte, more: Bytes)
    ensures
      var q := QuotedByte(b);
      q != [] && q[0] != QUOTE && ReadPiece(q + more) == Some(Piece([b], |q|))
  {
    var t := QuotedByte(b) + more;
    if b == QUOTE || b == BACKSLASH || b == 9 || b == 10 || b == 13 {
      assert t[1..][0] == QuotedByte(b)[1];
    } else if b < 0x20 {
      HexCharInverse(b / 16);
      HexCharInverse(b % 16);
      var u := t[2..];
      assert u[0] == '0' as int && u[1] == '0' as int && u[2] == HexChar(b / 16) && u[3] == HexChar(b % 16);
      assert Hex4(u) == Some(b);
      assert t[1..][1..] == u;
      assert ReadUnicode(u) == Some(Piece([b], 4));
    }
  }

  /** Reading back a quoted string gives the string, and stops just past the literal whatever follows. */
  lemma {:induction false} QuotedBodyIsRead(s: Bytes, tail: Bytes)
    ensures ReadBody(QuotedBody(s) + [QUOTE] + tail) == Some(Piece(s, |QuotedBody(s)| + 1))
  {
    hide ReadBody;
    hide ReadPiece;
    hide QuotedByte;
    var t := QuotedBody(s) + [QUOTE] + tail;
    BodyStep(t);
    if s != [] {
      var q := QuotedByte(s[0]);
      var more := QuotedBody(s[1..]) + [QUOTE] + tail;
      QuotedByteRead(s[0], more);
      assert t == q + more;
      assert t[|q|..] == more;
      QuotedBodyIsRead(s[1..], tail);
      assert [s[0]] + s[1..] == s;
    }
  }

  lemma QuoteRoundTrip(s: Bytes, tail: Bytes)
    ensures ReadString(Quoted(s) + tail) == Some(Piece(s, |Quoted(s)|))
  {
    hide ReadBody;
    hide QuotedBody;
    var u := Quoted(s) + tail;
    QuotedBodyIsRead(s, tail);
    assert u[0] == QUOTE && Token(u) == u;
    assert u[1..] == QuotedBody(s) + [QUOTE] + tail;
    assert [] + s == s;
  }

  // ----- Unicode

  /** A decoder for one UTF-8 form, after section 3 of RFC 3629: shortest forms only, no surrogates. */
  function Utf8Decode(b: Bytes): Option<nat> {
    if |b| == 1 && b[0] <= 0x7F then Some(b[0])
    else if |b| == 2 && 0xC2 <= b[0] <= 0xDF && IsTail(b[1]) then Some((b[0] as int - 0xC0) * 64 + Tail(b[1]))
    else if |b| == 3 && 0xE0 <= b[0] <= 0xEF && IsTail(b[1]) && IsTail(b[2]) then
      var cp := (b[0] as int - 0xE0) * 4096 + Tail(b[1]) * 64 + Tail(b[2]);
      if cp >= 0x800 && IsScalar(cp) then Some(cp) else None
    else if |b| == 4 && 0xF0 <= b[0] <= 0xF4 && IsTail(b[1]) && IsTail(b[2]) && IsTail(b[3]) then
      var cp := (b[0] as int - 0xF0) * 262144 + Tail(b[1]) * 4096 + Tail(b[2]) * 64 + Tail(b[3]);
      if 0x10000 <= cp <= 0x10FFFF then Some(cp) else None
    else None
  }

  function Tail(b: Byte): int { b as int - 0x80 }

  predicate IsTail(b: Byte) { 0x80 <= b <= 0xBF }

  lemma Digits64(cp: nat)
    ensures cp == cp / 64 * 64 + cp % 64
    ensures cp / 64 == cp / 4096 * 64 + cp / 64 % 64
    ensures cp / 4096 == cp / 262144 * 64 + cp / 4096 % 64
  {
    assert cp / 4096 == cp / 64 / 64;
    assert cp / 262144 == cp / 4096 / 64;
  }

  lemma Utf8IsInverted(cp: nat)
    requires IsScalar(cp)
    ensures Utf8Decode(Utf8(cp)) == Some(cp)
  {
    Digits64(cp);
  }

  /** A four-digit escape of any scalar in the basic plane decodes to its UTF-8 form. */
  lemma EscapeDecodes(cp: nat, hex: Bytes, tail: Bytes)
    requires IsScalar(cp) && cp <= 0xFFFF && |hex| == 4 && Hex4(hex) == Some(cp)
    ensures ReadEscape([LETTER_U] + hex + tail) == Some(Piece(Utf8(cp), 5))
    ensures Utf8Decode(Utf8(cp)) == Some(cp)
  {
    var t := [LETTER_U] + hex + tail;
    assert t[1..] == hex + tail;
    assert Hex4(hex + tail) == Some(cp);
    Utf8IsInverted(cp);
  }

  function HighOf(cp: nat): nat
    requires 0x10000 <= cp
  {
    0xD800 + (cp - 0x10000) / 1024
  }

  function LowOf(cp: nat): nat
    requires 0x10000 <= cp
  {
    0xDC00 + (cp - 0x10000) % 1024
  }

  /** A surrogate pair of escapes decodes to the UTF-8 form of the scalar it stands for. */
  lemma PairDecodes(cp: nat, high: Bytes, low: Bytes, tail: Bytes)
    requires 0x10000 <= cp <= 0x10FFFF && |high| == 4 && |low| == 4
    requires Hex4(high) == Some(HighOf(cp)) && Hex4(low) == Some(LowOf(cp))
    ensures ReadEscape([LETTER_U] + high + [BACKSLASH, LETTER_U] + low + tail) == Some(Piece(Utf8(cp), 11))
    ensures Utf8Decode(Utf8(cp)) == Some(cp)
  {
    PairUnits(cp);
    Utf8IsInverted(cp);
    hide Utf8, Hex4, HighOf, LowOf;
    PairText(high, low, tail);
  }

  lemma PairUnits(cp: nat)
    requires 0x10000 <= cp <= 0x10FFFF
    ensures IsHigh(HighOf(cp)) && IsLow(LowOf(cp))
    ensures 0x10000 + (HighOf(cp) - 0xD800) * 1024 + (LowOf(cp) - 0xDC00) == cp
  {
  }

  /** Where the two units of a pair stand, and how they are read there. */
  lemma PairText(high: Bytes, low: Bytes, tail: Bytes)
    requires |high| == 4 && |low| == 4
    ensures
      var t := [LETTER_U] + high + [BACKSLASH, LETTER_U] + low + tail;
      var u := t[1..];
      && t[0] == LETTER_U && |u| >= 10 && u[4] == BACKSLASH && u[5] == LETTER_U
      && Hex4(u) == Hex4(high) && Hex4(u[6..]) == Hex4(low)
  {
    var t := [LETTER_U] + high + [BACKSLASH, LETTER_U] + low + tail;
    var u := t[1..];
    assert u == high + ([BACKSLASH, LETTER_U] + (low + tail));
    assert u[6..] == low + tail;
  }

  /** The text starts with the escape of a low surrogate. */
  predicate StartsWithLowEscape(t: Bytes) {
    |t| >= 6 && t[0] == BACKSLASH && t[1] == LETTER_U && Hex4(t[2..]).Some? && IsLow(Hex4(t[2..]).value)
  }

  /** A surrogate is accepted exactly when it is a high one right before the escape of a low one. */
  lemma LoneSurrogatesRefused(hex: Bytes, more: Bytes)
    requires |hex| == 4 && Hex4(hex).Some? && !IsScalar(Hex4(hex).value)
    ensures ReadEscape([LETTER_U] + hex + more).Some? <==> IsHigh(Hex4(hex).value) && StartsWithLowEscape(more)
  {
    var u := ([LETTER_U] + hex + more)[1..];
    assert u == hex + more;
    assert Hex4(u) == Hex4(hex);
    if |more| >= 6 {
      assert u[4] == more[0] && u[5] == more[1] && u[6..] == more[2..];
    }
  }
}
