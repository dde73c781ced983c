/**
 The index-walking readers themselves. Each is proved to compute what `JsonText` says it
 denotes; positions are absolute and move forward only.
 */
module JsonReader {
  import opened Wrappers
  import opened JsonText

  method SkipSpace(text: Bytes, start: nat) returns (position: nat)
    requires start <= |text|
    ensures position == start + SpaceRun(text[start..])
    ensures text[position..] == Token(text[start..])
  {
    position := start;
    while position < |text| && IsSpace(text[position])
      invariant start <= position <= |text|
      invariant position + SpaceRun(text[position..]) == start + SpaceRun(text[start..])
    {
      position := position + 1;
    }
  }

  /** The four-digit loop of a `\u` escape. */
  method ReadHex4(text: Bytes, position: nat) returns (r: Option<nat>)
    requires position <= |text|
    ensures r == Hex4(text[position..])
  {
    if position + 4 > |text| {
      return None;
    }
    ghost var t := text[position..];
    var codePoint := 0;
    for index := 0 to 4
      invariant forall j | 0 <= j < index :: IsHex(t[j])
      invariant index > 0 ==> codePoint >= 0
      invariant index == 1 ==> codePoint == HexDigit(t[0]).value
      invariant index == 2 ==> codePoint == HexDigit(t[0]).value * 16 + HexDigit(t[1]).value
      invariant index == 3 ==> codePoint == (HexDigit(t[0]).value * 16 + HexDigit(t[1]).value) * 16
                                            + HexDigit(t[2]).value
      invariant index == 0 ==> codePoint == 0
      invariant index == 4 ==> Some(codePoint) == Hex4(t)
    {
      var digit := HexDigit(text[position + index]);
      assert t[index] == text[position + index];
      if digit.None? {
        return None;
      }
      codePoint := codePoint * 16 + digit.value;
    }
    return Some(codePoint);
  }

  /** The `\u` case: one code unit or a surrogate pair. */
  method ReadUnicodeAt(text: Bytes, position: nat) returns (r: Option<Piece>)
    requires position <= |text|
    ensures r == ReadUnicode(text[position..])
  {
    var first := ReadHex4(text, position);
    if first.None? {
      return None;
    }
    var codePoint := first.value;
    var length := 4;
    if IsHigh(codePoint) {
      var next := position + 4;
      if next + 6 > |text| || text[next] != BACKSLASH || text[next + 1] != LETTER_U {
        return None;
      }
      var low := ReadHex4(text, next + 2);
      assert text[position..][6..] == text[next + 2..];
      if low.None? || !IsLow(low.value) {
        return None;
      }
      length := 10;
      codePoint := 0x10000 + (codePoint - 0xD800) * 1024 + (low.value - 0xDC00);
    } else if IsLow(codePoint) {
      return None;
    }
    return Some(Piece(Utf8(codePoint), length));
  }

  /** One escape: the switch after a backslash. */
  method ReadEscapeAt(text: Bytes, position: nat) returns (r: Option<Piece>)
    requires position <= |text|
    ensures r == ReadEscape(text[position..])
  {
    if position >= |text| {
      return None;
    }
    var escaped := text[position];
    if escaped == QUOTE || escaped == BACKSLASH || escaped == '/' as int {
      return Some(Piece([escaped], 1));
    } else if escaped == 'b' as int {
      return Some(Piece([8], 1));
    } else if escaped == 'f' as int {
      return Some(Piece([12], 1));
    } else if escaped == 'n' as int {
      return Some(Piece([10], 1));
    } else if escaped == 'r' as int {
      return Some(Piece([13], 1));
    } else if escaped == 't' as int {
      return Some(Piece([9], 1));
    } else if escaped == LETTER_U {
      var unit := ReadUnicodeAt(text, position + 1);
      assert text[position..][1..] == text[position + 1..];
      if unit.None? {
        return None;
      }
      return Some(Piece(unit.value.value, unit.value.length + 1));
    }
    return None;
  }

  /** One turn of the character loop, at a byte that is not the closing quote. */
  method ReadPieceAt(text: Bytes, position: nat) returns (r: Option<Piece>)
    requires position < |text| && text[position] != QUOTE
    ensures r == ReadPiece(text[position..])
  {
    hide ReadEscape;
    var character := text[position];
    if character < 0x20 {
      return None;
    }
    if character != BACKSLASH {
      return Some(Piece([character], 1));
    }
    var piece := ReadEscapeAt(text, position + 1);
    assert text[position..][1..] == text[position + 1..];
    if piece.None? {
      return None;
    }
    return Some(Piece(piece.value.value, piece.value.length + 1));
  }

  /** The character loop of a string literal, from just past its opening quote. */
  method ReadBodyAt(text: Bytes, start: nat) returns (r: Option<Piece>)
    requires start <= |text|
    ensures r == ReadBody(text[start..])
  {
    hide ReadBody;
    hide ReadPiece;
    var value: Bytes := [];
    var position := start;
    AfterNothing(ReadBody(text[start..]));
    while position < |text|
      invariant start <= position <= |text|
      invariant ReadBody(text[start..]) == After(Piece(value, position - start), ReadBody(text[position..]))
    {
      ghost var t := text[position..];
      BodyStep(t);
      if text[position] == QUOTE {
        assert value + [] == value;
        return Some(Piece(value, position + 1 - start));
      }
      var piece := ReadPieceAt(text, position);
      if piece.None? {
        return None;
      }
      var n := piece.value.length;
      assert t[n..] == text[position + n..];
      AfterAfter(value, position - start, piece.value.value, n, ReadBody(t[n..]));
      value := value + piece.value.value;
      position := position + n;
    }
    BodyStep(text[position..]);
    return None;
  }

  lemma AfterNothing(r: Option<Piece>)
    ensures After(Piece([], 0), r) == r
  {
    if r.Some? {
      assert [] + r.value.value == r.value.value;
    }
  }

  lemma AfterAfter(v: Bytes, m: nat, w: Bytes, n: nat, r: Option<Piece>)
    ensures After(Piece(v, m), After(Piece(w, n), r)) == After(Piece(v + w, m + n), r)
  {
    if r.Some? {
      assert v + (w + r.value.value) == v + w + r.value.value;
    }
  }

  method ReadJsonString(text: Bytes, start: nat) returns (r: Option<Piece>)
    requires start <= |text|
    ensures r == ReadString(text[start..])
  {
    hide ReadBody;
    var position := SkipSpace(text, start);
    if position >= |text| || text[position] != QUOTE {
      return None;
    }
    var body := ReadBodyAt(text, position + 1);
    ghost var t := text[position..];
    assert t[1..] == text[position + 1..];
    AfterAfter([], position - start, [], 1, body);
    if body.None? {
      return None;
    }
    assert [] + [] + body.value.value == body.value.value;
    return Some(Piece(body.value.value, position + 1 - start + body.value.length));
  }

  /** The bracket-counting loop, from just past an opening bracket. */
  method ScanBrackets(text: Bytes, start: nat, k: Bracket) returns (r: Option<nat>)
    requires start <= |text|
    ensures r == ScanTo(text[start..], k, 1, Outside)
  {
    hide ScanTo;
    var opening, closing := Opening(k), Closing(k);
    var depth, inString, escaped, position := 1, false, false, start;
    while position < |text|
      invariant start <= position <= |text| && depth >= 1 && (escaped ==> inString)
      invariant ScanTo(text[start..], k, 1, Outside)
             == ShiftBy(position - start, ScanTo(text[position..], k, depth, Mode(inString, escaped)))
    {
      var character := text[position];
      ScanStep(text[position..], k, depth, Mode(inString, escaped));
      assert text[position..][1..] == text[position + 1..];
      position := position + 1;
      if inString {
        if escaped {
          escaped := false;
        } else if character == BACKSLASH {
          escaped := true;
        } else if character == QUOTE {
          inString := false;
        }
      } else if character == QUOTE {
        inString := true;
      } else if character == opening {
        depth := depth + 1;
      } else if character == closing {
        depth := depth - 1;
        if depth == 0 {
          return Some(position - start);
        }
      }
    }
    ScanNothing(text[position..], k, depth, Mode(inString, escaped));
    return None;
  }

  function Mode(inString: bool, escaped: bool): Scan {
    if escaped then Escaped else if inString then Inside else Outside
  }

  lemma ScanNothing(t: Bytes, k: Bracket, depth: nat, at: Scan)
    requires t == []
    ensures ScanTo(t, k, depth, at) == None
  {
  }

  method SkipJsonValue(text: Bytes, start: nat) returns (r: Option<nat>)
    requires start <= |text|
    ensures r == ShiftBy(start, SkipValue(text[start..]))
  {
    hide ReadBody;
    hide ScanTo;
    var position := SkipSpace(text, start);
    ghost var t := text[position..];
    if position >= |text| {
      return None;
    }
    assert t[1..] == text[position + 1..];
    if text[position] == QUOTE {
      var body := ReadBodyAt(text, position + 1);
      if body.None? {
        return None;
      }
      return Some(position + 1 + body.value.length);
    }
    if text[position] == OPEN_BRACE || text[position] == OPEN_BRACKET {
      var n := ScanBrackets(text, position + 1, if text[position] == OPEN_BRACE then Brace else Square);
      if n.None? {
        return None;
      }
      return Some(position + 1 + n.value);
    }
    var end := PlainEnd(text, position);
    if end > position {
      return Some(end);
    }
    return None;
  }

  /** The loop over a scalar: up to the next delimiter. */
  method PlainEnd(text: Bytes, begin: nat) returns (position: nat)
    requires begin <= |text|
    ensures position == begin + PlainRun(text[begin..])
  {
    position := begin;
    while position < |text| && !IsDelimiter(text[position])
      invariant begin <= position <= |text|
      invariant position + PlainRun(text[position..]) == begin + PlainRun(text[begin..])
    {
      position := position + 1;
    }
  }

  /** One round of the member loop up to the colon. */
  method ReadKey(text: Bytes, start: nat) returns (r: Option<Head>)
    requires start <= |text|
    ensures r == ReadHead(text[start..])
  {
    hide ReadHead;
    hide StringToken;
    hide ReadString;
    hide Token;
    hide SpaceRun;
    ghost var t := text[start..];
    var position := SkipSpace(text, start);
    HeadStep(t);
    if position < |text| && text[position] == CLOSE_BRACE {
      NoHeadAtBrace(t);
      return None;
    }
    var candidate := ReadJsonString(text, position);
    SpaceRunOnce(t);
    if candidate.None? {
      return None;
    }
    var afterKey := position + candidate.value.length;
    assert Token(t)[candidate.value.length..] == text[afterKey..];
    var q := SkipSpace(text, afterKey);
    if q >= |text| || text[q] != COLON {
      return None;
    }
    return Some(Head(candidate.value.value, q + 1 - start));
  }

  lemma HeadStep(t: Bytes)
    ensures
      var p := StringToken(Token(t));
      ReadHead(t) == if p.None? then None
                     else
                       var rest := Token(t)[p.value.length..];
                       var q := SpaceRun(rest);
                       if q < |rest| && rest[q] == COLON
                       then Some(Head(p.value.value, SpaceRun(t) + p.value.length + q + 1)) else None
  {
    hide StringToken;
    hide SpaceRun;
  }

  lemma NoHeadAtBrace(t: Bytes)
    requires Token(t) != [] && Token(t)[0] == CLOSE_BRACE
    ensures ReadHead(t) == None
  {
    hide Token;
  }

  lemma SpaceRunOnce(t: Bytes)
    ensures ReadString(Token(t)) == StringToken(Token(t))
  {
    var u := Token(t);
    assert SpaceRun(u) == 0 && Token(u) == u;
    AfterNothing(StringToken(u));
  }

  method FindField(text: Bytes, key: Bytes) returns (r: Option<nat>)
    ensures r == Find(text, key)
  {
    hide ReadHead;
    hide SkipValue;
    hide FindMember;
    var position := SkipSpace(text, 0);
    assert text[0..] == text;
    if position >= |text| || text[position] != OPEN_BRACE {
      return None;
    }
    position := position + 1;
    assert Token(text)[1..] == text[position..];
    r := FindFrom(text, position, key);
  }

  /** The member loop, from just past the opening brace. */
  method FindFrom(text: Bytes, first: nat, key: Bytes) returns (r: Option<nat>)
    requires first <= |text|
    ensures r == ShiftBy(first, FindMember(text[first..], key))
  {
    hide ReadHead;
    hide SkipMember;
    hide FindMember;
    var position := first;
    while position < |text|
      invariant first <= position <= |text|
      invariant ShiftBy(first, FindMember(text[first..], key)) == ShiftBy(position, FindMember(text[position..], key))
    {
      ghost var t := text[position..];
      FindStep(t, key);
      var head := ReadKey(text, position);
      if head.None? {
        return None;
      }
      var valuePosition := position + head.value.valueAt;
      if head.value.key == key {
        return Some(valuePosition);
      }
      assert text[valuePosition..] == t[head.value.valueAt..];
      var next := AfterMember(text, valuePosition);
      if next.None? {
        return None;
      }
      assert text[next.value..] == t[next.value - position..];
      position := next.value;
    }
    FindStep(text[position..], key);
    NoKeyAtEnd(text[position..]);
    return None;
  }

  /** Past a value and the comma after it. */
  method AfterMember(text: Bytes, valuePosition: nat) returns (r: Option<nat>)
    requires valuePosition <= |text|
    ensures r == ShiftBy(valuePosition, SkipMember(text[valuePosition..]))
  {
    hide SkipValue;
    var end := SkipJsonValue(text, valuePosition);
    if end.None? {
      return None;
    }
    assert text[end.value..] == text[valuePosition..][end.value - valuePosition..];
    var next := SkipSpace(text, end.value);
    if next >= |text| || text[next] != COMMA {
      return None;
    }
    return Some(next + 1);
  }

  lemma FindStep(t: Bytes, key: Bytes)
    ensures
      var h := ReadHead(t);
      FindMember(t, key)
      == if h.None? then None
         else if h.value.key == key then Some(h.value.valueAt)
         else
           var n := SkipMember(t[h.value.valueAt..]);
           if n.None? then None
           else ShiftBy(h.value.valueAt + n.value, FindMember(t[h.value.valueAt + n.value..], key))
  {
    hide ReadHead;
    hide SkipMember;
  }

  lemma NoKeyAtEnd(t: Bytes)
    requires t == []
    ensures ReadHead(t) == None
  {
  }

  method ReadStringField(text: Bytes, key: Bytes, required: bool) returns (r: Field<Bytes>)
    ensures r == StringField(text, key, required)
  {
    hide Find;
    hide ReadString;
    var position := FindField(text, key);
    if position.None? {
      return if required then Refused(Missing) else Untouched;
    }
    var value := ReadJsonString(text, position.value);
    if value.None? {
      return Refused(Malformed);
    }
    return Value(value.value.value);
  }

  method ReadObjectField(text: Bytes, key: Bytes, required: bool) returns (r: Field<Bytes>)
    ensures r == ObjectField(text, key, required)
  {
    hide Find;
    var found := FindField(text, key);
    if found.None? {
      return if required then Refused(Missing) else Untouched;
    }
    var begin := SkipSpace(text, found.value);
    ghost var t := text[begin..];
    if begin >= |text| || text[begin] != OPEN_BRACE {
      return Refused(Malformed);
    }
    var n := ScanBrackets(text, begin + 1, Brace);
    assert t[1..] == text[begin + 1..];
    if n.None? {
      return Refused(Unclosed);
    }
    assert t[..1 + n.value] == text[begin..begin + 1 + n.value];
    return Value(text[begin..begin + 1 + n.value]);
  }

  method ReadUnsignedField(text: Bytes, key: Bytes, required: bool) returns (r: Field<nat>)
    ensures r == UnsignedField(text, key, required)
  {
    hide Find;
    var found := FindField(text, key);
    if found.None? {
      return if required then Refused(Missing) else Untouched;
    }
    var begin := SkipSpace(text, found.value);
    r := ReadUnsignedAt(text, begin);
  }

  /** The digit loop, which stops as soon as the number would leave 32 bits. */
  method ReadDigits(text: Bytes, begin: nat) returns (parsed: nat, position: nat, tooBig: bool)
    requires begin <= |text|
    ensures
      var t := text[begin..];
      var n := DigitRun(t);
      && tooBig == (Decimal(t[..n]) > UINT32_MAX)
      && (!tooBig ==> position == begin + n && parsed == Decimal(t[..n]))
  {
    ghost var t := text[begin..];
    parsed, position := 0, begin;
    while position < |text| && IsDigit(text[position])
      invariant begin <= position <= |text|
      invariant position + DigitRun(text[position..]) == begin + DigitRun(t)
      invariant parsed == Decimal(t[..position - begin]) && parsed <= UINT32_MAX
    {
      var digit := DigitValue(text[position]);
      ghost var n := position - begin;
      assert t[n] == text[position];
      DecimalStep(t, n);
      if parsed > (UINT32_MAX - digit) / 10 {
        DecimalGrows(t[..DigitRun(t)], n + 1);
        assert t[..DigitRun(t)][..n + 1] == t[..n + 1];
        return parsed, position, true;
      }
      parsed := parsed * 10 + digit;
      position := position + 1;
    }
    return parsed, position, false;
  }

  lemma DecimalStep(t: Bytes, n: nat)
    requires n < DigitRun(t)
    ensures Decimal(t[..n + 1]) == Decimal(t[..n]) * 10 + DigitValue(t[n])
  {
    assert t[..n + 1][..n] == t[..n];
  }

  method ReadUnsignedAt(text: Bytes, begin: nat) returns (r: Field<nat>)
    requires begin <= |text|
    ensures r == UnsignedToken(text[begin..])
  {
    hide Decimal;
    var parsed, position, tooBig := ReadDigits(text, begin);
    if tooBig {
      return Refused(OutOfRange);
    }
    assert text[begin..][position - begin..] == text[position..];
    if position == begin {
      return Refused(Malformed);
    }
    position := SkipSpace(text, position);
    if position < |text| && text[position] != COMMA && text[position] != CLOSE_BRACE {
      return Refused(BadTail);
    }
    return Value(parsed);
  }

  lemma DecimalGrows(t: Bytes, n: nat)
    requires n <= |t| && forall i | 0 <= i < |t| :: IsDigit(t[i])
    ensures Decimal(t[..n]) <= Decimal(t)
    decreases |t|
  {
    if n < |t| {
      var init := t[..|t| - 1];
      assert init[..n] == t[..n];
      DecimalGrows(init, n);
    } else {
      assert t[..n] == t;
    }
  }

  method Quote(text: Bytes) returns (result: Bytes)
    ensures result == Quoted(text)
  {
    hide QuotedBody;
    result := [QUOTE];
    QuotedNothing();
    assert text[..0] == [];
    for i := 0 to |text|
      invariant result == [QUOTE] + QuotedBody(text[..i])
    {
      var character := text[i];
      ghost var before, body := result, QuotedBody(text[..i]);
      QuotedBodySnoc(text[..i], character);
      assert text[..i + 1] == text[..i] + [character];
      if character == QUOTE {
        result := result + [BACKSLASH, QUOTE];
      } else if character == BACKSLASH {
        result := result + [BACKSLASH, BACKSLASH];
      } else if character == 10 {
        result := result + [BACKSLASH, 'n' as int];
      } else if character == 13 {
        result := result + [BACKSLASH, 'r' as int];
      } else if character == 9 {
        result := result + [BACKSLASH, 't' as int];
      } else if character < 0x20 {
        result := result + [BACKSLASH, LETTER_U, '0' as int, '0' as int];
        result := result + [HexChar(character / 16)];
        result := result + [HexChar(character % 16)];
      } else {
        result := result + [character];
      }
      assert result == before + QuotedByte(character);
      assert before + QuotedByte(character) == [QUOTE] + (body + QuotedByte(character));
    }
    assert text[..|text|] == text;
    result := result + [QUOTE];
  }

  lemma QuotedNothing()
    ensures QuotedBody([]) == []
  {
  }

  lemma {:induction false} QuotedBodySnoc(s: Bytes, b: Byte)
    ensures QuotedBody(s + [b]) == QuotedBody(s) + QuotedByte(b)
  {
    if s == [] {
      assert [b][1..] == [];
    } else {
      assert (s + [b])[1..] == s[1..] + [b];
      QuotedBodySnoc(s[1..], b);
    }
  }
}
