/**
 The declarative side of the hand-written JSON reader: what each of its readers denotes
 on a text, as functions on suffixes of the text. Positions are counted in bytes.
 */
module JsonText {
  import opened Wrappers

  const QUOTE: Byte := '"' as int
  const BACKSLASH: Byte := '\\' as int
  const COMMA: Byte := ',' as int
  const COLON: Byte := ':' as int
  const OPEN_BRACE: Byte := '{' as int
  const CLOSE_BRACE: Byte := '}' as int
  const OPEN_BRACKET: Byte := '[' as int
  const CLOSE_BRACKET: Byte := ']' as int
  const LETTER_U: Byte := 'u' as int

  /** `isspace` in the C locale: blank, and the five controls from tab to carriage return. */
  predicate IsSpace(b: Byte) { b == 32 || 9 <= b <= 13 }

  function SpaceRun(t: Bytes): (n: nat)
    ensures n <= |t|
    ensures forall i | 0 <= i < n :: IsSpace(t[i])
    ensures n < |t| ==> !IsSpace(t[n])
  {
    if t != [] && IsSpace(t[0]) then 1 + SpaceRun(t[1..]) else 0
  }

  // ----- Unicode escapes

  function HexDigit(b: Byte): (r: Option<nat>)
    ensures r.Some? ==> r.value < 16
  {
    if '0' as int <= b <= '9' as int then Some(b - '0' as int)
    else if 'a' as int <= b <= 'f' as int then Some(b - 'a' as int + 10)
    else if 'A' as int <= b <= 'F' as int then Some(b - 'A' as int + 10)
    else None
  }

  predicate IsHex(b: Byte) { HexDigit(b).Some? }

  /** The value of the first four bytes as hexadecimal digits. */
  function Hex4(t: Bytes): (r: Option<nat>)
    ensures r.Some? ==> r.value < 0x10000
  {
    if |t| >= 4 && IsHex(t[0]) && IsHex(t[1]) && IsHex(t[2]) && IsHex(t[3]) then
      Some(((HexDigit(t[0]).value * 16 + HexDigit(t[1]).value) * 16 + HexDigit(t[2]).value) * 16
           + HexDigit(t[3]).value)
    else None
  }

  predicate IsHigh(cp: nat) { 0xD800 <= cp <= 0xDBFF }
  predicate IsLow(cp: nat) { 0xDC00 <= cp <= 0xDFFF }
  predicate IsScalar(cp: nat) { cp <= 0x10FFFF && !IsHigh(cp) && !IsLow(cp) }

  /** The UTF-8 form of a code point; the shifts and masks of the code are divisions by powers of 64. */
  function Utf8(cp: nat): (r: Bytes)
    requires cp <= 0x10FFFF
    ensures 1 <= |r| <= 4
  {
    if cp <= 0x7F then [cp]
    else if cp <= 0x7FF then [0xC0 + cp / 64, 0x80 + cp % 64]
    else if cp <= 0xFFFF then [0xE0 + cp / 4096, 0x80 + cp / 64 % 64, 0x80 + cp % 64]
    else [0xF0 + cp / 262144, 0x80 + cp / 4096 % 64, 0x80 + cp / 64 % 64, 0x80 + cp % 64]
  }

  /** A piece of a literal: the bytes it stands for and how many bytes of text it took. */
  datatype Piece = Piece(value: Bytes, length: nat)

  /** The text right after a backslash and a `u`. */
  function ReadUnicode(t: Bytes): (r: Option<Piece>)
    ensures r.Some? ==> r.value.length <= |t|
  {
    match Hex4(t)
    case None => None
    case Some(cp) =>
      if IsHigh(cp) then
        if |t| < 10 || t[4] != BACKSLASH || t[5] != LETTER_U then None
        else match Hex4(t[6..])
          case None => None
          case Some(low) =>
            if IsLow(low) then Some(Piece(Utf8(0x10000 + (cp - 0xD800) * 1024 + (low - 0xDC00)), 10)) else None
      else if IsLow(cp) then None
      else Some(Piece(Utf8(cp), 4))
  }

  /** The text right after a backslash. */
  function ReadEscape(t: Bytes): (r: Option<Piece>)
    ensures r.Some? ==> 1 <= r.value.length <= |t|
  {
    if t == [] then None
    else if t[0] == QUOTE || t[0] == BACKSLASH || t[0] == '/' as int then Some(Piece([t[0]], 1))
    else if t[0] == 'b' as int then Some(Piece([8], 1))
    else if t[0] == 'f' as int then Some(Piece([12], 1))
    else if t[0] == 'n' as int then Some(Piece([10], 1))
    else if t[0] == 'r' as int then Some(Piece([13], 1))
    else if t[0] == 't' as int then Some(Piece([9], 1))
    else if t[0] == LETTER_U then
      match ReadUnicode(t[1..])
      case None => None
      case Some(p) => Some(Piece(p.value, p.length + 1))
    else None
  }

  // ----- Strings

  /** `p` followed by what was read after it. */
  function After(p: Piece, r: Option<Piece>): Option<Piece> {
    match r
    case None => None
    case Some(q) => Some(Piece(p.value + q.value, p.length + q.length))
  }

  /** The first piece of a literal's body, which is not its closing quote. */
  function ReadPiece(t: Bytes): (r: Option<Piece>)
    requires t != [] && t[0] != QUOTE
    ensures r.Some? ==> 1 <= r.value.length <= |t|
  {
    if t[0] < 0x20 then None
    else if t[0] != BACKSLASH then Some(Piece([t[0]], 1))
    else match ReadEscape(t[1..])
      case None => None
      case Some(p) => Some(Piece(p.value, p.length + 1))
  }

  /** The text right after an opening quote: the string denoted, and the length through the closing quote. */
  function ReadBody(t: Bytes): (r: Option<Piece>)
    ensures r.Some? ==> 1 <= r.value.length <= |t| && t[r.value.length - 1] == QUOTE
    decreases |t|
  {
    if t == [] then None
    else if t[0] == QUOTE then Some(Piece([], 1))
    else match ReadPiece(t)
      case None => None
      case Some(p) => After(p, ReadBody(t[p.length..]))
  }

  /** A string literal at the start of the text. */
  function StringToken(t: Bytes): (r: Option<Piece>)
    ensures r.Some? ==> 2 <= r.value.length <= |t|
  {
    if t != [] && t[0] == QUOTE then After(Piece([], 1), ReadBody(t[1..])) else None
  }

  /** The text from its first non-space byte on. */
  function Token(t: Bytes): Bytes { t[SpaceRun(t)..] }

  /** A string literal, after optional space. */
  function ReadString(t: Bytes): (r: Option<Piece>)
    ensures r.Some? ==> 2 <= r.value.length <= |t|
  {
    After(Piece([], SpaceRun(t)), StringToken(Token(t)))
  }

  // ----- Values

  function ShiftBy(n: nat, r: Option<nat>): (s: Option<nat>)
  {
    if r.Some? then Some(n + r.value) else None
  }

  datatype Bracket = Brace | Square

  function Opening(k: Bracket): Byte { if k.Brace? then OPEN_BRACE else OPEN_BRACKET }
  function Closing(k: Bracket): Byte { if k.Brace? then CLOSE_BRACE else CLOSE_BRACKET }

  datatype Scan = Outside | Inside | Escaped

  /** How far the bracket-counting scan goes: through the byte that closes `depth` brackets of kind `k`. */
  function ScanTo(t: Bytes, k: Bracket, depth: nat, at: Scan): (r: Option<nat>)
    ensures r.Some? ==> 1 <= r.value <= |t|
  {
    if t == [] then None
    else
      var c, rest := t[0], t[1..];
      match at
      case Escaped => ShiftBy(1, ScanTo(rest, k, depth, Inside))
      case Inside => ShiftBy(1, ScanTo(rest, k, depth,
          if c == BACKSLASH then Escaped else if c == QUOTE then Outside else Inside))
      case Outside =>
        if c == QUOTE then ShiftBy(1, ScanTo(rest, k, depth, Inside))
        else if c == Opening(k) then ShiftBy(1, ScanTo(rest, k, depth + 1, Outside))
        else if c == Closing(k) then
          if depth <= 1 then Some(1) else ShiftBy(1, ScanTo(rest, k, depth - 1, Outside))
        else ShiftBy(1, ScanTo(rest, k, depth, Outside))
  }

  predicate IsDelimiter(b: Byte) { b == COMMA || b == CLOSE_BRACE || b == CLOSE_BRACKET }

  /** The number of bytes before the first delimiter. */
  function PlainRun(t: Bytes): (n: nat)
    ensures n <= |t|
    ensures forall i | 0 <= i < n :: !IsDelimiter(t[i])
    ensures n < |t| ==> IsDelimiter(t[n])
  {
    if t == [] || IsDelimiter(t[0]) then 0 else 1 + PlainRun(t[1..])
  }

  /** How far skipping a value at the start of the text goes. */
  function SkipToken(t: Bytes): (r: Option<nat>)
    ensures r.Some? ==> r.value <= |t|
  {
    if t == [] then None
    else if t[0] == QUOTE then
      match ReadBody(t[1..])
      case None => None
      case Some(p) => Some(1 + p.length)
    else if t[0] == OPEN_BRACE then ShiftBy(1, ScanTo(t[1..], Brace, 1, Outside))
    else if t[0] == OPEN_BRACKET then ShiftBy(1, ScanTo(t[1..], Square, 1, Outside))
    else
      var n := PlainRun(t);
      if n > 0 then Some(n) else None
  }

  /** How far skipping one value, after optional space, goes. */
  function SkipValue(t: Bytes): (r: Option<nat>)
    ensures r.Some? ==> r.value <= |t|
  {
    ShiftBy(SpaceRun(t), SkipToken(Token(t)))
  }

  // ----- Fields

  /** The start of a member: its key, and where its value starts. */
  datatype Head = Head(key: Bytes, valueAt: nat)

  function HeadToken(t: Bytes): (r: Option<Head>)
    ensures r.Some? ==> 1 <= r.value.valueAt <= |t|
  {
    match StringToken(t)
    case None => None
    case Some(p) =>
      var rest := t[p.length..];
      var q := SpaceRun(rest);
      if q < |rest| && rest[q] == COLON then Some(Head(p.value, p.length + q + 1)) else None
  }

  /** One round of the member loop up to the colon; a closing brace or anything but a key ends the loop. */
  function ReadHead(t: Bytes): (r: Option<Head>)
    ensures r.Some? ==> 1 <= r.value.valueAt <= |t|
  {
    match HeadToken(Token(t))
    case None => None
    case Some(h) => Some(Head(h.key, SpaceRun(t) + h.valueAt))
  }

  /** From the start of a value to the start of the next member, if a comma leads to one. */
  function SkipMember(t: Bytes): (r: Option<nat>)
    ensures r.Some? ==> 1 <= r.value <= |t|
  {
    match SkipValue(t)
    case None => None
    case Some(n) =>
      var rest := t[n..];
      var q := SpaceRun(rest);
      if q < |rest| && rest[q] == COMMA then Some(n + q + 1) else None
  }

  /** The position just past the colon of the member found, counted from the start of `t`. */
  function FindMember(t: Bytes, key: Bytes): (r: Option<nat>)
    ensures r.Some? ==> r.value <= |t|
    decreases |t|
  {
    match ReadHead(t)
    case None => None
    case Some(h) =>
      if h.key == key then Some(h.valueAt)
      else match SkipMember(t[h.valueAt..])
        case None => None
        case Some(n) => ShiftBy(h.valueAt + n, FindMember(t[h.valueAt + n..], key))
  }

  function Find(text: Bytes, key: Bytes): (r: Option<nat>)
    ensures r.Some? ==> r.value <= |text|
  {
    var t := Token(text);
    if t != [] && t[0] == OPEN_BRACE then ShiftBy(SpaceRun(text) + 1, FindMember(t[1..], key)) else None
  }

  /** What a field reader does with its out-parameter, or why it refuses. */
  datatype Field<+T> = Value(value: T) | Untouched | Refused(reason: Refusal)

  datatype Refusal = Missing | Malformed | OutOfRange | BadTail | Unclosed

  function NotFound<T>(required: bool): Field<T> {
    if required then Refused(Missing) else Untouched
  }

  function StringField(text: Bytes, key: Bytes, required: bool): Field<Bytes> {
    match Find(text, key)
    case None => NotFound(required)
    case Some(p) =>
      match ReadString(text[p..])
      case None => Refused(Malformed)
      case Some(piece) => Value(piece.value)
  }

  function ObjectToken(t: Bytes): Field<Bytes> {
    if t == [] || t[0] != OPEN_BRACE then Refused(Malformed)
    else match ScanTo(t[1..], Brace, 1, Outside)
      case None => Refused(Unclosed)
      case Some(n) => Value(t[..1 + n])
  }

  function ObjectField(text: Bytes, key: Bytes, required: bool): Field<Bytes> {
    match Find(text, key)
    case None => NotFound(required)
    case Some(p) => ObjectToken(Token(text[p..]))
  }

  predicate IsDigit(b: Byte) { '0' as int <= b <= '9' as int }

  function DigitRun(t: Bytes): (n: nat)
    ensures n <= |t|
    ensures forall i | 0 <= i < n :: IsDigit(t[i])
    ensures n < |t| ==> !IsDigit(t[n])
  {
    if t != [] && IsDigit(t[0]) then 1 + DigitRun(t[1..]) else 0
  }

  function DigitValue(b: Byte): nat
    requires IsDigit(b)
  {
    b - '0' as int
  }

  function Decimal(t: Bytes): nat
    requires forall i | 0 <= i < |t| :: IsDigit(t[i])
  {
    if t == [] then 0 else Decimal(t[..|t| - 1]) * 10 + DigitValue(t[|t| - 1])
  }

  const UINT32_MAX: nat := 0xFFFF_FFFF

  function UnsignedToken(t: Bytes): Field<nat> {
    var n := DigitRun(t);
    var value := Decimal(t[..n]);
    var rest := Token(t[n..]);
    if value > UINT32_MAX then Refused(OutOfRange)
    else if n == 0 then Refused(Malformed)
    else if rest != [] && rest[0] != COMMA && rest[0] != CLOSE_BRACE then Refused(BadTail)
    else Value(value)
  }

  function UnsignedField(text: Bytes, key: Bytes, required: bool): Field<nat> {
    match Find(text, key)
    case None => NotFound(required)
    case Some(p) => UnsignedToken(Token(text[p..]))
  }

  // ----- Quoting

  function HexChar(n: nat): Byte
    requires n < 16
  {
    if n < 10 then '0' as int + n else 'a' as int + n - 10
  }

  function QuotedByte(b: Byte): Bytes {
    if b == QUOTE then [BACKSLASH, QUOTE]
    else if b == BACKSLASH then [BACKSLASH, BACKSLASH]
    else if b == 10 then [BACKSLASH, 'n' as int]
    else if b == 13 then [BACKSLASH, 'r' as int]
    else if b == 9 then [BACKSLASH, 't' as int]
    else if b < 0x20 then [BACKSLASH, LETTER_U, '0' as int, '0' as int, HexChar(b / 16), HexChar(b % 16)]
    else [b]
  }

  function QuotedBody(s: Bytes): Bytes {
    if s == [] then [] else QuotedByte(s[0]) + QuotedBody(s[1..])
  }

  function Quoted(s: Bytes): Bytes {
    [QUOTE] + QuotedBody(s) + [QUOTE]
  }

  // ----- One step of the recursive readers

  lemma BodyStep(t: Bytes)
    ensures t == [] ==> ReadBody(t) == None
    ensures t != [] && t[0] == QUOTE ==> ReadBody(t) == Some(Piece([], 1))
    ensures t != [] && t[0] != QUOTE ==>
              ReadBody(t) == if ReadPiece(t).None? then None
                             else After(ReadPiece(t).value, ReadBody(t[ReadPiece(t).value.length..]))
  {
    hide ReadPiece;
  }

  lemma ScanStep(t: Bytes, k: Bracket, depth: nat, at: Scan)
    requires t != [] && depth >= 1
    ensures
      var c := t[0];
      ScanTo(t, k, depth, at)
      == if at.Outside? && c == Closing(k) && depth == 1 then Some(1)
         else ShiftBy(1, ScanTo(t[1..], k,
             if at.Outside? && c == Opening(k) then depth + 1
             else if at.Outside? && c == Closing(k) then depth - 1
             else depth,
             if at.Escaped? then Inside
             else if at.Inside? then (if c == BACKSLASH then Escaped else if c == QUOTE then Outside else Inside)
             else if c == QUOTE then Inside else Outside))
  {
  }
}
