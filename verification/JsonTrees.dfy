/**
 Concrete syntax trees of JSON with every space of the text, and the scan over their printed form.
 */
module JsonTrees {
  import opened Wrappers
  import opened JsonText
  import opened JsonBodies

  datatype Json =
    | Scalar(text: Bytes)
    | Str(body: Body)
    | Arr(items: seq<Padded>, blank: Bytes)
    | Obj(members: seq<Member>, blank: Bytes)

  datatype Padded = Padded(before: Bytes, value: Json, after: Bytes)

  datatype Member = Member(beforeKey: Bytes, keyBody: Body, afterKey: Bytes, item: Padded)

  predicate AllSpace(t: Bytes) { forall i | 0 <= i < |t| :: IsSpace(t[i]) }

  /** A byte of a number or of `true`, `false`, `null`: neither space nor punctuation. */
  predicate IsScalarByte(b: Byte) {
    !IsSpace(b) && !IsDelimiter(b) && b != QUOTE && b != OPEN_BRACE && b != OPEN_BRACKET
  }

  predicate Wf(v: Json)
    decreases v
  {
    match v
    case Scalar(text) => text != [] && forall i | 0 <= i < |text| :: IsScalarByte(text[i])
    case Str(body) => WfBody(body)
    case Arr(items, blank) => AllSpace(blank) && forall i | 0 <= i < |items| :: WfItem(items[i])
    case Obj(members, blank) => AllSpace(blank) && forall i | 0 <= i < |members| :: WfMember(members[i])
  }

  predicate WfItem(p: Padded)
    decreases p
  {
    AllSpace(p.before) && AllSpace(p.after) && Wf(p.value)
  }

  predicate WfKey(m: Member) {
    AllSpace(m.beforeKey) && AllSpace(m.afterKey) && WfBody(m.keyBody)
  }

  predicate WfMember(m: Member)
    decreases m
  {
    WfKey(m) && WfItem(m.item)
  }

  function Literal(body: Body): Bytes { [QUOTE] + PrintBody(body) + [QUOTE] }

  function Print(v: Json): Bytes
    decreases v
  {
    match v
    case Scalar(text) => text
    case Str(body) => Literal(body)
    case Arr(items, blank) => [OPEN_BRACKET] + (if items == [] then blank else PrintItems(items)) + [CLOSE_BRACKET]
    case Obj(members, blank) => [OPEN_BRACE] + PrintInside(members, blank) + [CLOSE_BRACE]
  }

  function PrintItem(p: Padded): Bytes
    decreases p
  {
    p.before + Print(p.value) + p.after
  }

  function PrintItems(items: seq<Padded>): Bytes
    requires items != []
    decreases items
  {
    if |items| == 1 then PrintItem(items[0]) else PrintItem(items[0]) + [COMMA] + PrintItems(items[1..])
  }

  function PrintKey(m: Member): Bytes {
    m.beforeKey + Literal(m.keyBody) + m.afterKey + [COLON]
  }

  function PrintMember(m: Member): Bytes
    decreases m
  {
    PrintKey(m) + PrintItem(m.item)
  }

  function PrintMembers(members: seq<Member>): Bytes
    requires members != []
    decreases members, 0
  {
    if |members| == 1 then PrintMember(members[0]) else PrintMember(members[0]) + [COMMA] + PrintMembers(members[1..])
  }

  function PrintInside(members: seq<Member>, blank: Bytes): Bytes
    decreases members, 1
  {
    if members == [] then blank else PrintMembers(members)
  }

  // ----- Scanning over well-formed text

  lemma LiteralText(body: Body, tail: Bytes)
    ensures var t := Literal(body) + tail; t[0] == QUOTE && t[1..] == AfterPart(body, tail)
  {
    var inside := PrintBody(body);
    hide PrintBody;
    assert Literal(body) + tail == [QUOTE] + (inside + ([QUOTE] + tail));
  }

  /** Strings: the scan comes out exactly at the end of the literal. */
  lemma ScanOverLiteral(body: Body, tail: Bytes, k: Bracket, depth: nat)
    requires WfBody(body)
    ensures ScanTo(Literal(body) + tail, k, depth, Outside) == ShiftBy(|Literal(body)|, ScanTo(tail, k, depth, Outside))
  {
    LiteralText(body, tail);
    EntersString(Literal(body) + tail, k, depth);
    ScanOverBody(body, tail, k, depth);
    hide ScanTo, PrintBody;
  }

  lemma EntersString(t: Bytes, k: Bracket, depth: nat)
    requires t != [] && t[0] == QUOTE
    ensures ScanTo(t, k, depth, Outside) == ShiftBy(1, ScanTo(t[1..], k, depth, Inside))
  {
  }

  /** A byte the scan passes over outside strings, whichever bracket it counts. */
  predicate IsQuiet(b: Byte) {
    b != QUOTE && b != OPEN_BRACE && b != CLOSE_BRACE && b != OPEN_BRACKET && b != CLOSE_BRACKET
  }

  lemma {:induction false} ScanOverQuiet(p: Bytes, tail: Bytes, k: Bracket, depth: nat)
    requires forall i | 0 <= i < |p| :: IsQuiet(p[i])
    ensures ScanTo(p + tail, k, depth, Outside) == ShiftBy(|p|, ScanTo(tail, k, depth, Outside))
  {
    if p == [] {
      assert p + tail == tail;
    } else {
      assert (p + tail)[1..] == p[1..] + tail;
      ScanOverQuiet(p[1..], tail, k, depth);
    }
  }

  /** A bracketed text whose inside leaves the depth alone leaves it alone too, whether or not its kind is counted. */
  lemma ScanOverBracketed(o: Bracket, inside: Bytes, tail: Bytes, k: Bracket, depth: nat)
    requires depth >= 1
    requires
      var inner := if o == k then depth + 1 else depth;
      ScanTo(inside + ([Closing(o)] + tail), k, inner, Outside)
      == ShiftBy(|inside|, ScanTo([Closing(o)] + tail, k, inner, Outside))
    ensures ScanTo([Opening(o)] + inside + [Closing(o)] + tail, k, depth, Outside)
         == ShiftBy(|inside| + 2, ScanTo(tail, k, depth, Outside))
  {
    var whole := [Opening(o)] + inside + [Closing(o)] + tail;
    var close := [Closing(o)] + tail;
    assert whole[1..] == inside + close;
    assert close[1..] == tail;
  }

  lemma ScanOverComma(first: Bytes, more: Bytes, tail: Bytes, k: Bracket, depth: nat)
    requires ScanTo(first + ([COMMA] + (more + tail)), k, depth, Outside)
          == ShiftBy(|first|, ScanTo([COMMA] + (more + tail), k, depth, Outside))
    requires ScanTo(more + tail, k, depth, Outside) == ShiftBy(|more|, ScanTo(tail, k, depth, Outside))
    ensures ScanTo(first + [COMMA] + more + tail, k, depth, Outside)
         == ShiftBy(|first + [COMMA] + more|, ScanTo(tail, k, depth, Outside))
  {
    assert first + [COMMA] + more + tail == first + ([COMMA] + (more + tail));
    ScanOverQuiet([COMMA], more + tail, k, depth);
  }

  /** The scan passes over any printed value and comes out at the depth it came in with. */
  lemma {:induction false} ScanOverValue(v: Json, tail: Bytes, k: Bracket, depth: nat)
    requires Wf(v) && depth >= 1
    ensures ScanTo(Print(v) + tail, k, depth, Outside) == ShiftBy(|Print(v)|, ScanTo(tail, k, depth, Outside))
    decreases v, 2
  {
    hide ScanTo;
    hide WfBody, Literal;
    hide PrintItems;
    hide PrintInside;
    match v
    case Scalar(text) =>
      ScanOverQuiet(text, tail, k, depth);
    case Str(body) =>
      ScanOverLiteral(body, tail, k, depth);
    case Arr(items, blank) =>
      ScanInsideArray(v, [CLOSE_BRACKET] + tail, k, if k.Square? then depth + 1 else depth);
      ScanOverBracketed(Square, if items == [] then blank else PrintItems(items), tail, k, depth);
    case Obj(members, blank) =>
      ScanInsideObject(v, [CLOSE_BRACE] + tail, k, if k.Brace? then depth + 1 else depth);
      ScanOverBracketed(Brace, PrintInside(members, blank), tail, k, depth);
  }

  lemma {:induction false} ScanInsideArray(v: Json, tail: Bytes, k: Bracket, depth: nat)
    requires v.Arr? && Wf(v) && depth >= 1
    ensures
      var inside := if v.items == [] then v.blank else PrintItems(v.items);
      ScanTo(inside + tail, k, depth, Outside) == ShiftBy(|inside|, ScanTo(tail, k, depth, Outside))
    decreases v, 1
  {
    if v.items == [] {
      ScanOverQuiet(v.blank, tail, k, depth);
    } else {
      ScanOverItems(v.items, tail, k, depth);
    }
  }

  lemma {:induction false} ScanInsideObject(v: Json, tail: Bytes, k: Bracket, depth: nat)
    requires v.Obj? && Wf(v) && depth >= 1
    ensures
      var inside := PrintInside(v.members, v.blank);
      ScanTo(inside + tail, k, depth, Outside) == ShiftBy(|inside|, ScanTo(tail, k, depth, Outside))
    decreases v, 1
  {
    if v.members == [] {
      ScanOverQuiet(v.blank, tail, k, depth);
    } else {
      ScanOverMembers(v.members, tail, k, depth);
    }
  }

  lemma {:induction false} ScanOverItem(p: Padded, tail: Bytes, k: Bracket, depth: nat)
    requires WfItem(p) && depth >= 1
    ensures ScanTo(PrintItem(p) + tail, k, depth, Outside) == ShiftBy(|PrintItem(p)|, ScanTo(tail, k, depth, Outside))
    decreases p
  {
    var t1 := p.after + tail;
    var t2 := Print(p.value) + t1;
    assert PrintItem(p) + tail == p.before + t2;
    ScanOverQuiet(p.before, t2, k, depth);
    ScanOverValue(p.value, t1, k, depth);
    ScanOverQuiet(p.after, tail, k, depth);
  }

  lemma {:induction false} ScanOverItems(items: seq<Padded>, tail: Bytes, k: Bracket, depth: nat)
    requires items != [] && depth >= 1 && forall i | 0 <= i < |items| :: WfItem(items[i])
    ensures ScanTo(PrintItems(items) + tail, k, depth, Outside)
         == ShiftBy(|PrintItems(items)|, ScanTo(tail, k, depth, Outside))
    decreases items
  {
    if |items| == 1 {
      ScanOverItem(items[0], tail, k, depth);
    } else {
      var first, more := PrintItem(items[0]), PrintItems(items[1..]);
      ScanOverItem(items[0], [COMMA] + (more + tail), k, depth);
      ScanOverItems(items[1..], tail, k, depth);
      ScanOverComma(first, more, tail, k, depth);
    }
  }

  lemma PrintKeySplit(m: Member, tail: Bytes)
    ensures PrintKey(m) + tail
         == m.beforeKey + (Literal(m.keyBody) + (m.afterKey + ([COLON] + tail)))
  {
    hide Literal;
  }

  lemma ScanOverKey(m: Member, tail: Bytes, k: Bracket, depth: nat)
    requires WfKey(m)
    ensures ScanTo(PrintKey(m) + tail, k, depth, Outside) == ShiftBy(|PrintKey(m)|, ScanTo(tail, k, depth, Outside))
  {
    hide ScanTo;
    hide WfBody, Literal;
    var t1 := [COLON] + tail;
    var t2 := m.afterKey + t1;
    var t3 := Literal(m.keyBody) + t2;
    PrintKeySplit(m, tail);
    ScanOverQuiet(m.beforeKey, t3, k, depth);
    ScanOverLiteral(m.keyBody, t2, k, depth);
    ScanOverQuiet(m.afterKey, t1, k, depth);
    ScanOverQuiet([COLON], tail, k, depth);
  }

  lemma {:induction false} ScanOverMember(m: Member, tail: Bytes, k: Bracket, depth: nat)
    requires WfMember(m) && depth >= 1
    ensures ScanTo(PrintMember(m) + tail, k, depth, Outside)
         == ShiftBy(|PrintMember(m)|, ScanTo(tail, k, depth, Outside))
    decreases m
  {
    var t1 := PrintItem(m.item) + tail;
    assert PrintMember(m) + tail == PrintKey(m) + t1;
    ScanOverKey(m, t1, k, depth);
    ScanOverItem(m.item, tail, k, depth);
  }

  lemma {:induction false} ScanOverMembers(members: seq<Member>, tail: Bytes, k: Bracket, depth: nat)
    requires members != [] && depth >= 1 && forall i | 0 <= i < |members| :: WfMember(members[i])
    ensures ScanTo(PrintMembers(members) + tail, k, depth, Outside)
         == ShiftBy(|PrintMembers(members)|, ScanTo(tail, k, depth, Outside))
    decreases members
  {
    if |members| == 1 {
      ScanOverMember(members[0], tail, k, depth);
    } else {
      var first, more := PrintMember(members[0]), PrintMembers(members[1..]);
      ScanOverMember(members[0], [COMMA] + (more + tail), k, depth);
      ScanOverMembers(members[1..], tail, k, depth);
      ScanOverComma(first, more, tail, k, depth);
    }
  }
}
