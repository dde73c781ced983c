/**
 Skipping and field lookup on printed JSON objects: the reader finds exactly the first
 member with a key, and the field readers return exactly that member's value, unless a lone surrogate
 stands in a key or a string value on the way there; then it reports absence.
 */
module JsonFieldLaws {
  import opened Wrappers
  import opened JsonText
  import opened JsonBodies
  import opened JsonTrees

  // ----- Runs

  lemma {:induction false} SpaceRunOver(pad: Bytes, t: Bytes)
    requires AllSpace(pad) && (t == [] || !IsSpace(t[0]))
    ensures SpaceRun(pad + t) == |pad|
  {
    if pad == [] {
      assert pad + t == t;
    } else {
      assert (pad + t)[1..] == pad[1..] + t;
      SpaceRunOver(pad[1..], t);
    }
  }

  lemma {:induction false} PlainRunOver(p: Bytes, t: Bytes)
    requires forall i | 0 <= i < |p| :: !IsDelimiter(p[i])
    ensures PlainRun(p + t) == |p| + PlainRun(t)
  {
    if p == [] {
      assert p + t == t;
    } else {
      assert (p + t)[1..] == p[1..] + t;
      PlainRunOver(p[1..], t);
    }
  }

  lemma PrintStart(v: Json)
    requires Wf(v)
    ensures Print(v) != [] && !IsSpace(Print(v)[0])
    ensures Print(v)[0] == QUOTE <==> v.Str?
    ensures Print(v)[0] == OPEN_BRACE <==> v.Obj?
    ensures Print(v)[0] == OPEN_BRACKET <==> v.Arr?
  {
  }

  // ----- Skipping

  lemma TokenOver(pad: Bytes, t: Bytes)
    requires AllSpace(pad) && (t == [] || !IsSpace(t[0]))
    ensures Token(pad + t) == t && SpaceRun(pad + t) == |pad|
  {
    SpaceRunOver(pad, t);
  }

  /** A string that the reader refuses. */
  predicate LoneString(v: Json) { v.Str? && HasLone(v.body) }

  /**
   Skipping stops exactly past a printed value, whatever follows it, although it counts one
   bracket kind only; past a scalar it runs on to the next delimiter. The one value it refuses is a
   string with a lone surrogate; inside arrays and objects it passes over those too.
   */
  lemma SkipExact(v: Json, pad: Bytes, tail: Bytes)
    requires Wf(v) && AllSpace(pad)
    ensures SkipValue(pad + (Print(v) + tail))
         == if LoneString(v) then None else Some(|pad| + |Print(v)| + if v.Scalar? then PlainRun(tail) else 0)
  {
    hide Token, SkipToken, Wf;
    PrintStart(v);
    FirstByte(Print(v), tail);
    TokenOver(pad, Print(v) + tail);
    SkipTokenExact(v, tail);
  }

  lemma SkipTokenExact(v: Json, tail: Bytes)
    requires Wf(v)
    ensures SkipToken(Print(v) + tail)
         == if LoneString(v) then None else Some(|Print(v)| + if v.Scalar? then PlainRun(tail) else 0)
  {
    hide Wf, ScanTo;
    match v
    case Scalar(text) =>
      SkipScalar(v, tail);
    case Str(body) =>
      SkipString(body, tail);
    case Arr(items, blank) =>
      SkipBracketed(v, tail);
    case Obj(members, blank) =>
      SkipBracketed(v, tail);
  }

  lemma SkipScalar(v: Json, tail: Bytes)
    requires Wf(v) && v.Scalar?
    ensures SkipToken(v.text + tail) == Some(|v.text| + PlainRun(tail))
  {
    FirstByte(v.text, tail);
    PlainRunOver(v.text, tail);
  }

  lemma SkipString(body: Body, tail: Bytes)
    requires Wf(Str(body))
    ensures SkipToken(Literal(body) + tail) == if HasLone(body) then None else Some(|Literal(body)|)
  {
    LiteralText(body, tail);
    ReadBodyExact(body, tail);
    LiteralStarts(body, tail);
    hide ReadBody, PrintBody, Denoted, HasLone, WfBody, Literal, AfterPart;
  }

  lemma SkipBracketed(v: Json, tail: Bytes)
    requires Wf(v) && (v.Arr? || v.Obj?)
    ensures SkipToken(Print(v) + tail) == Some(|Print(v)|)
  {
    PrintStart(v);
    FirstByte(Print(v), tail);
    ScanCloses(v, tail);
    hide Print, ScanTo, Wf;
  }

  lemma FirstByte(t: Bytes, tail: Bytes)
    requires t != []
    ensures (t + tail)[0] == t[0]
  {
  }

  /** A text without its first byte. */
  lemma Uncover(o: Byte, inside: Bytes, c: Byte, tail: Bytes)
    ensures ([o] + inside + [c] + tail)[1..] == inside + ([c] + tail) == inside + [c] + tail
  {
  }

  /** From just inside a printed bracketed value, the scan ends exactly at its end. */
  lemma ScanCloses(v: Json, tail: Bytes)
    requires Wf(v) && (v.Arr? || v.Obj?)
    ensures
      var k := if v.Arr? then Square else Brace;
      ScanTo((Print(v) + tail)[1..], k, 1, Outside) == Some(|Print(v)| - 1)
  {
    var k := if v.Arr? then Square else Brace;
    var close := [Closing(k)] + tail;
    if v.Arr? {
      ScanInsideArray(v, close, k, 1);
      Uncover(OPEN_BRACKET, if v.items == [] then v.blank else PrintItems(v.items), CLOSE_BRACKET, tail);
    } else {
      ScanInsideObject(v, close, k, 1);
      Uncover(OPEN_BRACE, PrintInside(v.members, v.blank), CLOSE_BRACE, tail);
    }
    assert ScanTo(close, k, 1, Outside) == Some(1);
  }

  // ----- Lookup

  /** Whether a member's key denotes `key`. */
  predicate KeyIs(m: Member, key: Bytes) { WfKey(m) && !HasLone(m.keyBody) && Denoted(m.keyBody) == key }

  /** The position of the first member whose key denotes `key`. */
  function FirstMatch(ms: seq<Member>, key: Bytes): (r: Option<nat>)
    ensures r.Some? ==> r.value < |ms|
  {
    if ms == [] then None
    else if KeyIs(ms[0], key) then Some(0)
    else
      var r := FirstMatch(ms[1..], key);
      if r.Some? then Some(r.value + 1) else None
  }

  lemma {:induction false} FirstMatchIsFirst(ms: seq<Member>, key: Bytes)
    ensures
      var r := FirstMatch(ms, key);
      && (r.Some? ==> KeyIs(ms[r.value], key))
      && forall j | 0 <= j < (if r.Some? then r.value else |ms|) :: !KeyIs(ms[j], key)
  {
    hide KeyIs;
    if ms != [] && !KeyIs(ms[0], key) {
      FirstMatchIsFirst(ms[1..], key);
      var rest := ms[1..];
      assert forall j | 0 <= j < |rest| :: ms[j + 1] == rest[j];
    }
  }

  /** A member that lookup gets past: no lone surrogate in its key, nor in its value if that is a string. */
  predicate Passable(m: Member) { !HasLone(m.keyBody) && !LoneString(m.item.value) }

  predicate ClearTo(ms: seq<Member>, n: nat)
    requires n <= |ms|
  {
    forall j | 0 <= j < n :: Passable(ms[j])
  }

  /** The member lookup finds: the first match, if every member before it can be passed. */
  function Found(ms: seq<Member>, key: Bytes): (r: Option<nat>)
    ensures r.Some? ==> r.value < |ms|
  {
    var r := FirstMatch(ms, key);
    if r.Some? && ClearTo(ms, r.value) then r else None
  }

  lemma FoundStep(ms: seq<Member>, key: Bytes)
    requires ms != []
    ensures Found(ms, key)
         == if KeyIs(ms[0], key) then Some(0)
            else if !Passable(ms[0]) then None
            else if Found(ms[1..], key).Some? then Some(Found(ms[1..], key).value + 1) else None
  {
    hide KeyIs, Passable;
    var rest := ms[1..];
    assert forall j | 0 <= j < |rest| :: ms[j + 1] == rest[j];
    var r := FirstMatch(rest, key);
    if !KeyIs(ms[0], key) && r.Some? {
      assert ClearTo(ms, r.value + 1) <==> Passable(ms[0]) && ClearTo(rest, r.value) by {
        assert forall j | 1 <= j < r.value + 1 :: ms[j] == rest[j - 1];
      }
    }
  }

  /** Where member `i`'s value starts in the printed members, pad included. */
  function ValueAt(ms: seq<Member>, i: nat): nat
    requires i < |ms|
  {
    if i == 0 then |PrintKey(ms[0])| else |PrintMember(ms[0])| + 1 + ValueAt(ms[1..], i - 1)
  }

  /** The printed text from member `i`'s end on. */
  function RestAfter(ms: seq<Member>, i: nat, tail: Bytes): Bytes
    requires i < |ms|
  {
    if i + 1 == |ms| then [CLOSE_BRACE] + tail else [COMMA] + (PrintMembers(ms[i + 1..]) + ([CLOSE_BRACE] + tail))
  }

  lemma {:induction false} TextAtValue(ms: seq<Member>, i: nat, tail: Bytes)
    requires i < |ms|
    ensures
      var t := PrintMembers(ms) + ([CLOSE_BRACE] + tail);
      ValueAt(ms, i) <= |t| && t[ValueAt(ms, i)..] == PrintItem(ms[i].item) + RestAfter(ms, i, tail)
    decreases i
  {
    hide PrintMembers;
    hide PrintKey;
    hide PrintItem;
    MembersSplit(ms, tail);
    if i == 0 {
      DropFirst(PrintKey(ms[0]), PrintItem(ms[0].item), RestAfter(ms, 0, tail));
    } else {
      TextAtValue(ms[1..], i - 1, tail);
      DropMore(PrintMember(ms[0]), PrintMembers(ms[1..]) + ([CLOSE_BRACE] + tail), ValueAt(ms[1..], i - 1));
      assert ms[1..][i..] == ms[i + 1..];
    }
  }

  lemma DropFirst(key: Bytes, item: Bytes, rest: Bytes)
    ensures ((key + item) + rest)[|key|..] == item + rest
  {
  }

  lemma DropMore(first: Bytes, more: Bytes, n: nat)
    requires n <= |more|
    ensures (first + ([COMMA] + more))[|first| + 1 + n..] == more[n..]
  {
    assert first + ([COMMA] + more) == (first + [COMMA]) + more;
  }

  lemma MembersSplit(ms: seq<Member>, tail: Bytes)
    requires ms != []
    ensures PrintMembers(ms) + ([CLOSE_BRACE] + tail) == PrintMember(ms[0]) + RestAfter(ms, 0, tail)
  {
  }

  lemma HeadRead(m: Member, tail: Bytes)
    requires WfKey(m)
    ensures ReadHead(PrintKey(m) + tail)
         == if HasLone(m.keyBody) then None else Some(Head(Denoted(m.keyBody), |PrintKey(m)|))
  {
    hide ReadHead, HeadToken, WfBody, Denoted, HasLone, Literal;
    var u := Literal(m.keyBody) + (m.afterKey + ([COLON] + tail));
    PrintKeySplit(m, tail);
    LiteralStarts(m.keyBody, m.afterKey + ([COLON] + tail));
    KeyTokenRead(m.keyBody, m.afterKey, tail);
    HeadAfterPad(m.beforeKey, u);
  }

  lemma LiteralStarts(body: Body, tail: Bytes)
    ensures |Literal(body)| == |PrintBody(body)| + 2
    ensures Literal(body) + tail != [] && (Literal(body) + tail)[0] == QUOTE && !IsSpace(QUOTE)
    ensures (Literal(body) + tail)[|Literal(body)|..] == tail
  {
    hide PrintBody;
  }

  lemma HeadAfterPad(pad: Bytes, t: Bytes)
    requires AllSpace(pad) && t != [] && !IsSpace(t[0])
    ensures ReadHead(pad + t)
         == match HeadToken(t) case None => None case Some(h) => Some(Head(h.key, |pad| + h.valueAt))
  {
    hide HeadToken;
    TokenOver(pad, t);
  }

  lemma KeyTokenRead(body: Body, pad: Bytes, tail: Bytes)
    requires WfBody(body) && AllSpace(pad)
    ensures HeadToken(Literal(body) + (pad + ([COLON] + tail)))
         == if HasLone(body) then None else Some(Head(Denoted(body), |Literal(body)| + |pad| + 1))
  {
    hide WfBody, Denoted, HasLone, Literal, StringToken;
    var t := pad + ([COLON] + tail);
    StringTokenRead(body, t);
    LiteralStarts(body, t);
    SpaceRunOver(pad, [COLON] + tail);
    assert t[|pad|] == COLON;
  }

  lemma StringTokenRead(body: Body, tail: Bytes)
    requires WfBody(body)
    ensures StringToken(Literal(body) + tail)
         == if HasLone(body) then None else Some(Piece(Denoted(body), |Literal(body)|))
  {
    hide ReadBody, WfBody, Denoted, HasLone, PrintBody;
    LiteralText(body, tail);
    ReadBodyExact(body, tail);
    assert [] + Denoted(body) == Denoted(body);
  }

  /** After a member's value that can be passed, the loop goes on exactly at a comma. */
  lemma SkipMemberExact(p: Padded, c: Byte, rest: Bytes)
    requires WfItem(p) && (c == COMMA || c == CLOSE_BRACE)
    ensures SkipMember(PrintItem(p) + ([c] + rest))
         == if !LoneString(p.value) && c == COMMA then Some(|PrintItem(p)| + 1) else None
  {
    hide SkipValue, Print, LoneString, Wf, SkipMember, PlainRun, PrintItem;
    PrintItemSplit(p, [c] + rest);
    SkipExact(p.value, p.before, p.after + ([c] + rest));
    if LoneString(p.value) {
      SkipStuck(PrintItem(p) + ([c] + rest));
    } else {
      SpacesArePlain(p.after, c, rest);
      PrintItemLength(p);
      SkipThenComma(p.before + Print(p.value), p.after, c, rest, p.value.Scalar?);
    }
  }

  lemma SkipStuck(t: Bytes)
    requires SkipValue(t).None?
    ensures SkipMember(t).None?
  {
    hide SkipValue;
  }

  lemma PrintItemLength(p: Padded)
    ensures |PrintItem(p)| == |p.before + Print(p.value)| + |p.after|
  {
    hide Print;
  }

  lemma SpacesArePlain(pad: Bytes, c: Byte, rest: Bytes)
    requires AllSpace(pad) && (c == COMMA || c == CLOSE_BRACE)
    ensures PlainRun(pad + ([c] + rest)) == |pad|
  {
    PlainRunOver(pad, [c] + rest);
  }

  lemma PrintItemSplit(p: Padded, more: Bytes)
    ensures PrintItem(p) + more == p.before + (Print(p.value) + (p.after + more))
    ensures PrintItem(p) + more == (p.before + Print(p.value)) + (p.after + more)
  {
  }

  lemma SkipThenComma(value: Bytes, pad: Bytes, c: Byte, rest: Bytes, overPad: bool)
    requires AllSpace(pad) && (c == COMMA || c == CLOSE_BRACE)
    requires SkipValue(value + (pad + ([c] + rest))) == Some(|value| + if overPad then |pad| else 0)
    ensures SkipMember(value + (pad + ([c] + rest))) == if c == COMMA then Some(|value| + |pad| + 1) else None
  {
    var more := [c] + rest;
    var t := value + (pad + more);
    if overPad {
      assert t[|value| + |pad|..] == more;
      assert SpaceRun(more) == 0;
    } else {
      assert t[|value|..] == pad + more;
      SpaceRunOver(pad, more);
      assert (pad + more)[|pad|] == c;
    }
  }

  lemma {:induction false} FindMemberExact(ms: seq<Member>, tail: Bytes, key: Bytes)
    requires ms != [] && forall i | 0 <= i < |ms| :: WfMember(ms[i])
    ensures
      var r := Found(ms, key);
      FindMember(PrintMembers(ms) + ([CLOSE_BRACE] + tail), key)
      == if r.Some? then Some(ValueAt(ms, r.value)) else None
    decreases |ms|
  {
    hide FindMember, PrintMember, PrintMembers, PrintKey, WfMember, KeyIs, Found, Passable;
    var m := ms[0];
    MembersSplit(ms, tail);
    FoundStep(ms, key);
    if |ms| == 1 {
      LookAtFirst(m, CLOSE_BRACE, tail, key);
      assert ms[1..] == [];
      NothingFound(key);
    } else {
      LookAtFirst(m, COMMA, PrintMembers(ms[1..]) + ([CLOSE_BRACE] + tail), key);
      FindMemberExact(ms[1..], tail, key);
    }
  }

  lemma NothingFound(key: Bytes)
    ensures Found([], key) == None
  {
  }

  /** One round of the member loop. */
  lemma LookAtFirst(m: Member, c: Byte, rest: Bytes, key: Bytes)
    requires WfMember(m) && (c == COMMA || c == CLOSE_BRACE)
    ensures FindMember(PrintMember(m) + ([c] + rest), key)
         == if KeyIs(m, key) then Some(|PrintKey(m)|)
            else if Passable(m) && c == COMMA then ShiftBy(|PrintMember(m)| + 1, FindMember(rest, key))
            else None
  {
    hide ReadHead, SkipMember, FindMember, PrintKey, PrintItem, HasLone, Denoted, LoneString, WfBody;
    var value := PrintItem(m.item) + ([c] + rest);
    HeadRead(m, value);
    SkipMemberExact(m.item, c, rest);
    var keyValue := if HasLone(m.keyBody) then None else Some(Denoted(m.keyBody));
    LookText(PrintKey(m), PrintItem(m.item), c, rest);
    var t := PrintMember(m) + ([c] + rest);
    LookAhead(t, value, rest, |PrintKey(m)|, |PrintItem(m.item)| + 1, keyValue, !LoneString(m.item.value) && c == COMMA, key);
    assert |PrintMember(m)| == |PrintKey(m)| + |PrintItem(m.item)|;
  }

  /** One round, in terms of where the value and the next member start. */
  lemma LookAhead(t: Bytes, value: Bytes, rest: Bytes, n: nat, m: nat, keyValue: Option<Bytes>, goesOn: bool, key: Bytes)
    requires n + m <= |t| && t[n..] == value && t[n + m..] == rest
    requires ReadHead(t) == if keyValue.Some? then Some(Head(keyValue.value, n)) else None
    requires SkipMember(value) == if goesOn then Some(m) else None
    ensures FindMember(t, key)
         == if keyValue == Some(key) then Some(n)
            else if keyValue.Some? && goesOn then ShiftBy(n + m, FindMember(rest, key))
            else None
  {
    hide ReadHead, SkipMember, FindMember;
    FindUnfold(t, key);
  }

  lemma FindUnfold(t: Bytes, key: Bytes)
    ensures FindMember(t, key)
         == match ReadHead(t)
            case None => None
            case Some(h) =>
              if h.key == key then Some(h.valueAt)
              else match SkipMember(t[h.valueAt..])
                case None => None
                case Some(n) => ShiftBy(h.valueAt + n, FindMember(t[h.valueAt + n..], key))
  {
    hide ReadHead, SkipMember;
  }

  lemma LookText(keyText: Bytes, item: Bytes, c: Byte, rest: Bytes)
    ensures
      var t := (keyText + item) + ([c] + rest);
      && t == keyText + (item + ([c] + rest)) && t[|keyText|..] == item + ([c] + rest)
      && t[|keyText| + (|item| + 1)..] == rest && |t| >= |keyText| + |item| + 1
  {
  }

  /**
   On every printed object, after any space and before any text, lookup finds the first member with the key if no
   member before it has a lone surrogate in its key or string value, and otherwise reports absence. So it is exact if
   and only if there is no such member, or none on the way.
   */
  lemma FindExact(obj: Json, pad: Bytes, tail: Bytes, key: Bytes)
    requires obj.Obj? && Wf(obj) && AllSpace(pad)
    ensures
      var r := Found(obj.members, key);
      Find(pad + (Print(obj) + tail), key)
      == if r.Some? then Some(|pad| + 1 + ValueAt(obj.members, r.value)) else None
    ensures
      var r := FirstMatch(obj.members, key);
      var ideal := if r.Some? then Some(|pad| + 1 + ValueAt(obj.members, r.value)) else None;
      Find(pad + (Print(obj) + tail), key) == ideal <==> r.None? || ClearTo(obj.members, r.value)
  {
    hide Token, ReadHead, SkipMember, ValueAt, FirstMatch, ClearTo, FindMember, PrintInside;
    PrintStart(obj);
    TokenOver(pad, Print(obj) + tail);
    FirstByte(Print(obj), tail);
    var ms := obj.members;
    Uncover(OPEN_BRACE, PrintInside(ms, obj.blank), CLOSE_BRACE, tail);
    assert Find(pad + (Print(obj) + tail), key)
        == ShiftBy(|pad| + 1, FindMember(PrintInside(ms, obj.blank) + ([CLOSE_BRACE] + tail), key));
    FindInside(ms, obj.blank, tail, key);
  }

  lemma FindInside(ms: seq<Member>, blank: Bytes, tail: Bytes, key: Bytes)
    requires AllSpace(blank) && forall i | 0 <= i < |ms| :: WfMember(ms[i])
    ensures
      var r := Found(ms, key);
      FindMember(PrintInside(ms, blank) + ([CLOSE_BRACE] + tail), key)
      == if r.Some? then Some(ValueAt(ms, r.value)) else None
  {
    hide ReadHead, WfMember, ValueAt;
    if ms == [] {
      NoHeadAtBrace(blank, tail);
    } else {
      hide Found, FindMember;
      FindMemberExact(ms, tail, key);
    }
  }

  lemma NoHeadAtBrace(blank: Bytes, tail: Bytes)
    requires AllSpace(blank)
    ensures ReadHead(blank + ([CLOSE_BRACE] + tail)) == None
  {
    TokenOver(blank, [CLOSE_BRACE] + tail);
  }

  /** The value lookup leads to, and the comma or closing brace after it. */
  lemma FoundText(obj: Json, pad: Bytes, tail: Bytes, key: Bytes)
    requires obj.Obj? && Wf(obj) && AllSpace(pad) && Found(obj.members, key).Some?
    ensures
      var i := Found(obj.members, key).value;
      var item := obj.members[i].item;
      var text := pad + (Print(obj) + tail);
      var p := Find(text, key);
      && p.Some? && WfItem(item)
      && Token(text[p.value..]) == Print(item.value) + (item.after + RestAfter(obj.members, i, tail))
  {
    hide Token, Find, Print, RestAfter, ValueAt, Wf, PrintItem, FirstMatch, ClearTo;
    var i := Found(obj.members, key).value;
    MemberWf(obj, i);
    FindExact(obj, pad, tail, key);
    TextAtFound(obj, i, pad, tail);
    ItemText(obj.members[i].item, RestAfter(obj.members, i, tail));
  }

  lemma MemberWf(obj: Json, i: nat)
    requires obj.Obj? && Wf(obj) && i < |obj.members|
    ensures WfItem(obj.members[i].item)
  {
    assert WfMember(obj.members[i]);
  }

  lemma ItemText(item: Padded, rest: Bytes)
    requires WfItem(item)
    ensures Token(PrintItem(item) + rest) == Print(item.value) + (item.after + rest)
  {
    PrintStart(item.value);
    hide Token, Print, Wf;
    PrintItemSplit(item, rest);
    FirstByte(Print(item.value), item.after + rest);
    TokenOver(item.before, Print(item.value) + (item.after + rest));
  }

  lemma TextAtFound(obj: Json, i: nat, pad: Bytes, tail: Bytes)
    requires obj.Obj? && i < |obj.members|
    ensures
      var text := pad + (Print(obj) + tail);
      var p := |pad| + 1 + ValueAt(obj.members, i);
      p <= |text| && text[p..] == PrintItem(obj.members[i].item) + RestAfter(obj.members, i, tail)
  {
    var ms := obj.members;
    hide PrintMembers, ValueAt, RestAfter;
    TextAtValue(ms, i, tail);
    DropInside(pad, OPEN_BRACE, PrintMembers(ms), CLOSE_BRACE, tail, ValueAt(ms, i));
  }

  lemma DropInside(pad: Bytes, o: Byte, inside: Bytes, c: Byte, tail: Bytes, n: nat)
    requires n <= |inside + ([c] + tail)|
    ensures (pad + ([o] + inside + [c] + tail))[|pad| + 1 + n..] == (inside + ([c] + tail))[n..]
  {
    var inner := inside + ([c] + tail);
    assert pad + ([o] + inside + [c] + tail) == (pad + [o]) + inner;
  }

  // ----- Field readers

  /** An object field is exactly the text of the member found, when that is an object. */
  lemma ObjectFieldExact(obj: Json, pad: Bytes, tail: Bytes, key: Bytes, required: bool)
    requires obj.Obj? && Wf(obj) && AllSpace(pad)
    ensures
      var r := Found(obj.members, key);
      ObjectField(pad + (Print(obj) + tail), key, required)
      == if r.None? then (if required then Refused(Missing) else Untouched)
         else
           var v := obj.members[r.value].item.value;
           if v.Obj? then Value(Print(v)) else Refused(Malformed)
  {
    FindExact(obj, pad, tail, key);
    var r := Found(obj.members, key);
    if r.Some? {
      FoundText(obj, pad, tail, key);
      var item := obj.members[r.value].item;
      ObjectTokenExact(item.value, item.after + RestAfter(obj.members, r.value, tail));
    }
  }

  lemma ObjectTokenExact(v: Json, tail: Bytes)
    requires Wf(v)
    ensures ObjectToken(Print(v) + tail) == if v.Obj? then Value(Print(v)) else Refused(Malformed)
  {
    PrintStart(v);
    var t := Print(v) + tail;
    assert t[0] == Print(v)[0];
    if v.Obj? {
      ScanCloses(v, tail);
      assert t[..|Print(v)|] == Print(v);
    }
  }

  /** A string field is exactly the string the member found denotes, when that is a string without a lone surrogate. */
  lemma StringFieldExact(obj: Json, pad: Bytes, tail: Bytes, key: Bytes, required: bool)
    requires obj.Obj? && Wf(obj) && AllSpace(pad)
    ensures
      var r := Found(obj.members, key);
      StringField(pad + (Print(obj) + tail), key, required)
      == if r.None? then (if required then Refused(Missing) else Untouched)
         else
           var v := obj.members[r.value].item.value;
           if v.Str? && !HasLone(v.body) then Value(Denoted(v.body)) else Refused(Malformed)
  {
    hide Find;
    hide Token;
    hide Denoted;
    hide RestAfter;
    hide StringToken;
    hide Print;
    hide FirstMatch;
    FindExact(obj, pad, tail, key);
    var r := Found(obj.members, key);
    if r.Some? {
      FoundText(obj, pad, tail, key);
      var item := obj.members[r.value].item;
      StringFieldToken(item.value, item.after + RestAfter(obj.members, r.value, tail));
      if item.value.Str? {
        assert [] + Denoted(item.value.body) == Denoted(item.value.body);
      }
    }
  }

  lemma StringFieldToken(v: Json, tail: Bytes)
    requires Wf(v)
    ensures StringToken(Print(v) + tail)
         == if v.Str? && !HasLone(v.body) then Some(Piece(Denoted(v.body), |Print(v)|)) else None
  {
    PrintStart(v);
    if v.Str? {
      StringTokenRead(v.body, tail);
    } else {
      FirstByte(Print(v), tail);
    }
  }

  predicate AllDigits(t: Bytes) { forall i | 0 <= i < |t| :: IsDigit(t[i]) }

  lemma {:induction false} DigitRunOver(p: Bytes, t: Bytes)
    requires AllDigits(p)
    ensures DigitRun(p + t) == |p| + DigitRun(t)
  {
    if p == [] {
      assert p + t == t;
    } else {
      assert (p + t)[1..] == p[1..] + t;
      DigitRunOver(p[1..], t);
    }
  }

  /** The decimal number the first member with the key writes, if it writes one that fits 32 bits. */
  function UnsignedValue(v: Json): Option<nat> {
    if v.Scalar? && AllDigits(v.text) && Decimal(v.text) <= UINT32_MAX then Some(Decimal(v.text)) else None
  }

  /** An unsigned field is read exactly when the member found is a digit string within 32 bits. */
  lemma UnsignedFieldExact(obj: Json, pad: Bytes, tail: Bytes, key: Bytes, required: bool)
    requires obj.Obj? && Wf(obj) && AllSpace(pad)
    ensures
      var f := UnsignedField(pad + (Print(obj) + tail), key, required);
      var r := Found(obj.members, key);
      if r.None? then f == if required then Refused(Missing) else Untouched
      else
        var v := UnsignedValue(obj.members[r.value].item.value);
        if v.Some? then f == Value(v.value) else f.Refused?
  {
    FindExact(obj, pad, tail, key);
    var r := Found(obj.members, key);
    if r.Some? {
      FoundText(obj, pad, tail, key);
      var item := obj.members[r.value].item;
      UnsignedTokenExact(item.value, item.after, RestAfter(obj.members, r.value, tail));
    }
  }

  lemma UnsignedTokenExact(v: Json, after: Bytes, rest: Bytes)
    requires Wf(v) && AllSpace(after) && rest != [] && (rest[0] == COMMA || rest[0] == CLOSE_BRACE)
    ensures
      var f := UnsignedToken(Print(v) + (after + rest));
      if UnsignedValue(v).Some? then f == Value(UnsignedValue(v).value) else f.Refused?
  {
    var more := after + rest;
    var t := Print(v) + more;
    PrintStart(v);
    assert t[0] == Print(v)[0];
    if v.Scalar? {
      if AllDigits(v.text) {
        assert more[0] == if after == [] then rest[0] else after[0];
        DigitRunOver(v.text, more);
        assert t[..|v.text|] == v.text && t[|v.text|..] == more;
        TokenOver(after, rest);
      } else {
        DigitsStopInside(v.text, more);
      }
    }
  }

  /** A digit run that ends inside a scalar ends at a byte no field reader accepts. */
  lemma DigitsStopInside(text: Bytes, more: Bytes)
    requires !AllDigits(text) && forall i | 0 <= i < |text| :: IsScalarByte(text[i])
    ensures UnsignedToken(text + more).Refused?
  {
    var t := text + more;
    var n := DigitRun(t);
    var i :| 0 <= i < |text| && !IsDigit(text[i]);
    assert t[i] == text[i];
    assert n <= i;
    assert t[n..][0] == text[n];
    assert SpaceRun(t[n..]) == 0;
  }

  // ----- A member hidden by a lone surrogate

  /** The body `\ud800`. */
  const LONE_HIGH: Body := [Lone(['d' as int, '8' as int, '0' as int, '0' as int])]

  /** The object `{"a":"\ud800","b":1}`. */
  const HIDING: Json :=
    Obj([Member([], [Plain('a' as int)], [], Padded([], Str(LONE_HIGH), [])),
         Member([], [Plain('b' as int)], [], Padded([], Scalar(['1' as int]), []))], [])

  lemma HidingIsWellFormed()
    ensures Wf(HIDING) && FirstMatch(HIDING.members, ['b' as int]) == Some(1) && !ClearTo(HIDING.members, 1)
  {
    var ms := HIDING.members;
    assert LONE_HIGH[0].Lone? && HasLone(LONE_HIGH);
    assert Hex4(LONE_HIGH[0].hex) == Some(0xD800);
    assert WfBody(LONE_HIGH);
    assert WfMember(ms[0]) && WfMember(ms[1]);
    assert Denoted([Plain('a' as int)]) == ['a' as int] by { assert [Plain('a' as int)][1..] == []; }
    assert Denoted([Plain('b' as int)]) == ['b' as int] by { assert [Plain('b' as int)][1..] == []; }
    assert !KeyIs(ms[0], ['b' as int]) && KeyIs(ms[1], ['b' as int]);
    assert ms[1..][0] == ms[1];
    assert !Passable(ms[0]);
  }

  /** The text is grammatical and has a member `b`, but lookup reports that there is none. */
  lemma LoneSurrogateHidesMember()
    ensures Wf(HIDING) && FirstMatch(HIDING.members, ['b' as int]).Some?
    ensures Find(Print(HIDING), ['b' as int]) == None
  {
    HidingIsWellFormed();
    hide Find, Print, Wf, FirstMatch, ClearTo, ValueAt;
    FindExact(HIDING, [], [], ['b' as int]);
    assert [] + (Print(HIDING) + []) == Print(HIDING);
  }
}
