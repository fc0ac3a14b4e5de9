/** The ESEARCH responses a server prints (section 2.6.2 of RFC 4466): a tag
    correlator, the UID marker and any return values, and how the walk reads
    one whose literals have become empty strings
    (bridge/imapclient.go:1630-1725, 1774-1790). */
module SearchReturns {
  import opened Octets
  import opened Sequences
  import opened Wrappers
  import opened QuarantineLexis
  import opened SearchWire
  import opened SearchESearch
  import opened SearchPrinter

  // ---- The syntax and its text ----

  datatype SetItem = One(n: nat) | Range(a: nat, b: nat)

  /** A return value. The walk reads a literal as an empty string. */
  datatype Value =
    | Word(text: bytes)
    | Set(items: seq<SetItem>)
    | Quoted(raw: bytes)
    | Counted(payload: bytes)
    | Group(body: Values)

  datatype Values = Last(value: Value) | More(head: Value, tail: Values)

  datatype Return = Return(name: bytes, value: Value)

  datatype Extended = Extended(tag: Option<Value>, uid: bool, answers: seq<Return>)

  const TAG: bytes := [0x54, 0x41, 0x47]

  function ItemText(item: SetItem): bytes {
    match item
    case One(n) => Decimal(n)
    case Range(a, b) => Decimal(a) + [COLON] + Decimal(b)
  }

  function SetText(items: seq<SetItem>): bytes
    requires items != []
  {
    if |items| == 1 then ItemText(items[0]) else ItemText(items[0]) + [COMMA] + SetText(items[1..])
  }

  function ValueText(v: Value): bytes {
    match v
    case Word(text) => text
    case Set(items) => if items == [] then [] else SetText(items)
    case Quoted(raw) => [QUOTE] + raw + [QUOTE]
    case Counted(_) => [QUOTE, QUOTE]
    case Group(body) => [LPAREN] + ValuesText(body) + [RPAREN]
  }

  function ValuesText(vs: Values): bytes {
    match vs
    case Last(value) => ValueText(value)
    case More(head, tail) => ValueText(head) + [SP] + ValuesText(tail)
  }

  function TagText(tag: Option<Value>): bytes {
    if tag.None? then [] else [SP, LPAREN] + TAG + [SP] + ValueText(tag.value) + [RPAREN]
  }

  function ReturnsText(answers: seq<Return>): bytes {
    if answers == [] then []
    else [SP] + answers[0].name + ([SP] + ValueText(answers[0].value)) + ReturnsText(answers[1..])
  }

  /** The text after the ESEARCH name. */
  function ExtendedText(e: Extended): bytes {
    TagText(e.tag) + (if e.uid then [SP] + UID else []) + ReturnsText(e.answers)
  }

  predicate WfItem(item: SetItem) {
    match item
    case One(n) => n <= MAX_UINT32
    case Range(a, b) => a <= MAX_UINT32 && b <= MAX_UINT32
  }

  predicate WfValue(v: Value) {
    match v
    case Word(text) => Atom(text)
    case Set(items) => items != [] && forall i :: 0 <= i < |items| ==> WfItem(items[i])
    case Quoted(raw) => QuotedRaw(raw)
    case Counted(payload) => |payload| <= MAX_UINT32
    case Group(body) => WfValues(body)
  }

  predicate WfValues(vs: Values) {
    match vs
    case Last(value) => WfValue(value)
    case More(head, tail) => WfValue(head) && WfValues(tail)
  }

  /** The value of ALL is a set. */
  predicate WfReturn(r: Return) {
    Atom(r.name) && WfValue(r.value) && (FoldIs(r.name, ALL) ==> r.value.Set?)
  }

  /** Without the UID marker the first name is not itself UID. */
  predicate WfExtended(e: Extended) {
    && (e.tag.Some? ==> !e.tag.value.Group? && WfValue(e.tag.value))
    && (forall i :: 0 <= i < |e.answers| ==> WfReturn(e.answers[i]))
    && (!e.uid && e.answers != [] ==> e.answers[0].name != UID)
  }

  // ---- Scanning ----

  /** part stands in w at i. */
  predicate At(w: bytes, i: nat, part: bytes) {
    i + |part| <= |w| && w[i..i + |part|] == part
  }

  lemma AtSplit(w: bytes, i: nat, a: bytes, b: bytes)
    requires At(w, i, a + b)
    ensures At(w, i, a) && At(w, i + |a|, b)
  {
    assert w[i..i + |a + b|][..|a|] == a && w[i..i + |a + b|][|a|..] == b;
  }

  lemma AtStart(w: bytes, i: nat, b: byte, rest: bytes)
    requires At(w, i, [b] + rest)
    ensures i < |w| && w[i] == b && At(w, i + 1, rest)
  {
    AtSplit(w, i, [b], rest);
    assert w[i..i + 1][0] == b;
  }

  lemma AtHead(w: bytes, i: nat, part: bytes)
    requires part != [] && At(w, i, part)
    ensures i < |w| && w[i] == part[0] && At(w, i + 1, part[1..])
  {
    hide At;
    assert part == [part[0]] + part[1..];
    AtStart(w, i, part[0], part[1..]);
  }

  /** What a quoted text starts with: its end, an escape, or another octet. */
  lemma QuotedStart(w: bytes, i: nat, raw: bytes)
    requires QuotedRaw(raw) && At(w, i, raw + [QUOTE])
    ensures i < |w| && w[i] == (if raw == [] then QUOTE else raw[0])
    ensures raw != [] ==>
              var n := if raw[0] == BACKSLASH then 2 else 1;
              n <= |raw| && QuotedRaw(raw[n..]) && At(w, i + n, raw[n..] + [QUOTE])
    ensures raw != [] ==> raw[0] != QUOTE
  {
    hide At;
    var whole := raw + [QUOTE];
    AtHead(w, i, whole);
    if raw != [] {
      assert whole[1..] == raw[1..] + [QUOTE];
      if raw[0] == BACKSLASH {
        AtHead(w, i + 1, whole[1..]);
        assert whole[1..][1..] == raw[2..] + [QUOTE];
      }
    }
  }

  lemma {:induction false} QuotedScan(w: bytes, i: nat, raw: bytes, depth: int)
    requires QuotedRaw(raw) && At(w, i, raw + [QUOTE])
    ensures ValueEnd(w, i, depth, true) == if depth == 0 then Some(i + |raw| + 1) else ValueEnd(w, i + |raw| + 1, depth, false)
    decreases |raw|
  {
    hide QuotedRaw, At;
    QuotedStart(w, i, raw);
    if raw != [] {
      var n := if raw[0] == BACKSLASH then 2 else 1;
      QuotedScan(w, i + n, raw[n..], depth);
    }
  }

  lemma {:induction false} QuotedTag(w: bytes, i: nat, raw: bytes)
    requires QuotedRaw(raw) && At(w, i, raw + [QUOTE])
    ensures CorrelatorEnd(w, i, true) == CorrelatorEnd(w, i + |raw| + 1, false)
    decreases |raw|
  {
    hide QuotedRaw, At;
    QuotedStart(w, i, raw);
    if raw != [] {
      var n := if raw[0] == BACKSLASH then 2 else 1;
      QuotedTag(w, i + n, raw[n..]);
    }
  }

  /** No quote and no parenthesis. */
  predicate Flat(text: bytes) {
    forall k :: 0 <= k < |text| ==> text[k] != QUOTE && text[k] != LPAREN && text[k] != RPAREN
  }

  lemma {:induction false} FlatScan(w: bytes, i: nat, text: bytes, depth: int)
    requires Flat(text) && At(w, i, text)
    ensures ValueEnd(w, i, depth, false) == ValueEnd(w, i + |text|, depth, false)
    decreases |text|
  {
    if text != [] {
      assert text == [text[0]] + text[1..];
      AtStart(w, i, text[0], text[1..]);
      FlatScan(w, i + 1, text[1..], depth);
    }
  }

  lemma {:induction false} FlatTag(w: bytes, i: nat, text: bytes)
    requires Flat(text) && At(w, i, text)
    ensures CorrelatorEnd(w, i, false) == CorrelatorEnd(w, i + |text|, false)
    decreases |text|
  {
    if text != [] {
      assert text == [text[0]] + text[1..];
      AtStart(w, i, text[0], text[1..]);
      FlatTag(w, i + 1, text[1..]);
    }
  }

  lemma {:induction false} SetWord(items: seq<SetItem>)
    requires items != []
    ensures Atom(SetText(items))
    decreases |items|
  {
    hide Decimal;
    if |items| > 1 {
      SetWord(items[1..]);
    }
  }

  /** A value of one word is an atom. */
  lemma OneWord(v: Value)
    requires WfValue(v) && (v.Word? || v.Set?)
    ensures Atom(ValueText(v)) && Flat(ValueText(v))
  {
    hide SetText;
    if v.Set? {
      SetWord(v.items);
    }
  }

  /** Inside a list a value is passed over whole. */
  lemma {:induction false} ValueScan(w: bytes, i: nat, v: Value, depth: int)
    requires WfValue(v) && At(w, i, ValueText(v)) && depth > 0
    ensures ValueEnd(w, i, depth, false) == ValueEnd(w, i + |ValueText(v)|, depth, false)
    decreases v, 0
  {
    hide SetText, WfItem, At;
    match v
    case Quoted(raw) =>
      QuoteFirst(w, i, raw);
      QuotedScan(w, i + 1, raw, depth);
    case Counted(_) =>
      QuoteFirst(w, i, []);
      QuotedScan(w, i + 1, [], depth);
    case Group(body) =>
      GroupScan(w, i, body, depth);
    case _ =>
      OneWord(v);
      FlatScan(w, i, ValueText(v), depth);
  }

  lemma QuoteFirst(w: bytes, i: nat, raw: bytes)
    requires At(w, i, [QUOTE] + raw + [QUOTE]) || (raw == [] && At(w, i, [QUOTE, QUOTE]))
    ensures i < |w| && w[i] == QUOTE && At(w, i + 1, raw + [QUOTE])
    ensures raw == [] ==> QuotedRaw(raw)
  {
    assert [QUOTE] + raw + [QUOTE] == [QUOTE] + (raw + [QUOTE]);
    assert [QUOTE, QUOTE] == [QUOTE] + ([] + [QUOTE]);
    AtStart(w, i, QUOTE, raw + [QUOTE]);
  }

  /** Inside the correlator a value that is no list is passed over whole. */
  lemma TagScan(w: bytes, i: nat, v: Value)
    requires WfValue(v) && At(w, i, ValueText(v)) && !v.Group?
    ensures CorrelatorEnd(w, i, false) == CorrelatorEnd(w, i + |ValueText(v)|, false)
  {
    hide SetText, WfItem, At;
    match v
    case Quoted(raw) =>
      QuoteFirst(w, i, raw);
      QuotedTag(w, i + 1, raw);
    case Counted(_) =>
      QuoteFirst(w, i, []);
      QuotedTag(w, i + 1, []);
    case _ =>
      OneWord(v);
      FlatTag(w, i, ValueText(v));
  }

  lemma GroupAt(w: bytes, i: nat, body: Values)
    requires At(w, i, ValueText(Group(body)))
    ensures i < |w| && w[i] == LPAREN && At(w, i + 1, ValuesText(body))
    ensures var k := i + 1 + |ValuesText(body)|; k < |w| && w[k] == RPAREN && k + 1 == i + |ValueText(Group(body))|
  {
    hide At;
    var text := ValuesText(body);
    assert ValueText(Group(body)) == [LPAREN] + (text + [RPAREN]);
    AtStart(w, i, LPAREN, text + [RPAREN]);
    AtSplit(w, i + 1, text, [RPAREN]);
    AtHead(w, i + 1 + |text|, [RPAREN]);
  }

  lemma {:induction false} GroupScan(w: bytes, i: nat, body: Values, depth: int)
    requires WfValues(body) && At(w, i, ValueText(Group(body))) && depth >= 0
    ensures var end := i + |ValueText(Group(body))|;
            ValueEnd(w, i, depth, false) == if depth == 0 then Some(end) else ValueEnd(w, end, depth, false)
    decreases body, 2
  {
    hide At, ValueText, ValuesText;
    GroupAt(w, i, body);
    ValuesScan(w, i + 1, body, depth + 1);
  }

  lemma {:induction false} ValuesScan(w: bytes, i: nat, vs: Values, depth: int)
    requires WfValues(vs) && At(w, i, ValuesText(vs)) && depth > 0
    ensures ValueEnd(w, i, depth, false) == ValueEnd(w, i + |ValuesText(vs)|, depth, false)
    decreases vs, 1
  {
    hide ValueEnd, SetText, WfItem, Atom, At;
    match vs
    case Last(value) => ValueScan(w, i, value, depth);
    case More(head, tail) =>
      var first := ValueText(head);
      assert ValuesText(vs) == first + ([SP] + ValuesText(tail));
      AtSplit(w, i, first, [SP] + ValuesText(tail));
      AtStart(w, i + |first|, SP, ValuesText(tail));
      ValueScan(w, i, head, depth);
      SpaceScan(w, i + |first|, depth);
      ValuesScan(w, i + |first| + 1, tail, depth);
  }

  lemma SpaceScan(w: bytes, i: nat, depth: int)
    requires i < |w| && w[i] == SP
    ensures ValueEnd(w, i, depth, false) == ValueEnd(w, i + 1, depth, false)
  {
  }

  // ---- One return ----

  lemma Before(a: bytes, rest: bytes)
    ensures At(a + rest, 0, a) && (a + rest)[..|a|] == a && (a + rest)[|a|..] == rest
  {
  }

  /** The walk splits a value from what follows it. */
  lemma ValueReads(v: Value, rest: bytes)
    requires WfValue(v) && (rest != [] ==> rest[0] == SP)
    ensures SearchESearch.Value(ValueText(v) + rest) == (ValueText(v), rest) && ValueText(v) != []
  {
    hide SetText, WfItem, SpanAtom, ValueEnd;
    var text := ValueText(v);
    var w := text + rest;
    Before(text, rest);
    match v
    case Quoted(raw) => QuotedReads(w, raw);
    case Counted(_) => QuotedReads(w, []);
    case Group(body) => GroupScan(w, 0, body, 0);
    case _ =>
      OneWord(v);
      SpanWord(text, rest);
  }

  lemma QuotedReads(w: bytes, raw: bytes)
    requires QuotedRaw(raw) && At(w, 0, [QUOTE] + raw + [QUOTE])
    ensures ValueEnd(w, 0, 0, false) == Some(|raw| + 2) && w[0] == QUOTE
  {
    hide At, QuotedRaw, ValueEnd;
    QuoteFirst(w, 0, raw);
    QuoteOpens(w, 0, 0);
    QuotedScan(w, 1, raw, 0);
  }

  lemma QuoteOpens(w: bytes, i: nat, depth: int)
    requires i < |w| && w[i] == QUOTE
    ensures ValueEnd(w, i, depth, false) == ValueEnd(w, i + 1, depth, true)
  {
  }

  function Printed(answers: seq<Return>): (r: seq<Pair>)
    ensures |r| == |answers| && forall i :: 0 <= i < |r| ==> r[i] == Pair(answers[i].name, ValueText(answers[i].value))
  {
    if answers == [] then [] else [Pair(answers[0].name, ValueText(answers[0].value))] + Printed(answers[1..])
  }

  /** The first name, and the text after it. */
  function FirstName(answers: seq<Return>): (bytes, bytes) {
    if answers == [] then ([], [])
    else (answers[0].name, [SP] + ValueText(answers[0].value) + ReturnsText(answers[1..]))
  }

  lemma ReturnsParts(answers: seq<Return>)
    requires answers != []
    ensures ReturnsText(answers) == [SP] + (FirstName(answers).0 + FirstName(answers).1)
  {
    hide ValueText;
    var name, text, later := answers[0].name, [SP] + ValueText(answers[0].value), ReturnsText(answers[1..]);
    Assoc([SP] + name, text, later);
    Assoc([SP], name, text + later);
  }

  lemma FirstNameIs(answers: seq<Return>)
    requires forall i :: 0 <= i < |answers| ==> WfReturn(answers[i])
    ensures SpanAtom(TrimPrefix(ReturnsText(answers), SP)) == FirstName(answers)
    ensures answers != [] ==> ReturnsText(answers) == [SP] + TrimPrefix(ReturnsText(answers), SP)
  {
    hide WfValue, ValueText, ReturnsText, SpanAtom, WireAtomChar, FoldIs;
    if answers != [] {
      var (name, rest) := FirstName(answers);
      ReturnsParts(answers);
      FirstIsAtom(answers);
      assert TrimPrefix([SP] + (name + rest), SP) == name + rest;
      SpanWord(name, rest);
    } else {
      NoReturns();
    }
  }

  lemma FirstIsAtom(answers: seq<Return>)
    requires answers != [] && WfReturn(answers[0])
    ensures var (name, rest) := FirstName(answers);
            && (forall i :: 0 <= i < |name| ==> WireAtomChar(name[i]))
            && rest != [] && rest[0] == SP && !WireAtomChar(rest[0])
  {
    hide WfValue, ValueText, ReturnsText, FoldIs;
  }

  /** The walk finds exactly the printed answers. */
  lemma {:induction false} PairsRead(answers: seq<Return>)
    requires forall i :: 0 <= i < |answers| ==> WfReturn(answers[i])
    ensures Pairs(FirstName(answers).0, FirstName(answers).1) == Some(Printed(answers))
    decreases |answers|
  {
    hide WfValue, ValueText, SpanAtom, SearchESearch.Value, ReturnsText, FoldIs;
    if answers != [] {
      var tail := answers[1..];
      var text, after := ValueText(answers[0].value), ReturnsText(tail);
      var rest := FirstName(answers).1;
      assert rest == [SP] + (text + after) && rest[1..] == text + after;
      FirstNameIs(tail);
      ValueReads(answers[0].value, after);
      PairsRead(tail);
      if tail == [] {
        NoReturns();
        assert Printed(answers) == [Pair(answers[0].name, text)];
      } else {
        assert after[1..] == TrimPrefix(after, SP);
        assert Printed(answers) == [Pair(answers[0].name, text)] + Printed(tail);
      }
    }
  }

  // ---- One response ----

  predicate Graphic(b: byte) {
    SP < b < DEL
  }

  /** The text starts and ends with a printable ASCII character. */
  predicate Framed(s: bytes) {
    s != [] && Graphic(s[0]) && Graphic(s[|s| - 1])
  }

  lemma FramedConcat(a: bytes, b: bytes)
    requires Framed(a) && Framed(b)
    ensures Framed(a + b) && Framed(a + [SP] + b)
  {
  }

  lemma NotTrimmed(s: bytes)
    requires Framed(s)
    ensures TrimRight(s) == s && TrimRight(TrimLeft(s)) == s && TrimRight(TrimLeft([SP] + s)) == s
  {
    assert SpaceBefore(s) == 0 && SpaceAt(s) == 0;
    assert ([SP] + s)[1..] == s;
  }

  lemma ValueFramed(v: Value)
    requires WfValue(v)
    ensures Framed(ValueText(v))
  {
    hide SetText, WfItem, ValuesText;
    if v.Word? || v.Set? {
      OneWord(v);
    }
  }

  lemma ReturnFramed(r: Return)
    requires WfReturn(r)
    ensures Framed(r.name + [SP] + ValueText(r.value))
  {
    hide WfValue, ValueText, FoldIs;
    ValueFramed(r.value);
    assert AtomChar(r.name[0]) && AtomChar(r.name[|r.name| - 1]);
    FramedConcat(r.name, ValueText(r.value));
  }

  lemma {:induction false} ReturnsFramed(answers: seq<Return>)
    requires answers != [] && forall i :: 0 <= i < |answers| ==> WfReturn(answers[i])
    ensures ReturnsText(answers) != [] && ReturnsText(answers)[0] == SP && Framed(ReturnsText(answers)[1..])
    decreases |answers|
  {
    hide WfReturn, ValueText, ReturnsText, Framed;
    var r := answers[0];
    var first, later := r.name + [SP] + ValueText(r.value), ReturnsText(answers[1..]);
    ReturnFramed(r);
    ReturnsParts(answers);
    assert FirstName(answers).0 + FirstName(answers).1 == first + later by {
      assert FirstName(answers).1 == [SP] + ValueText(r.value) + later;
    }
    assert ReturnsText(answers)[1..] == first + later;
    if |answers| > 1 {
      ReturnsFramed(answers[1..]);
      assert later == [SP] + later[1..];
      FramedConcat(first, later[1..]);
      assert first + later == first + [SP] + later[1..];
    } else {
      NoReturns();
      assert answers[1..] == [] && first + [] == first;
    }
  }

  /** The text after the correlator. */
  function Marked(e: Extended): bytes {
    (if e.uid then [SP] + UID else []) + ReturnsText(e.answers)
  }

  lemma MarkedFramed(e: Extended)
    requires WfExtended(e) && Marked(e) != []
    ensures |Marked(e)| > 1 && Marked(e)[0] == SP && Framed(Marked(e)[1..]) && Marked(e)[1] != LPAREN
  {
    hide WfReturn, ReturnsText;
    if e.answers != [] {
      ReturnsFramed(e.answers);
      FirstChar(e.answers);
      var later := ReturnsText(e.answers);
      assert later == [SP] + later[1..];
      if e.uid {
        FramedConcat(UID, later[1..]);
        assert Marked(e) == [SP] + (UID + [SP] + later[1..]);
      } else {
        assert Marked(e) == later;
      }
    } else {
      NoReturns();
      assert Marked(e) == [SP] + UID;
    }
  }

  lemma NoReturns()
    ensures ReturnsText([]) == []
  {
  }

  lemma FirstChar(answers: seq<Return>)
    requires answers != [] && WfReturn(answers[0])
    ensures |ReturnsText(answers)| > 1 && ReturnsText(answers)[1] != LPAREN
  {
    hide WfValue, ValueText;
    assert AtomChar(answers[0].name[0]);
    assert ReturnsText(answers)[1] == answers[0].name[0];
  }

  /** The name the walk starts with, given the text after the correlator. */
  lemma StartReads(e: Extended)
    requires WfExtended(e)
    ensures var named := SpanAtom(TrimPrefix(Marked(e), SP));
            (if named.0 == UID then SpanAtom(TrimPrefix(named.1, SP)) else named) == FirstName(e.answers)
  {
    hide WfReturn, ReturnsText, FirstName, SpanAtom;
    FirstNameIs(e.answers);
    var later := ReturnsText(e.answers);
    if e.uid {
      if e.answers == [] {
        NoReturns();
      } else {
        ReturnsFramed(e.answers);
      }
      assert TrimPrefix(Marked(e), SP) == UID + later;
      SpanWord(UID, later);
    } else {
      assert Marked(e) == later;
      NamedFirst(e);
    }
  }

  lemma NamedFirst(e: Extended)
    requires WfExtended(e) && !e.uid
    ensures FirstName(e.answers).0 != UID
  {
    hide WfReturn, ReturnsText;
  }

  /** The closing parenthesis of a printed correlator. */
  lemma TagEnds(v: Value, rest: bytes)
    requires !v.Group? && WfValue(v)
    ensures var tag := [LPAREN] + TAG + [SP] + ValueText(v) + [RPAREN];
            CorrelatorEnd(tag + rest, 1, false) == Some(|tag| - 1)
  {
    hide ValueText, WfValue, At, CorrelatorEnd;
    var text := ValueText(v);
    var tag := [LPAREN] + TAG + [SP] + text + [RPAREN];
    var w, k := tag + rest, 5 + |text|;
    Before(tag, rest);
    TagParts(w, text);
    FlatTag(w, 1, TAG + [SP]);
    TagScan(w, 5, v);
    TagCloses(w, k);
  }

  lemma TagParts(w: bytes, text: bytes)
    requires At(w, 0, [LPAREN] + TAG + [SP] + text + [RPAREN])
    ensures At(w, 1, TAG + [SP]) && At(w, 5, text) && 5 + |text| < |w| && w[5 + |text|] == RPAREN
    ensures Flat(TAG + [SP]) && |TAG + [SP]| == 4
  {
    hide At;
    var name, end := TAG + [SP], text + [RPAREN];
    assert [LPAREN] + TAG + [SP] + text + [RPAREN] == [LPAREN] + (name + end);
    AtSplit(w, 0, [LPAREN], name + end);
    AtSplit(w, 1, name, end);
    AtSplit(w, 5, text, [RPAREN]);
    AtHead(w, 5 + |text|, [RPAREN]);
  }

  lemma TagCloses(w: bytes, k: nat)
    requires k < |w| && w[k] == RPAREN
    ensures CorrelatorEnd(w, k, false) == Some(k)
  {
  }

  /** The walk starts at the first return, past the correlator and the marker. */
  lemma BeginningIs(e: Extended)
    requires WfExtended(e)
    ensures Beginning(ExtendedText(e)) == Some(FirstName(e.answers))
  {
    hide WfExtended, ExtendedText, FirstName, SpanAtom, CorrelatorEnd, TrimLeft, TrimRight, TrimPrefix, Marked;
    StartReads(e);
    if e.tag.Some? {
      TaggedText(e);
    } else {
      UntaggedText(e);
    }
  }

  lemma UntaggedIs(e: Extended)
    requires e.tag.None?
    ensures ExtendedText(e) == Marked(e)
  {
    hide ReturnsText;
    var uid := if e.uid then [SP] + UID else [];
    assert TagText(e.tag) + uid == uid;
  }

  lemma MarkTrimmed(t: bytes)
    requires t != [] ==> t[0] == SP && Framed(t[1..])
    ensures TrimRight(TrimLeft(t)) == TrimPrefix(t, SP)
  {
    hide Framed, TrimLeft, TrimRight;
    if t == [] {
      NoneTrimmed();
    } else {
      NotTrimmed(t[1..]);
      assert t == [SP] + t[1..];
    }
  }

  lemma NoneTrimmed()
    ensures TrimRight(TrimLeft([])) == []
  {
  }

  lemma UntaggedText(e: Extended)
    requires WfExtended(e) && e.tag.None?
    ensures var rest := TrimRight(TrimLeft(ExtendedText(e)));
            rest == TrimPrefix(Marked(e), SP) && (rest != [] ==> rest[0] != LPAREN)
  {
    hide WfExtended, ExtendedText, Marked, Framed, TrimLeft, TrimRight;
    UntaggedIs(e);
    if Marked(e) != [] {
      MarkedFramed(e);
    }
    MarkTrimmed(Marked(e));
  }

  lemma TaggedText(e: Extended)
    requires WfExtended(e) && e.tag.Some?
    ensures var rest := TrimRight(TrimLeft(ExtendedText(e)));
            && rest != [] && rest[0] == LPAREN
            && CorrelatorEnd(rest, 1, false).Some?
            && rest[CorrelatorEnd(rest, 1, false).value + 1..] == Marked(e)
  {
    hide WfReturn, ReturnsText, ValueText, WfValue, CorrelatorEnd, TrimLeft, TrimRight, Marked, Graphic;
    var tag := [LPAREN] + TAG + [SP] + ValueText(e.tag.value) + [RPAREN];
    var whole := tag + Marked(e);
    assert ExtendedText(e) == [SP] + whole by { TextParts(e, tag); }
    TagEnds(e.tag.value, Marked(e));
    Before(tag, Marked(e));
    TagFramed(tag, e);
    NotTrimmed(whole);
  }

  lemma TextParts(e: Extended, tag: bytes)
    requires e.tag.Some? && tag == [LPAREN] + TAG + [SP] + ValueText(e.tag.value) + [RPAREN]
    ensures ExtendedText(e) == [SP] + (tag + Marked(e))
  {
    hide ValueText, ReturnsText;
    assert TagText(e.tag) == [SP] + tag;
  }

  lemma TagFramed(tag: bytes, e: Extended)
    requires WfExtended(e) && |tag| > 1 && tag[0] == LPAREN && tag[|tag| - 1] == RPAREN
    ensures Framed(tag + Marked(e))
  {
    hide WfReturn, ReturnsText, Marked;
    if Marked(e) == [] {
      assert tag + Marked(e) == tag;
    } else {
      MarkedFramed(e);
      FramedConcat(tag, Marked(e)[1..]);
      assert tag + Marked(e) == tag + [SP] + Marked(e)[1..];
    }
  }

  // ---- The sets ----

  function Span(item: SetItem): Interval {
    match item
    case One(n) => Interval(n, n)
    case Range(a, b) => if b < a then Interval(b, a) else Interval(a, b)
  }

  function Spans(items: seq<SetItem>): (r: seq<Interval>)
    ensures |r| == |items|
  {
    if items == [] then [] else [Span(items[0])] + Spans(items[1..])
  }

  lemma ItemReads(item: SetItem)
    requires WfItem(item)
    ensures ParseInterval(ItemText(item)) == Some(Span(item)) && COMMA !in ItemText(item)
  {
    hide Decimal, ParseUint, Cut;
    match item
    case One(n) =>
      ParseDecimal(n);
      CutAt(Decimal(n), [], COLON);
    case Range(a, b) =>
      ParseDecimal(a);
      ParseDecimal(b);
      CutAt(Decimal(a), Decimal(b), COLON);
  }

  lemma {:induction false} SetReads(items: seq<SetItem>)
    requires items != [] && forall i :: 0 <= i < |items| ==> WfItem(items[i])
    ensures ItemsParse(Split(SetText(items), COMMA)) && Intervals(Split(SetText(items), COMMA)) == Spans(items)
    decreases |items|
  {
    hide ItemText, ParseInterval, WfItem, Span, Cut;
    var first := ItemText(items[0]);
    ItemReads(items[0]);
    if |items| == 1 {
      CutAt(first, [], COMMA);
      var split: seq<bytes> := [first];
      assert Split(SetText(items), COMMA) == split && |split[1..]| == 0 && |items[1..]| == 0;
    } else {
      var later := SetText(items[1..]);
      CutAt(first, later, COMMA);
      SetReads(items[1..]);
      var split := Split(SetText(items), COMMA);
      assert split == [first] + Split(later, COMMA) && split[1..] == Split(later, COMMA);
    }
  }

  /** The intervals of the printed ALL sets, in order. */
  function AllSpans(answers: seq<Return>): seq<Interval> {
    if answers == [] then []
    else (if FoldIs(answers[0].name, ALL) && answers[0].value.Set? then Spans(answers[0].value.items) else []) + AllSpans(answers[1..])
  }

  /** No printed ALL set names a number twice. */
  ghost predicate SetsOnce(answers: seq<Return>) {
    forall i :: 0 <= i < |answers| && FoldIs(answers[i].name, ALL) && answers[i].value.Set? ==> !Overlapping(Spans(answers[i].value.items))
  }

  ghost predicate SetOnce(r: Return) {
    FoldIs(r.name, ALL) && r.value.Set? ==> !Overlapping(Spans(r.value.items))
  }

  lemma ReturnReads(r: Return)
    requires WfReturn(r)
    ensures var p := Pair(r.name, ValueText(r.value));
            && (CleanPair(p) <==> SetOnce(r))
            && (SetOnce(r) ==> SetIntervals(p) == if FoldIs(r.name, ALL) then Spans(r.value.items) else [])
  {
    hide FoldIs, Overlapping, SetText, ItemsParse, Split, Spans;
    if r.value.Set? {
      SetReads(r.value.items);
    }
  }

  lemma {:induction false} ReturnsRead(answers: seq<Return>)
    requires forall i :: 0 <= i < |answers| ==> WfReturn(answers[i])
    ensures CleanPairs(Printed(answers)) <==> SetsOnce(answers)
    ensures SetsOnce(answers) ==> AllIntervals(Printed(answers)) == AllSpans(answers)
    decreases |answers|
  {
    hide WfReturn, CleanPair, SetIntervals, ValueText, FoldIs, Overlapping, Spans;
    if answers != [] {
      ReturnReads(answers[0]);
      ReturnsRead(answers[1..]);
      SetsCons(answers);
      Cons(Pair(answers[0].name, ValueText(answers[0].value)), Printed(answers[1..]));
      SetOfAll(answers[0]);
    }
  }

  lemma SetOfAll(r: Return)
    ensures WfReturn(r) && FoldIs(r.name, ALL) ==> r.value.Set?
  {
  }

  lemma SetsCons(answers: seq<Return>)
    requires answers != []
    ensures SetsOnce(answers) <==> SetOnce(answers[0]) && SetsOnce(answers[1..])
  {
    hide FoldIs, Overlapping, Spans;
    assert forall i :: 0 < i < |answers| ==> answers[i] == answers[1..][i - 1];
    assert forall i :: 0 <= i < |answers| - 1 ==> answers[1..][i] == answers[i + 1];
  }

  /** Whatever a server prints in one ESEARCH response, the walk accepts it
      exactly when no ALL set of it names a number twice, and then shows the
      observer exactly the printed intervals of its ALL sets. */
  lemma ExtendedReads(e: Extended)
    requires WfExtended(e)
    ensures CleanLine(ExtendedText(e)) <==> SetsOnce(e.answers)
    ensures SetsOnce(e.answers) ==> LineIntervals(ExtendedText(e)) == AllSpans(e.answers)
  {
    hide Beginning, ExtendedText, Pairs, CleanPairs, AllIntervals, FirstName, WfReturn, SetsOnce, AllSpans;
    BeginningIs(e);
    PairsRead(e.answers);
    ReturnsRead(e.answers);
  }
}
