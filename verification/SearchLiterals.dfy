/** A response with literals: its octets on the wire, the one text the observer
    judges in the end, and that none of its parts opens a quoted string or a
    literal of its own (bridge/imapclient.go:1426-1502, 1796-1831). */
module SearchLiterals {
  import opened Octets
  import opened Sequences
  import opened Wrappers
  import opened QuarantineLexis
  import opened SearchWire
  import opened SearchESearch
  import opened SearchObserver
  import opened SearchPrinter
  import opened SearchReturns

  // ---- Literals on the wire ----

  datatype Token = Text(text: bytes) | Lit(payload: bytes)

  function Declared(size: nat): bytes {
    [LBRACE] + Decimal(size) + [RBRACE]
  }

  function Wire(tokens: seq<Token>): bytes {
    if tokens == [] then []
    else
      (match tokens[0]
       case Text(text) => text
       case Lit(payload) => Declared(|payload|) + CRLF + payload) + Wire(tokens[1..])
  }

  const EMPTY_STRING: bytes := [QUOTE, QUOTE]

  /** The text with an empty string for every literal. */
  function Joined(tokens: seq<Token>): bytes {
    if tokens == [] then [] else (if tokens[0].Text? then tokens[0].text else EMPTY_STRING) + Joined(tokens[1..])
  }

  function ValueTokens(v: Value): seq<Token> {
    match v
    case Counted(payload) => [Lit(payload)]
    case Group(body) => [Text([LPAREN])] + ValuesTokens(body) + [Text([RPAREN])]
    case _ => [Text(ValueText(v))]
  }

  function ValuesTokens(vs: Values): seq<Token> {
    match vs
    case Last(value) => ValueTokens(value)
    case More(head, tail) => ValueTokens(head) + [Text([SP])] + ValuesTokens(tail)
  }

  function TagTokens(tag: Option<Value>): seq<Token> {
    if tag.None? then [] else [Text([SP, LPAREN] + TAG + [SP])] + ValueTokens(tag.value) + [Text([RPAREN])]
  }

  function ReturnsTokens(answers: seq<Return>): seq<Token> {
    if answers == [] then []
    else [Text([SP] + answers[0].name + [SP])] + ValueTokens(answers[0].value) + ReturnsTokens(answers[1..])
  }

  function ExtendedTokens(e: Extended): seq<Token> {
    TagTokens(e.tag) + (if e.uid then [Text([SP] + UID)] else []) + ReturnsTokens(e.answers)
  }

  lemma {:induction false} JoinedConcat(a: seq<Token>, b: seq<Token>)
    ensures Joined(a + b) == Joined(a) + Joined(b)
    decreases |a|
  {
    if a == [] {
      assert a + b == b;
    } else {
      assert (a + b)[0] == a[0] && (a + b)[1..] == a[1..] + b;
      JoinedConcat(a[1..], b);
      Assoc(if a[0].Text? then a[0].text else EMPTY_STRING, Joined(a[1..]), Joined(b));
    }
  }

  lemma JoinedOne(t: Token)
    ensures Joined([t]) == if t.Text? then t.text else EMPTY_STRING
  {
    assert [t][1..] == [];
  }

  lemma {:induction false} ValueJoined(v: Value)
    ensures Joined(ValueTokens(v)) == ValueText(v)
    decreases v, 0
  {
    hide Joined, SetText;
    match v
    case Counted(payload) => JoinedOne(Lit(payload));
    case Group(body) =>
      JoinedConcat([Text([LPAREN])] + ValuesTokens(body), [Text([RPAREN])]);
      JoinedConcat([Text([LPAREN])], ValuesTokens(body));
      JoinedOne(Text([LPAREN]));
      JoinedOne(Text([RPAREN]));
      ValuesJoined(body);
    case _ => JoinedOne(Text(ValueText(v)));
  }

  lemma {:induction false} ValuesJoined(vs: Values)
    ensures Joined(ValuesTokens(vs)) == ValuesText(vs)
    decreases vs, 1
  {
    hide Joined, ValueText;
    match vs
    case Last(value) => ValueJoined(value);
    case More(head, tail) =>
      JoinedConcat(ValueTokens(head) + [Text([SP])], ValuesTokens(tail));
      JoinedConcat(ValueTokens(head), [Text([SP])]);
      JoinedOne(Text([SP]));
      ValueJoined(head);
      ValuesJoined(tail);
  }

  lemma {:induction false} ReturnsJoined(answers: seq<Return>)
    ensures Joined(ReturnsTokens(answers)) == ReturnsText(answers)
    decreases |answers|
  {
    hide Joined, ValueText, ValueTokens;
    if answers == [] {
      NothingJoined();
    } else {
      var first := Text([SP] + answers[0].name + [SP]);
      var value, later := answers[0].value, answers[1..];
      JoinedConcat([first] + ValueTokens(value), ReturnsTokens(later));
      JoinedConcat([first], ValueTokens(value));
      JoinedOne(first);
      ValueJoined(value);
      ReturnsJoined(later);
      Assoc([SP] + answers[0].name, [SP], ValueText(value));
    }
  }

  lemma NothingJoined()
    ensures Joined([]) == []
  {
  }

  lemma TagJoined(tag: Option<Value>)
    ensures Joined(TagTokens(tag)) == TagText(tag)
  {
    hide Joined, ValueText, ValueTokens;
    NothingJoined();
    if tag.Some? {
      var first := Text([SP, LPAREN] + TAG + [SP]);
      JoinedConcat([first] + ValueTokens(tag.value), [Text([RPAREN])]);
      JoinedConcat([first], ValueTokens(tag.value));
      JoinedOne(first);
      JoinedOne(Text([RPAREN]));
      ValueJoined(tag.value);
    }
  }

  lemma ExtendedJoined(e: Extended)
    ensures Joined(ExtendedTokens(e)) == ExtendedText(e)
  {
    hide Joined, TagTokens, TagText, ReturnsTokens, ReturnsText;
    var marker := if e.uid then [Text([SP] + UID)] else [];
    JoinedConcat(TagTokens(e.tag) + marker, ReturnsTokens(e.answers));
    JoinedConcat(TagTokens(e.tag), marker);
    TagJoined(e.tag);
    ReturnsJoined(e.answers);
    NothingJoined();
    JoinedOne(Text([SP] + UID));
  }

  // ---- Text without an open quote or a brace ----

  predicate Calm(text: bytes) {
    CR !in text && LF !in text && Braces(text, 0, false, None) == (false, None)
  }

  predicate CalmToken(t: Token) {
    match t
    case Text(text) => Calm(text)
    case Lit(payload) => |payload| <= MAX_UINT32
  }

  predicate CalmTokens(tokens: seq<Token>) {
    forall i :: 0 <= i < |tokens| ==> CalmToken(tokens[i])
  }

  /** A scan that ends unquoted goes on from there in a longer line. */
  lemma {:induction false} BracesAppend(a: bytes, b: bytes, index: nat, quoted: bool)
    requires index <= |a| && Braces(a, index, quoted, None) == (false, None)
    ensures Braces(a + b, index, quoted, None) == Braces(a + b, |a|, false, None)
    decreases |a| - index
  {
    if index < |a| {
      assert (a + b)[index] == a[index];
      if quoted && a[index] == BACKSLASH {
        BracesAppend(a, b, index + 2, quoted);
      } else if a[index] == QUOTE {
        BracesAppend(a, b, index + 1, !quoted);
      } else {
        BracesAppend(a, b, index + 1, quoted);
      }
    }
  }

  /** A scan does not depend on what stands before it. */
  lemma {:induction false} BracesShift(a: bytes, b: bytes, index: nat, quoted: bool)
    requires Braces(b, index, quoted, None) == (false, None)
    ensures Braces(a + b, |a| + index, quoted, None) == (false, None)
    decreases if index < |b| then |b| - index else 0
  {
    if index < |b| {
      assert (a + b)[|a| + index] == b[index];
      if quoted && b[index] == BACKSLASH {
        BracesShift(a, b, index + 2, quoted);
      } else if b[index] == QUOTE {
        BracesShift(a, b, index + 1, !quoted);
      } else {
        BracesShift(a, b, index + 1, quoted);
      }
    }
  }

  lemma CalmConcat(a: bytes, b: bytes)
    requires Calm(a) && Calm(b)
    ensures Calm(a + b)
  {
    BracesAppend(a, b, 0, false);
    BracesShift(a, b, 0, false);
  }

  lemma CalmPlain(text: bytes)
    requires forall i :: 0 <= i < |text| ==> text[i] !in {QUOTE, LBRACE, CR, LF}
    ensures Calm(text)
  {
    PlainBraces(text, 0, None);
  }

  lemma {:induction false} RawBraces(w: bytes, i: nat, raw: bytes)
    requires QuotedRaw(raw) && At(w, i, raw + [QUOTE])
    ensures Braces(w, i, true, None) == Braces(w, i + |raw| + 1, false, None)
    decreases |raw|
  {
    hide QuotedRaw, At;
    QuotedStart(w, i, raw);
    if raw != [] {
      var n := if raw[0] == BACKSLASH then 2 else 1;
      RawBraces(w, i + n, raw[n..]);
    }
  }

  lemma {:induction false} RawUnbroken(raw: bytes)
    requires QuotedRaw(raw)
    ensures CR !in raw && LF !in raw
    decreases |raw|
  {
    if raw != [] {
      RawUnbroken(raw[if raw[0] == BACKSLASH then 2 else 1..]);
    }
  }

  lemma CalmQuoted(raw: bytes)
    requires QuotedRaw(raw)
    ensures Calm([QUOTE] + raw + [QUOTE])
  {
    hide QuotedRaw, At;
    var w := [QUOTE] + raw + [QUOTE];
    RawUnbroken(raw);
    assert w[0] == QUOTE;
    QuotedWhole(raw);
    QuoteFirst(w, 0, raw);
    RawBraces(w, 1, raw);
  }

  lemma QuotedWhole(raw: bytes)
    ensures At([QUOTE] + raw + [QUOTE], 0, [QUOTE] + raw + [QUOTE])
  {
  }

  lemma CalmWord(text: bytes)
    requires Atom(text)
    ensures Calm(text)
  {
    CalmPlain(text);
  }

  lemma CalmParts(a: seq<Token>, b: seq<Token>)
    requires CalmTokens(a) && CalmTokens(b)
    ensures CalmTokens(a + b)
  {
    hide CalmToken;
  }

  lemma CalmOne(text: bytes)
    requires Calm(text)
    ensures CalmTokens([Text(text)])
  {
  }

  lemma {:induction false} ValueCalm(v: Value)
    requires WfValue(v)
    ensures CalmTokens(ValueTokens(v))
    decreases v, 0
  {
    hide Calm, CalmTokens, SetText, ValuesTokens, WfItem;
    match v
    case Quoted(raw) =>
      CalmQuoted(raw);
      CalmOne(ValueText(v));
    case Counted(payload) => CalmLit(payload);
    case Group(body) =>
      Parentheses();
      ValuesCalm(body);
      CalmParts([Text([LPAREN])], ValuesTokens(body));
      CalmParts([Text([LPAREN])] + ValuesTokens(body), [Text([RPAREN])]);
    case _ =>
      OneWord(v);
      CalmWord(ValueText(v));
      CalmOne(ValueText(v));
  }

  lemma CalmLit(payload: bytes)
    requires |payload| <= MAX_UINT32
    ensures CalmTokens([Lit(payload)])
  {
  }

  lemma Parentheses()
    ensures CalmTokens([Text([LPAREN])]) && CalmTokens([Text([RPAREN])]) && CalmTokens([Text([SP])])
    ensures CalmTokens([Text([SP, LPAREN] + TAG + [SP])]) && CalmTokens([Text([SP] + UID)])
  {
    CalmPlain([LPAREN]);
    CalmPlain([RPAREN]);
    CalmPlain([SP]);
    CalmPlain([SP, LPAREN] + TAG + [SP]);
    CalmPlain([SP] + UID);
    hide Calm;
  }

  lemma {:induction false} ValuesCalm(vs: Values)
    requires WfValues(vs)
    ensures CalmTokens(ValuesTokens(vs))
    decreases vs, 1
  {
    hide CalmTokens, ValueTokens, WfValue;
    match vs
    case Last(value) => ValueCalm(value);
    case More(head, tail) =>
      Parentheses();
      ValueCalm(head);
      ValuesCalm(tail);
      CalmParts(ValueTokens(head), [Text([SP])]);
      CalmParts(ValueTokens(head) + [Text([SP])], ValuesTokens(tail));
  }

  lemma CalmName(r: Return)
    requires WfReturn(r)
    ensures CalmTokens([Text([SP] + r.name + [SP])])
  {
    hide WfValue, FoldIs;
    CalmPlain([SP] + r.name + [SP]);
    hide Calm;
  }

  lemma {:induction false} ReturnsCalm(answers: seq<Return>)
    requires forall i :: 0 <= i < |answers| ==> WfReturn(answers[i])
    ensures CalmTokens(ReturnsTokens(answers))
    decreases |answers|
  {
    hide CalmTokens, ValueTokens, WfValue, Atom, FoldIs;
    if answers == [] {
      NoTokens();
    } else {
      var first := Text([SP] + answers[0].name + [SP]);
      CalmName(answers[0]);
      ValueCalm(answers[0].value);
      ReturnsCalm(answers[1..]);
      CalmParts([first], ValueTokens(answers[0].value));
      CalmParts([first] + ValueTokens(answers[0].value), ReturnsTokens(answers[1..]));
    }
  }

  lemma NoTokens()
    ensures CalmTokens([])
  {
  }

  lemma ExtendedCalm(e: Extended)
    requires WfExtended(e)
    ensures CalmTokens(ExtendedTokens(e))
  {
    hide CalmTokens, ValueTokens, WfValue, WfReturn, ReturnsTokens;
    NoTokens();
    Parentheses();
    if e.tag.Some? {
      var first := [Text([SP, LPAREN] + TAG + [SP])];
      ValueCalm(e.tag.value);
      CalmParts(first, ValueTokens(e.tag.value));
      CalmParts(first + ValueTokens(e.tag.value), [Text([RPAREN])]);
    }
    var marker := if e.uid then [Text([SP] + UID)] else [];
    ReturnsCalm(e.answers);
    CalmParts(TagTokens(e.tag), marker);
    CalmParts(TagTokens(e.tag) + marker, ReturnsTokens(e.answers));
  }
}
