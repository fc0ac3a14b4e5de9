/** The recursive grammar of a FETCH list, as syntax trees with a printer, and
    the proof that the byte machine reads exactly its printed sentences: every
    printed tree is read to its end, and every text read to its end prints a
    tree (sections 4.3, 7.4.2 and 9 of RFC 3501). */
module FetchGrammar {
  import opened Octets
  import opened QuarantineLexis
  import opened FetchScan

  /** One element of a list inside a structure. */
  datatype Elem =
    | Word(text: bytes)
    | Quoted(raw: bytes)
    | Lit(digits: bytes, payload: bytes)
    | Group(body: Elems)

  /** The elements of one list; gap says whether a space precedes the head. */
  datatype Elems = Empty | More(gap: bool, head: Elem, tail: Elems)

  function PrintElem(e: Elem): bytes {
    match e
    case Word(text) => text
    case Quoted(raw) => [QUOTE] + raw + [QUOTE]
    case Lit(digits, payload) => [LBRACE] + digits + [RBRACE, CR, LF] + payload
    case Group(body) => [LPAREN] + Print(body) + [RPAREN]
  }

  function Print(es: Elems): bytes {
    match es
    case Empty => []
    case More(gap, head, tail) => (if gap then [SP] else []) + PrintElem(head) + Print(tail)
  }

  predicate WordText(text: bytes) {
    && 0 < |text| <= MAX_ATOM
    && (AtomChar(text[0]) || text[0] == BACKSLASH)
    && AllAtomChars(text[1..])
  }

  predicate LiteralSize(digits: bytes, size: nat) {
    0 < |digits| <= 10 && AllDigits(digits) && DecimalValue(digits) == size <= MAX_UINT32
  }

  /** An element of a list nested depth deep. */
  predicate WfElem(e: Elem, depth: nat) {
    match e
    case Word(text) => WordText(text)
    case Quoted(raw) => QuotedRaw(raw)
    case Lit(digits, payload) => LiteralSize(digits, |payload|)
    case Group(body) => depth < MAX_DEPTH && WfElems(body, AfterOpen, depth + 1)
  }

  /** One space between elements, none around them, except that a list may
      directly follow a list. */
  predicate Separated(previous: Previous, gap: bool, head: Elem) {
    match previous
    case AfterOpen => !gap
    case AfterSpace => false
    case AfterToken => gap
    case AfterClose => gap || head.Group?
  }

  function Last(e: Elem): Previous {
    if e.Group? then AfterClose else AfterToken
  }

  predicate WfElems(es: Elems, previous: Previous, depth: nat) {
    match es
    case Empty => true
    case More(gap, head, tail) =>
      Separated(previous, gap, head) && WfElem(head, depth) && WfElems(tail, Last(head), depth)
  }

  function ElemTokens(e: Elem): nat {
    if e.Group? then 2 + Tokens(e.body) else 1
  }

  function Tokens(es: Elems): nat {
    match es
    case Empty => 0
    case More(_, head, tail) => ElemTokens(head) + Tokens(tail)
  }

  // ---- Single steps ----

  lemma RunStep(s: Scan, b: byte, rest: bytes)
    requires Valid(s)
    ensures Run(s, [b] + rest) == Resume(ScanByte(s, b), rest)
  {
    assert ([b] + rest)[1..] == rest;
  }

  /** Inside a structure, where atoms carry no meaning of their own. */
  ghost predicate InStructure(s: Scan) {
    Valid(s) && s.depth >= 2 && !s.flagsList
  }

  function At(s: Scan, previous: Previous): Scan {
    s.(lex := Between(previous))
  }

  function Counted(s: Scan, lex: Lex): Scan {
    s.(lex := lex, tokens := s.tokens + 1)
  }

  lemma {:induction false} RunAtomChars(s: Scan, text: bytes, more: bytes, rest: bytes)
    requires Valid(s) && s.lex == InAtom(text)
    requires AllAtomChars(more) && |text| + |more| <= MAX_ATOM
    ensures Run(s, more + rest) == Run(s.(lex := InAtom(text + more)), rest)
    decreases |more|
  {
    if more == [] {
      assert more + rest == rest && text + more == text;
    } else {
      assert more + rest == [more[0]] + (more[1..] + rest);
      RunStep(s, more[0], more[1..] + rest);
      var s' := s.(lex := InAtom(text + [more[0]]));
      RunAtomChars(s', text + [more[0]], more[1..], rest);
      assert text + [more[0]] + more[1..] == text + more;
    }
  }

  lemma {:induction false} RunQuoted(s: Scan, raw: bytes, rest: bytes)
    requires Valid(s) && s.lex == InQuoted && QuotedRaw(raw)
    ensures Run(s, raw + [QUOTE] + rest) == Run(At(s, AfterToken), rest)
    decreases |raw|
  {
    if raw == [] {
      assert raw + [QUOTE] + rest == [QUOTE] + rest;
      RunStep(s, QUOTE, rest);
    } else if raw[0] == BACKSLASH {
      var tail := raw[2..] + [QUOTE] + rest;
      assert raw + [QUOTE] + rest == [BACKSLASH] + ([raw[1]] + tail);
      RunStep(s, BACKSLASH, [raw[1]] + tail);
      RunStep(s.(lex := InEscape), raw[1], tail);
      RunQuoted(s, raw[2..], rest);
    } else {
      var tail := raw[1..] + [QUOTE] + rest;
      assert raw + [QUOTE] + rest == [raw[0]] + tail;
      RunStep(s, raw[0], tail);
      RunQuoted(s, raw[1..], rest);
    }
  }

  /** Dropping a leading digit string's tail never makes its value larger. */
  lemma PrefixValue(digits: bytes)
    requires AllDigits(digits) && digits != []
    ensures DecimalValue(digits[..|digits| - 1]) <= DecimalValue(digits)
  {
  }

  lemma {:induction false} RunDigits(s: Scan, digits: bytes, n: nat, rest: bytes)
    requires Valid(s) && n <= |digits| <= 10 && AllDigits(digits) && DecimalValue(digits) <= MAX_UINT32
    requires s.lex == InSize(n, DecimalValue(digits[..n]))
    ensures Run(s, digits[n..] + rest) == Run(s.(lex := InSize(|digits|, DecimalValue(digits))), rest)
    decreases |digits| - n
  {
    hide Run;
    if n == |digits| {
      assert digits[..n] == digits && digits[n..] + rest == rest;
    } else {
      var d := digits[n];
      assert digits[n..] + rest == [d] + (digits[n + 1..] + rest);
      PrefixesBelow(digits, n + 1);
      assert digits[..n + 1][..n] == digits[..n];
      var s' := s.(lex := InSize(n + 1, DecimalValue(digits[..n + 1])));
      assert SizeByte(s, n, DecimalValue(digits[..n]), d) == Next(s');
      hide SizeByte;
      RunStep(s, d, digits[n + 1..] + rest);
      RunDigits(s', digits, n + 1, rest);
    }
  }

  lemma {:induction false} PrefixesBelow(digits: bytes, n: nat)
    requires n <= |digits| && AllDigits(digits)
    ensures DecimalValue(digits[..n]) <= DecimalValue(digits)
    decreases |digits| - n
  {
    if n == |digits| {
      assert digits[..n] == digits;
    } else {
      PrefixesBelow(digits, n + 1);
      PrefixValue(digits[..n + 1]);
      assert digits[..n + 1][..n] == digits[..n];
    }
  }

  lemma {:induction false} RunPayload(s: Scan, payload: bytes, rest: bytes)
    requires Valid(s) && s.lex == InLiteral(|payload|)
    ensures Run(s, payload + rest) == Run(At(s, AfterToken), rest)
    decreases |payload|
  {
    assert payload + rest == [payload[0]] + (payload[1..] + rest);
    RunStep(s, payload[0], payload[1..] + rest);
    if |payload| > 1 {
      RunPayload(s.(lex := InLiteral(|payload| - 1)), payload[1..], rest);
    } else {
      assert payload[1..] + rest == rest;
    }
  }

  lemma EmptyValue(digits: bytes)
    requires digits == []
    ensures AllDigits(digits) && DecimalValue(digits) == 0
  {
  }

  lemma RunSizeEnd(s: Scan, digits: nat, payload: bytes, rest: bytes)
    requires Valid(s) && s.lex == InSize(digits, |payload|) && digits > 0
    ensures Run(s, [RBRACE, CR, LF] + (payload + rest)) == Run(At(s, AfterToken), rest)
  {
    hide Run;
    var r0 := payload + rest;
    var r1 := [LF] + r0;
    var r2 := [CR] + r1;
    assert [RBRACE, CR, LF] + r0 == [RBRACE] + r2;
    RunStep(s, RBRACE, r2);
    RunStep(s.(lex := AtSizeCR(|payload|)), CR, r1);
    RunStep(s.(lex := AtSizeLF(|payload|)), LF, r0);
    if payload == [] {
      assert r0 == rest;
    } else {
      RunPayload(s.(lex := InLiteral(|payload|)), payload, rest);
    }
  }

  lemma RunLiteral(s: Scan, digits: bytes, payload: bytes, rest: bytes)
    requires Valid(s) && s.lex == InSize(0, 0) && LiteralSize(digits, |payload|)
    ensures Run(s, digits + [RBRACE, CR, LF] + payload + rest) == Run(At(s, AfterToken), rest)
  {
    hide Run, ScanByte, DecimalValue;
    var tail := [RBRACE, CR, LF] + (payload + rest);
    assert digits + [RBRACE, CR, LF] + payload + rest == digits[0..] + tail;
    RunDigits(s, digits, 0, tail) by {
      EmptyValue(digits[..0]);
    }
    RunSizeEnd(s.(lex := InSize(|digits|, |payload|)), |digits|, payload, rest);
  }

  // ---- Printed elements are read ----

  /** After a token inside a structure the machine is still in its atom until
      the next octet settles it. */
  lemma SettleAtom(s: Scan, text: bytes, w: bytes)
    requires InStructure(s) && s.lex == InAtom(text)
    requires w != [] && !AtomChar(w[0])
    ensures Run(s, w) == Run(At(s, AfterToken), w)
  {
  }

  /** A position of a structure list where an element may start. */
  ghost predicate Ready(s: Scan) {
    InStructure(s) && (s.lex == Between(AfterOpen) || s.lex == Between(AfterSpace))
  }

  lemma RunWord(s: Scan, text: bytes, rest: bytes)
    requires Ready(s) && WordText(text)
    requires rest != [] && !AtomChar(rest[0])
    ensures Run(s, text + rest) == Run(Counted(s, Between(AfterToken)), rest)
  {
    hide Run;
    assert text + rest == [text[0]] + (text[1..] + rest);
    RunStep(s, text[0], text[1..] + rest);
    var s1 := Counted(s, InAtom([text[0]]));
    assert ScanByte(s, text[0]) == Next(s1);
    RunAtomChars(s1, [text[0]], text[1..], rest);
    assert [text[0]] + text[1..] == text;
    SettleAtom(Counted(s, InAtom(text)), text, rest);
  }

  /** Reads one token that is not a list, up to the octet after it. */
  lemma RunToken(s: Scan, e: Elem, rest: bytes)
    requires Ready(s) && !e.Group? && WfElem(e, s.depth)
    requires rest != [] && !AtomChar(rest[0])
    ensures Run(s, PrintElem(e) + rest) == Run(Counted(s, Between(AfterToken)), rest)
  {
    hide Run;
    match e
    case Word(text) =>
      RunWord(s, text, rest);
    case Quoted(raw) =>
      assert PrintElem(e) + rest == [QUOTE] + (raw + [QUOTE] + rest);
      RunStep(s, QUOTE, raw + [QUOTE] + rest);
      assert ScanByte(s, QUOTE) == Next(Counted(s, InQuoted));
      hide ScanByte;
      RunQuoted(Counted(s, InQuoted), raw, rest);
    case Lit(digits, payload) =>
      var tail := digits + [RBRACE, CR, LF] + payload + rest;
      assert PrintElem(e) + rest == [LBRACE] + tail;
      RunStep(s, LBRACE, tail);
      assert ScanByte(s, LBRACE) == Next(Counted(s, InSize(0, 0)));
      hide ScanByte;
      RunLiteral(Counted(s, InSize(0, 0)), digits, payload, rest);
  }

  /** The machine after the closing parenthesis of the list it is in. */
  function Closed(s: Scan, tokens: nat): Scan
    requires Inside(s)
  {
    Close(s).scan.(tokens := s.tokens + tokens + 1)
  }

  lemma CloseStep(s: Scan, previous: Previous)
    requires InStructure(s) && s.lex == Between(previous) && previous != AfterSpace
    ensures ScanByte(s, RPAREN) == Close(s) && Close(s) == Next(Closed(s, 0))
  {
  }

  lemma SpaceStep(s: Scan, previous: Previous)
    requires InStructure(s) && s.lex == Between(previous)
    requires previous == AfterToken || previous == AfterClose
    ensures ScanByte(s, SP) == Next(At(s, AfterSpace))
  {
  }

  lemma OpenStep(s: Scan, previous: Previous)
    requires InStructure(s) && s.lex == Between(previous) && s.depth < MAX_DEPTH
    requires previous == AfterOpen || previous == AfterSpace || previous == AfterClose
    ensures ScanByte(s, LPAREN) == Open(s) && Open(s).Next?
  {
  }

  /** After the elements of a list comes a space or its end. */
  lemma NotAtomNext(es: Elems, previous: Previous, depth: nat, rest: bytes)
    requires WfElems(es, previous, depth) && previous == AfterToken
    ensures var w := Print(es) + [RPAREN] + rest; w != [] && !AtomChar(w[0])
  {
  }

  lemma PrintEmpty(rest: bytes)
    ensures Print(Empty) == [] && Print(Empty) + [RPAREN] + rest == [RPAREN] + rest
  {
  }

  lemma PrintMore(gap: bool, head: Elem, tail: Elems, rest: bytes)
    ensures Print(More(gap, head, tail)) == (if gap then [SP] else []) + PrintElem(head) + Print(tail)
    ensures Print(More(gap, head, tail)) + [RPAREN] + rest
            == (if gap then [SP] else []) + (PrintElem(head) + (Print(tail) + [RPAREN] + rest))
  {
    hide PrintElem;
    Regroup(if gap then [SP] else [], PrintElem(head), Print(tail), [RPAREN], rest);
  }

  lemma Regroup(a: bytes, b: bytes, c: bytes, d: bytes, e: bytes)
    ensures a + b + c + d + e == a + (b + (c + d + e))
  {
  }

  /** The rest of a printed list is read to its closing parenthesis. */
  lemma {:induction false} RunElems(s: Scan, previous: Previous, es: Elems, rest: bytes)
    requires InStructure(s) && s.lex == Between(previous) && previous != AfterSpace
    requires WfElems(es, previous, s.depth)
    ensures Run(s, Print(es) + [RPAREN] + rest) == Run(Closed(s, Tokens(es)), rest)
    decreases es, 1
  {
    hide Run, ScanByte, Print, PrintElem;
    match es
    case Empty =>
      PrintEmpty(rest);
      CloseStep(s, previous);
      RunStep(s, RPAREN, rest);
    case More(gap, head, tail) =>
      var w := PrintElem(head) + (Print(tail) + [RPAREN] + rest);
      PrintMore(gap, head, tail, rest);
      var s1, p1 := s, previous;
      if gap {
        SpaceStep(s, previous);
        RunStep(s, SP, w);
        s1, p1 := At(s, AfterSpace), AfterSpace;
      } else {
        assert [] + w == w;
      }
      RunHead(s1, p1, es, rest);
  }

  lemma {:induction false} RunHead(s: Scan, previous: Previous, es: Elems, rest: bytes)
    requires InStructure(s) && s.lex == Between(previous) && es.More?
    requires previous == AfterOpen || previous == AfterSpace || (previous == AfterClose && es.head.Group?)
    requires WfElem(es.head, s.depth) && WfElems(es.tail, Last(es.head), s.depth)
    ensures Run(s, PrintElem(es.head) + (Print(es.tail) + [RPAREN] + rest)) ==
            Run(Closed(s, ElemTokens(es.head) + Tokens(es.tail)), rest)
    decreases es, 0
  {
    hide Run, ScanByte, PrintElem, Print, WfElems, WfElem;
    var w := Print(es.tail) + [RPAREN] + rest;
    var s1 := s.(lex := Between(Last(es.head)), tokens := s.tokens + ElemTokens(es.head));
    if es.head.Group? {
      RunGroup(s, previous, es.head, w);
    } else {
      NotAtomNext(es.tail, AfterToken, s.depth, rest);
      RunToken(s, es.head, w);
    }
    RunElems(s1, Last(es.head), es.tail, rest);
  }

  lemma {:induction false} RunGroup(s: Scan, previous: Previous, e: Elem, w: bytes)
    requires InStructure(s) && s.lex == Between(previous)
    requires previous == AfterOpen || previous == AfterSpace || previous == AfterClose
    requires e.Group? && WfElem(e, s.depth)
    ensures Run(s, PrintElem(e) + w) == Run(At(s, AfterClose).(tokens := s.tokens + ElemTokens(e)), w)
    decreases e, 2
  {
    hide Run, ScanByte;
    assert PrintElem(e) + w == [LPAREN] + (Print(e.body) + [RPAREN] + w);
    RunStep(s, LPAREN, Print(e.body) + [RPAREN] + w);
    OpenStep(s, previous);
    var inner := Open(s).scan;
    RunElems(inner, AfterOpen, e.body, w);
    assert Closed(inner, Tokens(e.body)) == At(s, AfterClose).(tokens := s.tokens + ElemTokens(e));
  }

  // ---- Everything read is printed ----

  lemma CompletesStep(s: Scan, w: bytes)
    requires Valid(s) && Completes(s, w) && !s.lex.Finished?
    ensures w != [] && ScanByte(s, w[0]).Next? && Completes(ScanByte(s, w[0]).scan, w[1..])
    ensures w == [w[0]] + w[1..]
  {
  }

  lemma {:induction false} ExtractAtom(s: Scan, text: bytes, w: bytes) returns (more: bytes, rest: bytes)
    requires Valid(s) && s.lex == InAtom(text) && Completes(s, w)
    ensures w == more + rest && AllAtomChars(more) && |text| + |more| <= MAX_ATOM
    ensures rest != [] && !AtomChar(rest[0])
    decreases |w|
  {
    CompletesStep(s, w);
    if AtomChar(w[0]) {
      more, rest := ExtractAtom(s.(lex := InAtom(text + [w[0]])), text + [w[0]], w[1..]);
      more := [w[0]] + more;
    } else {
      more, rest := [], w;
    }
  }

  lemma {:induction false} ExtractQuoted(s: Scan, w: bytes) returns (raw: bytes, rest: bytes)
    requires Valid(s) && s.lex == InQuoted && Completes(s, w)
    ensures w == raw + [QUOTE] + rest && QuotedRaw(raw)
    decreases |w|
  {
    hide Run;
    CompletesStep(s, w);
    if w[0] == QUOTE {
      raw, rest := [], w[1..];
    } else if w[0] == BACKSLASH {
      var e := s.(lex := InEscape);
      CompletesStep(e, w[1..]);
      raw, rest := ExtractQuoted(s, w[2..]);
      raw := [w[0], w[1]] + raw;
      assert raw[2..] == raw[2..] && w == [w[0], w[1]] + w[2..];
    } else {
      raw, rest := ExtractQuoted(s, w[1..]);
      raw := [w[0]] + raw;
    }
  }

  /** Reads the rest of a literal size, digits of which are already read. */
  lemma {:induction false} ExtractSize(s: Scan, digits: bytes, w: bytes) returns (all: bytes, rest: bytes)
    requires Valid(s) && AllDigits(digits) && |digits| <= 10 && DecimalValue(digits) <= MAX_UINT32
    requires s.lex == InSize(|digits|, DecimalValue(digits)) && Completes(s, w)
    ensures digits + w == all + [RBRACE] + rest
    ensures AllDigits(all) && 0 < |all| <= 10 && DecimalValue(all) <= MAX_UINT32
    ensures Completes(s.(lex := AtSizeCR(DecimalValue(all))), rest)
    decreases |w|
  {
    hide Run;
    CompletesStep(s, w);
    if w[0] == RBRACE {
      all, rest := digits, w[1..];
    } else {
      var next := digits + [w[0]];
      assert next[..|next| - 1] == digits;
      all, rest := ExtractSize(s.(lex := InSize(|next|, DecimalValue(next))), next, w[1..]);
    }
  }

  lemma {:induction false} ExtractPayload(s: Scan, left: nat, w: bytes) returns (payload: bytes, rest: bytes)
    requires Valid(s) && s.lex == InLiteral(left) && Completes(s, w)
    ensures w == payload + rest && |payload| == left
    decreases left
  {
    CompletesStep(s, w);
    if left == 1 {
      payload, rest := [w[0]], w[1..];
    } else {
      payload, rest := ExtractPayload(s.(lex := InLiteral(left - 1)), left - 1, w[1..]);
      payload := [w[0]] + payload;
    }
  }

  /** The line break after a literal size, and its octets. */
  lemma ExtractSized(s: Scan, size: nat, w: bytes) returns (payload: bytes, rest: bytes)
    requires Valid(s) && s.lex == AtSizeCR(size) && Completes(s, w)
    ensures |payload| == size && w == [CR, LF] + (payload + rest)
  {
    hide Run;
    CompletesStep(s, w);
    CompletesStep(s.(lex := AtSizeLF(size)), w[1..]);
    var r := w[2..];
    if size == 0 {
      payload, rest := [], r;
    } else {
      payload, rest := ExtractPayload(s.(lex := InLiteral(size)), size, r);
    }
    assert w == [CR] + w[1..] && w[1..] == [LF] + r;
    assert payload + rest == r;
  }

  lemma ExtractLiteral(s: Scan, w: bytes) returns (digits: bytes, payload: bytes, rest: bytes)
    requires Valid(s) && s.lex == InSize(0, 0) && Completes(s, w)
    ensures LiteralSize(digits, |payload|) && w == digits + [RBRACE, CR, LF] + payload + rest
  {
    hide Run, ScanByte, DecimalValue, Completes;
    EmptyValue([]);
    var r0: bytes;
    digits, r0 := ExtractSize(s, [], w);
    payload, rest := ExtractSized(s.(lex := AtSizeCR(DecimalValue(digits))), DecimalValue(digits), r0);
    LiteralParts(digits, payload, rest);
    assert [] + w == w;
  }

  lemma LiteralParts(digits: bytes, payload: bytes, rest: bytes)
    ensures digits + [RBRACE] + ([CR, LF] + (payload + rest)) == digits + [RBRACE, CR, LF] + payload + rest
  {
  }

  /** A token is followed by a space or the end of its list. */
  lemma AfterTokenNext(s: Scan, w: bytes)
    requires Valid(s) && s.lex == Between(AfterToken) && Completes(s, w)
    ensures w != [] && (w[0] == SP || w[0] == RPAREN) && !AtomChar(w[0])
  {
    CompletesStep(s, w);
  }

  lemma ExtractQuotedToken(s: Scan, w: bytes) returns (e: Elem, rest: bytes)
    requires Ready(s) && Completes(s, w) && w != [] && w[0] == QUOTE
    ensures e.Quoted? && w == PrintElem(e) + rest && QuotedRaw(e.raw) && rest != [] && !AtomChar(rest[0])
  {
    hide Run;
    CompletesStep(s, w);
    var s1 := Counted(s, InQuoted);
    assert ScanByte(s, QUOTE) == Next(s1);
    hide ScanByte;
    var raw;
    raw, rest := ExtractQuoted(s1, w[1..]);
    RunQuoted(s1, raw, rest);
    AfterTokenNext(At(s1, AfterToken), rest);
    e := Quoted(raw);
    assert w == [QUOTE] + (raw + [QUOTE] + rest);
  }

  lemma ExtractLitToken(s: Scan, w: bytes) returns (e: Elem, rest: bytes)
    requires Ready(s) && Completes(s, w) && w != [] && w[0] == LBRACE
    ensures e.Lit? && w == PrintElem(e) + rest && LiteralSize(e.digits, |e.payload|) && rest != [] && !AtomChar(rest[0])
  {
    hide Run;
    CompletesStep(s, w);
    var s1 := Counted(s, InSize(0, 0));
    assert ScanByte(s, LBRACE) == Next(s1);
    hide ScanByte, LiteralSize;
    var digits, payload;
    digits, payload, rest := ExtractLiteral(s1, w[1..]);
    RunLiteral(s1, digits, payload, rest);
    AfterTokenNext(At(s1, AfterToken), rest);
    e := Lit(digits, payload);
    assert w == [LBRACE] + (digits + [RBRACE, CR, LF] + payload + rest);
  }

  lemma ExtractToken(s: Scan, w: bytes) returns (e: Elem, rest: bytes)
    requires Ready(s) && Completes(s, w)
    requires w != [] && w[0] != SP && w[0] != LPAREN && w[0] != RPAREN
    ensures w == PrintElem(e) + rest && !e.Group? && WfElem(e, s.depth) && |rest| < |w|
    ensures rest != [] && !AtomChar(rest[0])
  {
    hide Run, LiteralSize, QuotedRaw;
    if w[0] == QUOTE {
      e, rest := ExtractQuotedToken(s, w);
    } else if w[0] == LBRACE {
      e, rest := ExtractLitToken(s, w);
    } else {
      CompletesStep(s, w);
      var more;
      more, rest := ExtractAtom(Counted(s, InAtom([w[0]])), [w[0]], w[1..]);
      e := Word([w[0]] + more);
      assert e.text[1..] == more;
    }
  }

  /** What the machine admits between the elements of a structure list. */
  lemma StructureStep(s: Scan, previous: Previous, b: byte)
    requires InStructure(s) && s.lex == Between(previous) && ScanByte(s, b).Next?
    ensures b == SP ==> previous != AfterOpen && previous != AfterSpace && ScanByte(s, b) == Next(At(s, AfterSpace))
    ensures b == RPAREN ==> previous != AfterSpace && ScanByte(s, b) == Next(Closed(s, 0))
    ensures b == LPAREN ==> previous != AfterToken && s.depth < MAX_DEPTH && ScanByte(s, b) == Open(s)
    ensures b != SP && b != RPAREN && b != LPAREN ==> previous == AfterOpen || previous == AfterSpace
  {
  }

  /** The machine inside a structure list that it reads to the end of the
      frame has read the rest of a printed list. */
  lemma {:induction false} ExtractElems(s: Scan, previous: Previous, w: bytes) returns (es: Elems, rest: bytes)
    requires InStructure(s) && s.lex == Between(previous) && previous != AfterSpace && Completes(s, w)
    ensures w == Print(es) + [RPAREN] + rest && WfElems(es, previous, s.depth)
    ensures Completes(Closed(s, Tokens(es)), rest)
    decreases |w|, 2
  {
    hide Run, ScanByte, WfElem, Print, PrintElem;
    CompletesStep(s, w);
    StructureStep(s, previous, w[0]);
    if w[0] == RPAREN {
      es, rest := Empty, w[1..];
      PrintEmpty(rest);
    } else {
      var head, tail;
      var gap := w[0] == SP;
      if gap {
        CompletesStep(At(s, AfterSpace), w[1..]);
        StructureStep(At(s, AfterSpace), AfterSpace, w[1]);
        head, tail, rest := ExtractHead(At(s, AfterSpace), AfterSpace, w[1..]);
      } else {
        head, tail, rest := ExtractHead(s, previous, w);
        assert [] + w == w;
      }
      es := More(gap, head, tail);
      PrintMore(gap, head, tail, rest);
    }
    RunElems(s, previous, es, rest);
  }

  lemma {:induction false} ExtractHead(s: Scan, previous: Previous, w: bytes)
    returns (head: Elem, tail: Elems, rest: bytes)
    requires InStructure(s) && s.lex == Between(previous) && Completes(s, w)
    requires w != [] && w[0] != SP && w[0] != RPAREN
    ensures w == PrintElem(head) + (Print(tail) + [RPAREN] + rest)
    ensures WfElem(head, s.depth) && WfElems(tail, Last(head), s.depth)
    ensures previous != AfterToken && (previous == AfterClose ==> head.Group?)
    decreases |w|, 1
  {
    hide Run, ScanByte, Print, PrintElem, WfElems, WfElem;
    CompletesStep(s, w);
    StructureStep(s, previous, w[0]);
    var r1;
    if w[0] == LPAREN {
      head, r1 := ExtractGroup(s, previous, w);
    } else {
      head, r1 := ExtractToken(s, w);
      RunToken(s, head, r1);
    }
    var s1 := s.(lex := Between(Last(head)), tokens := s.tokens + ElemTokens(head));
    tail, rest := ExtractElems(s1, Last(head), r1);
  }

  lemma {:induction false} ExtractGroup(s: Scan, previous: Previous, w: bytes) returns (e: Elem, rest: bytes)
    requires InStructure(s) && s.lex == Between(previous) && Completes(s, w)
    requires w != [] && w[0] == LPAREN
    ensures e.Group? && w == PrintElem(e) + rest && WfElem(e, s.depth) && previous != AfterToken && |rest| < |w|
    ensures Completes(At(s, AfterClose).(tokens := s.tokens + ElemTokens(e)), rest)
    decreases |w|, 0
  {
    hide Run, ScanByte, WfElems;
    CompletesStep(s, w);
    StructureStep(s, previous, LPAREN);
    var inner := Open(s).scan;
    var body;
    body, rest := ExtractElems(inner, AfterOpen, w[1..]);
    e := Group(body);
    assert Closed(inner, Tokens(body)) == At(s, AfterClose).(tokens := s.tokens + ElemTokens(e));
    assert w == [LPAREN] + (Print(body) + [RPAREN] + rest);
  }
}
