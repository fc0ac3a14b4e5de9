/** The responses a server prints while a SEARCH runs, in any order: SEARCH,
    ESEARCH and every other one, with literals in their data, read back by the
    observer over any chunking (bridge/imapclient.go:1398-1831). */
module SearchStream {
  import opened Octets
  import opened Sequences
  import opened Wrappers
  import opened QuarantineLexis
  import opened SearchWire
  import opened SearchSets
  import opened SearchESearch
  import opened SearchObserver
  import opened SearchSoundness
  import opened SearchPrinter
  import opened SearchReturns
  import opened SearchLiterals
  import opened SearchFraming
  import opened SearchHeads
  import opened SearchOthers

  // ---- One line ----

  const HEAD: bytes := [STAR, SP] + ESEARCH

  /** A logical line so far: the head, and after it a space or nothing. */
  predicate Begun(line: bytes) {
    HasPrefix(line, HEAD) && (|line| > |HEAD| ==> line[|HEAD|] == SP) && Calm(line)
  }

  lemma ESearchName()
    ensures !StatusName(ESEARCH) && !UpperIs(ESEARCH, SEARCH) && UpperIs(ESEARCH, ESEARCH)
    ensures forall i :: 0 <= i < |ESEARCH| ==> WireAtomChar(ESEARCH[i]) && !IsDigit(ESEARCH[i])
  {
    UppersToItself(ESEARCH);
    assert Upper(ESEARCH[0]) == 0x45 && OK[0] == 0x4f && PREAUTH[0] == 0x50 && NO[0] == 0x4e && BAD[0] == 0x42 && BYE[0] == 0x42;
  }

  lemma ESearchClassified(rest: bytes)
    requires rest != [] ==> rest[0] == SP
    ensures Classify(HEAD + rest) == (ESearchKind, rest)
  {
    hide UpperIs, SpanAtom, StatusName, DataName;
    var line := HEAD + rest;
    ESearchName();
    SpanWord(ESEARCH, rest);
    assert line[1..][0] == SP && line[1..][1..] == ESEARCH + rest;
  }

  /** What follows the head. */
  function Tail(line: bytes): bytes
    requires Begun(line)
  {
    line[|HEAD|..]
  }

  lemma BegunClassified(line: bytes)
    requires Begun(line)
    ensures Classify(line) == (ESearchKind, Tail(line)) && line == HEAD + Tail(line) && line != []
  {
    hide Classify, Calm;
    assert line == HEAD + Tail(line) by {
      assert line[..|HEAD|] == HEAD;
    }
    ESearchClassified(Tail(line));
  }

  // ---- The lines of one response ----

  /** The lines observed of an ESEARCH response that goes on with tokens: one
      for each literal still to come, and the whole. */
  function Parts(line: bytes, tokens: seq<Token>): seq<Line>
    decreases |tokens|
  {
    if tokens == [] then [Line(false, ESearchKind, if |line| >= |HEAD| then line[|HEAD|..] else [], true)]
    else
      match tokens[0]
      case Text(text) => Parts(line + text, tokens[1..])
      case Lit(payload) =>
        var declared := line + Declared(|payload|);
        [Line(false, ESearchKind, if |declared| >= |HEAD| then declared[|HEAD|..] else [], false)] + Parts(line + EMPTY_STRING, tokens[1..])
  }

  /** A state that reads a response line in progress. */
  predicate Reading(f: Framer) {
    f.literal == 0 && (!f.continues || f.pending != [])
  }

  lemma LastTaken(f: Framer, segment: bytes, rest: bytes)
    requires Reading(f) && f.buffer == segment + CRLF + rest && Begun(f.pending + segment)
    ensures LF in f.buffer
    ensures TakeLine(f) == (Append(FRESH, rest), Line(false, ESearchKind, Tail(f.pending + segment), true))
  {
    hide Classify, TrailingLiteral, TakeLine, Braces;
    var line := f.pending + segment;
    BegunClassified(line);
    NoTrailing(line);
    FreshAppend(rest);
    WholeTaken(f, segment, rest, ESearchKind, Tail(line));
  }

  lemma BegunMore(line: bytes, more: bytes)
    requires Begun(line) && Calm(more) && (|line| == |HEAD| ==> more != [] && more[0] == SP)
    ensures Begun(line + more)
  {
    hide Calm;
    CalmConcat(line, more);
    assert (line + more)[..|HEAD|] == line[..|HEAD|];
  }

  lemma LiteralTaken(f: Framer, segment: bytes, payload: bytes, rest: bytes)
    requires Reading(f) && f.buffer == segment + Declared(|payload|) + CRLF + (payload + rest)
    requires Begun(f.pending + segment) && |f.pending + segment| > |HEAD| && |payload| <= MAX_UINT32
    ensures LF in f.buffer
    ensures var line := f.pending + segment;
            TakeLine(f) == (Framer(payload + rest, |payload|, true, line + EMPTY_STRING),
                            Line(false, ESearchKind, (line + Declared(|payload|))[|HEAD|..], false))
  {
    hide Classify, TrailingLiteral, Find, Braces, Declared, Decimal;
    var line, declared := f.pending + segment, Declared(|payload|);
    DeclaredPlain(|payload|);
    LineCut(segment + declared, payload + rest);
    FirstLineIs(f, segment + declared);
    Assoc(f.pending, segment, declared);
    DeclaredTrails(line, |payload|);
    var tail := Tail(line) + declared;
    assert line + declared == HEAD + tail;
    ESearchClassified(tail);
    assert (line + declared)[..|line|] == line;
  }

  /** The state after a literal has been declared reads on behind it. */
  lemma AfterLiteral(f: Framer, segment: bytes, payload: bytes, rest: bytes)
    requires Reading(f) && f.buffer == segment + Declared(|payload|) + CRLF + (payload + rest) && rest != []
    requires Begun(f.pending + segment) && |f.pending + segment| > |HEAD| && |payload| <= MAX_UINT32
    ensures var line := f.pending + segment;
            Drain(f).1 == [Line(false, ESearchKind, (line + Declared(|payload|))[|HEAD|..], false)]
                          + Drain(Framer(rest, 0, true, line + EMPTY_STRING)).1
  {
    hide TakeLine, Begun, Declared, Drain;
    LiteralTaken(f, segment, payload, rest);
    DrainStep(f);
    SkipTo(TakeLine(f).0, payload, rest);
  }

  lemma AfterLast(f: Framer, segment: bytes, rest: bytes)
    requires Reading(f) && f.buffer == segment + CRLF + rest && Begun(f.pending + segment)
    ensures Drain(f).1 == [Line(false, ESearchKind, Tail(f.pending + segment), true)] + StreamLines(rest)
  {
    hide TakeLine, Begun, Drain, Tail;
    LastTaken(f, segment, rest);
    DrainStep(f);
  }

  /** The observer reads a response to its end, its literals as empty strings. */
  lemma {:induction false} ResponseRead(f: Framer, segment: bytes, tokens: seq<Token>, rest: bytes)
    requires Reading(f) && f.buffer == segment + Wire(tokens) + CRLF + rest
    requires Begun(f.pending + segment) && CalmTokens(tokens) && (tokens == [] || |f.pending + segment| > |HEAD|)
    ensures Drain(f).1 == Parts(f.pending + segment, tokens) + StreamLines(rest)
    decreases |tokens|
  {
    hide Drain, StreamLines, Wire, Calm, Declared, Begun, CalmTokens;
    var line := f.pending + segment;
    BegunLong(line);
    if tokens == [] {
      NothingSent();
      assert segment + [] == segment;
      AfterLast(f, segment, rest);
    } else {
      TokensSplit(tokens);
      var later := tokens[1..];
      match tokens[0]
      case Text(text) =>
        TextWire(segment, text, later, rest);
        BegunMore(line, text);
        Assoc(f.pending, segment, text);
        ResponseRead(f, segment + text, later, rest);
      case Lit(payload) =>
        var more := Wire(later) + CRLF + rest;
        LitWire(segment, payload, later, rest);
        AfterLiteral(f, segment, payload, more);
        EmptyIsCalm();
        BegunMore(line, EMPTY_STRING);
        var next := Framer(more, 0, true, line + EMPTY_STRING);
        assert next.pending + [] == next.pending && [] + Wire(later) + CRLF + rest == more;
        ResponseRead(next, [], later, rest);
        var first := Line(false, ESearchKind, (line + Declared(|payload|))[|HEAD|..], false);
        assert [first] + Parts(line + EMPTY_STRING, later) + StreamLines(rest)
            == [first] + (Parts(line + EMPTY_STRING, later) + StreamLines(rest));
    }
  }

  lemma BegunLong(line: bytes)
    requires Begun(line)
    ensures |line| >= |HEAD| && Tail(line) == line[|HEAD|..]
  {
  }

  lemma EmptyIsCalm()
    ensures Calm(EMPTY_STRING)
  {
    CalmQuoted([]);
    assert [QUOTE] + [] + [QUOTE] == EMPTY_STRING;
  }

  /** None of the lines complains, except what the whole says; none of them
      names a SEARCH number. */
  lemma {:induction false} PartsJudged(line: bytes, tokens: seq<Token>, w: Window)
    requires |line| >= |HEAD|
    ensures var parts := Parts(line, tokens);
            var text := (line + Joined(tokens))[|HEAD|..];
            && AllNumbers(parts) == []
            && (AllProper(parts, w) <==> CleanLine(text) && AllAllowed(LineIntervals(text), w))
            && (exists i :: 0 <= i < |parts| && parts[i].kind == ESearchKind)
            && (forall i :: 0 <= i < |parts| ==> parts[i].kind != SearchKind)
    decreases |tokens|
  {
    hide CleanLine, LineIntervals, AllAllowed, Declared;
    if tokens == [] {
      assert line + Joined(tokens) == line;
      var last := Parts(line, tokens)[0];
      assert AllNumbers(Parts(line, tokens)[1..]) == [];
      assert Proper(last, w) <==> CleanLine(last.text) && AllAllowed(LineIntervals(last.text), w);
    } else {
      match tokens[0]
      case Text(text) =>
        PartsJudged(line + text, tokens[1..], w);
        Assoc(line, text, Joined(tokens[1..]));
      case Lit(payload) =>
        PartsJudged(line + EMPTY_STRING, tokens[1..], w);
        Assoc(line, EMPTY_STRING, Joined(tokens[1..]));
        var parts, later := Parts(line, tokens), Parts(line + EMPTY_STRING, tokens[1..]);
        assert parts[1..] == later && Proper(parts[0], w) && LineNumbers(parts[0]) == [];
        ProperMore(parts[0], later, w);
        assert forall i :: 0 < i < |parts| ==> parts[i] == later[i - 1];
        assert parts[0].kind == ESearchKind;
    }
  }

  // ---- The whole stream ----

  datatype Response = Plain(ns: seq<nat>, group: Option<ModSeq>) | Returned(e: Extended) | Other(h: Head, tokens: seq<Token>)

  function Sent(r: Response): bytes {
    match r
    case Plain(ns, group) => SearchLine(ns, group)
    case Returned(e) => HEAD + Wire(ExtendedTokens(e))
    case Other(h, tokens) => PrintHead(h) + Wire(tokens)
  }

  function Stream(rs: seq<Response>): bytes {
    if rs == [] then [] else Sent(rs[0]) + CRLF + Stream(rs[1..])
  }

  function LinesOf(r: Response): seq<Line> {
    match r
    case Plain(ns, group) => [SearchEvent(ns, group)]
    case Returned(e) => Parts(HEAD, ExtendedTokens(e))
    case Other(h, tokens) => OtherLines(h, tokens)
  }

  function AllLines(rs: seq<Response>): seq<Line> {
    if rs == [] then [] else LinesOf(rs[0]) + AllLines(rs[1..])
  }

  ghost predicate WfResponse(r: Response) {
    match r
    case Plain(ns, group) => WfModSeq(group) && forall i :: 0 <= i < |ns| ==> ns[i] <= MAX_UINT32
    case Returned(e) => WfExtended(e)
    case Other(h, tokens) => WfOther(h, tokens)
  }

  /** The numbers of all SEARCH responses, in order. */
  function Numbered(rs: seq<Response>): seq<nat> {
    if rs == [] then [] else (if rs[0].Plain? then rs[0].ns else []) + Numbered(rs[1..])
  }

  /** What a search response says is nonzero and in the window, and no ALL set of
      it names a number twice. Any other response has a known name and closes
      its response code. */
  ghost predicate Good(r: Response, w: Window) {
    match r
    case Plain(ns, _) => NumbersAllowed(ns, w)
    case Returned(e) => SetsOnce(e.answers) && AllAllowed(AllSpans(e.answers), w)
    case Other(h, _) => !h.Unknown? && !Unclosed(h)
  }

  lemma TokensBegin(e: Extended)
    requires WfExtended(e)
    ensures var tokens := ExtendedTokens(e);
            tokens == [] || (tokens[0].Text? && tokens[0].text != [] && tokens[0].text[0] == SP)
  {
    hide ValueTokens, WfReturn;
  }

  lemma HeadBegun()
    ensures Begun(HEAD)
  {
    CalmPlain(HEAD);
  }

  lemma ExtendedRead(e: Extended, rest: bytes)
    requires WfExtended(e)
    ensures StreamLines(Sent(Returned(e)) + CRLF + rest) == LinesOf(Returned(e)) + StreamLines(rest)
  {
    hide Drain, ExtendedTokens, WfExtended, Begun, Calm;
    var tokens := ExtendedTokens(e);
    var f := Append(FRESH, HEAD + Wire(tokens) + CRLF + rest);
    assert [] + (HEAD + Wire(tokens) + CRLF + rest) == HEAD + Wire(tokens) + CRLF + rest;
    HeadBegun();
    ExtendedCalm(e);
    TokensBegin(e);
    assert [] + HEAD == HEAD;
    if tokens == [] {
      ResponseRead(f, HEAD, tokens, rest);
    } else {
      var text, later := tokens[0].text, Wire(tokens[1..]);
      assert CalmToken(tokens[0]) && CalmTokens(tokens[1..]);
      BegunMore(HEAD, text);
      Assoc(HEAD, text, later);
      assert [] + (HEAD + text) == HEAD + text;
      ResponseRead(f, HEAD + text, tokens[1..], rest);
    }
  }

  lemma {:induction false} StreamRead(rs: seq<Response>)
    requires forall i :: 0 <= i < |rs| ==> WfResponse(rs[i])
    ensures StreamLines(Stream(rs)) == AllLines(rs)
    decreases |rs|
  {
    hide SearchLine, Parts, WfExtended, TakeLine;
    if rs == [] {
      assert Append(FRESH, []) == FRESH;
    } else {
      var rest := Stream(rs[1..]);
      StreamRead(rs[1..]);
      match rs[0]
      case Plain(ns, group) => SearchRead(ns, group, rest);
      case Returned(e) => ExtendedRead(e, rest);
      case Other(h, tokens) => OtherRead(h, tokens, rest);
    }
  }

  lemma SearchRead(ns: seq<nat>, group: Option<ModSeq>, rest: bytes)
    requires WfModSeq(group)
    ensures StreamLines(SearchLine(ns, group) + CRLF + rest) == [SearchEvent(ns, group)] + StreamLines(rest)
  {
    hide TakeLine, SearchLine, WfModSeq;
    var stream := SearchLine(ns, group) + CRLF + rest;
    SearchTaken(ns, group, rest);
    assert Skip(Append(FRESH, stream)) == Append(FRESH, stream) && [] + stream == stream;
  }

  lemma ResponseJudged(r: Response, w: Window)
    requires WfResponse(r)
    ensures var lines := LinesOf(r);
            && AllNumbers(lines) == (if r.Plain? then r.ns else [])
            && (AllProper(lines, w) <==> Good(r, w))
            && (HasKind(lines, SearchKind) <==> r.Plain?)
            && (HasKind(lines, ESearchKind) <==> r.Returned?)
  {
    hide ReadsAsNumbers, SearchNumbers, NumbersAllowed, SearchText, CleanLine, LineIntervals, SetsOnce, AllSpans, AllAllowed, Parts, WfExtended, ExtendedTokens;
    match r
    case Plain(ns, group) =>
      EventReads(ns, group);
      var lines := LinesOf(r);
      assert lines[1..] == [] && AllNumbers(lines[1..]) == [] && ns + [] == ns;
      assert lines[0].kind == SearchKind;
    case Returned(e) =>
      PartsJudged(HEAD, ExtendedTokens(e), w);
      ExtendedJoined(e);
      assert (HEAD + ExtendedText(e))[|HEAD|..] == ExtendedText(e);
      ExtendedReads(e);
    case Other(h, tokens) => OtherJudged(h, tokens, w);
  }

  lemma OtherJudged(h: Head, tokens: seq<Token>, w: Window)
    requires WfResponse(Other(h, tokens))
    ensures var lines := LinesOf(Other(h, tokens));
            && AllNumbers(lines) == [] && (AllProper(lines, w) <==> Good(Other(h, tokens), w))
            && !HasKind(lines, SearchKind) && !HasKind(lines, ESearchKind)
  {
    hide BareLines, AllProper, HasKind, AllNumbers, WfHead, CodeCloses, Calm, CalmTokens;
    BareJudged(KindOf(h), tokens, w);
  }

  lemma {:induction false} NumbersConcat(a: seq<Line>, b: seq<Line>)
    ensures AllNumbers(a + b) == AllNumbers(a) + AllNumbers(b)
    decreases |a|
  {
    hide LineNumbers;
    if a == [] {
      assert a + b == b;
    } else {
      assert (a + b)[0] == a[0] && (a + b)[1..] == a[1..] + b;
      NumbersConcat(a[1..], b);
    }
  }

  lemma ProperConcat(a: seq<Line>, b: seq<Line>, w: Window)
    ensures AllProper(a + b, w) <==> AllProper(a, w) && AllProper(b, w)
  {
    hide Proper;
    var all := a + b;
    assert forall i :: 0 <= i < |b| ==> b[i] == all[|a| + i];
    assert forall i :: 0 <= i < |a| ==> a[i] == all[i];
  }

  lemma KindConcat(a: seq<Line>, b: seq<Line>, kind: LineKind)
    ensures HasKind(a + b, kind) <==> HasKind(a, kind) || HasKind(b, kind)
  {
    var all := a + b;
    assert forall i :: 0 <= i < |b| ==> b[i] == all[|a| + i];
    assert forall i :: 0 <= i < |a| ==> a[i] == all[i];
  }

  ghost predicate AllGood(rs: seq<Response>, w: Window) {
    forall i :: 0 <= i < |rs| ==> Good(rs[i], w)
  }

  ghost predicate AnyPlain(rs: seq<Response>) {
    exists i :: 0 <= i < |rs| && rs[i].Plain?
  }

  ghost predicate AnyReturned(rs: seq<Response>) {
    exists i :: 0 <= i < |rs| && rs[i].Returned?
  }

  lemma AllGoodCons(rs: seq<Response>, w: Window)
    requires rs != []
    ensures AllGood(rs, w) <==> Good(rs[0], w) && AllGood(rs[1..], w)
  {
    hide Good;
    assert forall i :: 0 < i < |rs| ==> rs[i] == rs[1..][i - 1];
    assert forall i :: 0 <= i < |rs| - 1 ==> rs[1..][i] == rs[i + 1];
  }

  lemma AnyCons(rs: seq<Response>)
    requires rs != []
    ensures AnyPlain(rs) <==> rs[0].Plain? || AnyPlain(rs[1..])
    ensures AnyReturned(rs) <==> rs[0].Returned? || AnyReturned(rs[1..])
  {
    assert forall i :: 0 < i < |rs| ==> rs[i] == rs[1..][i - 1];
    assert forall i :: 0 <= i < |rs| - 1 ==> rs[1..][i] == rs[i + 1];
  }

  lemma {:induction false} StreamJudged(rs: seq<Response>, w: Window)
    requires forall i :: 0 <= i < |rs| ==> WfResponse(rs[i])
    ensures var lines := AllLines(rs);
            && AllNumbers(lines) == Numbered(rs)
            && (AllProper(lines, w) <==> AllGood(rs, w))
            && (HasKind(lines, SearchKind) <==> AnyPlain(rs))
            && (HasKind(lines, ESearchKind) <==> AnyReturned(rs))
    decreases |rs|
  {
    hide LinesOf, Good, WfResponse, Proper, LineNumbers;
    if rs != [] {
      hide HasKind, AllProper, AllGood, AnyPlain, AnyReturned, AllNumbers;
      var first, later := LinesOf(rs[0]), AllLines(rs[1..]);
      ResponseJudged(rs[0], w);
      StreamJudged(rs[1..], w);
      NumbersConcat(first, later);
      ProperConcat(first, later, w);
      KindConcat(first, later, SearchKind);
      KindConcat(first, later, ESearchKind);
      AllGoodCons(rs, w);
      AnyCons(rs);
    }
  }

  /** Whatever a server answers, however many responses, whatever literals stand
      in them and however the network cuts them: the observer complains exactly
      when a SEARCH number repeats, an ALL set names a number twice, either is
      zero or leaves the window, a status leaves its response code open, or data
      has no known name. Without complaint it knows exactly the numbers of the
      SEARCH responses; every other response, the tagged completion among them,
      adds nothing. */
  lemma PrintedResponsesAreObserved(w: Window, rs: seq<Response>, chunks: seq<bytes>)
    requires (forall i :: 0 <= i < |rs| ==> WfResponse(rs[i])) && Flatten(chunks) == Stream(rs)
    ensures var t := ObserveAll(Observer(FRESH, EMPTY.(window := w)), chunks).tally;
            && (Clear(t) <==> Distinct(Numbered(rs)) && AllGood(rs, w))
            && (Clear(t) ==> t.uids == SetOf(Numbered(rs)))
            && (t.searchSeen <==> AnyPlain(rs)) && (t.eSearchSeen <==> AnyReturned(rs))
  {
    hide ObserveAll, Proper, Clear, Distinct, StreamLines, WfResponse, Stream, AllLines, AllNumbers, SetOf, Numbered,
         AllGood, AnyPlain, AnyReturned;
    AcceptedIff(w, chunks);
    StreamRead(rs);
    StreamJudged(rs, w);
  }
}
