/** The responses that come between the search responses of a command, with
    literals in their data, and how the observer reads them
    (bridge/imapclient.go:1447-1502, 1508-1594). */
module SearchOthers {
  import opened Octets
  import opened Sequences
  import opened SearchWire
  import opened SearchSets
  import opened SearchObserver
  import opened SearchSoundness
  import opened SearchPrinter
  import opened SearchLiterals
  import opened SearchFraming
  import opened SearchHeads

  /** A response that is not a search response. Status text runs to the end of
      its line whatever it holds; data goes on with literals and text. */
  ghost predicate WfOther(h: Head, tokens: seq<Token>) {
    && WfHead(h) && !KindOf(h).SearchKind? && !KindOf(h).ESearchKind?
    && if KindOf(h).TextLine? then tokens == [] && NoBreaksIn(PrintHead(h))
       else Calm(PrintHead(h)) && CalmTokens(tokens) && (tokens != [] ==> tokens[0].Lit?)
  }

  predicate NoBreaksIn(s: bytes) {
    CR !in s && LF !in s
  }

  /** A line observed without any text. */
  function Bare(kind: LineKind): Line {
    Line(kind.Unclassified?, kind, [], true)
  }

  /** The lines observed: one, and one more for each literal. */
  function BareLines(kind: LineKind, tokens: seq<Token>): seq<Line>
    decreases |tokens|
  {
    if tokens == [] then [Bare(kind)]
    else if tokens[0].Lit? then [Bare(kind)] + BareLines(DataLine, tokens[1..])
    else BareLines(kind, tokens[1..])
  }

  function OtherLines(h: Head, tokens: seq<Token>): seq<Line> {
    BareLines(KindOf(h), tokens)
  }

  // ---- One line ----

  lemma BareTaken(f: Framer, segment: bytes, rest: bytes, kind: LineKind)
    requires f.literal == 0 && f.pending == [] && f.buffer == segment + CRLF + rest && NoBreaksIn(segment)
    requires LineKindOf(f, segment) == (kind, []) && !kind.SearchKind? && !kind.ESearchKind?
    requires kind.TextLine? || TrailingLiteral(segment) == NoLiteral
    ensures LF in f.buffer && TakeLine(f) == (Framer(rest, 0, false, []), Bare(kind))
  {
    hide LineKindOf, TrailingLiteral, Find, FirstLine;
    LineCut(segment, rest);
    FirstLineIs(f, segment);
    assert [] + segment == segment;
  }

  lemma BareDeclared(f: Framer, segment: bytes, payload: bytes, rest: bytes, kind: LineKind)
    requires f.literal == 0 && f.pending == [] && Calm(segment) && |payload| <= MAX_UINT32
    requires f.buffer == segment + Declared(|payload|) + CRLF + (payload + rest)
    requires LineKindOf(f, segment + Declared(|payload|)) == (kind, []) && !kind.TextLine? && !kind.SearchKind? && !kind.ESearchKind?
    ensures LF in f.buffer && TakeLine(f) == (Framer(payload + rest, |payload|, true, []), Bare(kind))
  {
    hide LineKindOf, TrailingLiteral, Find, FirstLine, Declared, Braces;
    var declared := Declared(|payload|);
    DeclaredPlain(|payload|);
    LineCut(segment + declared, payload + rest);
    FirstLineIs(f, segment + declared);
    DeclaredTrails(segment, |payload|);
    assert [] + (segment + declared) == segment + declared;
  }

  lemma BareEnds(f: Framer, segment: bytes, rest: bytes, kind: LineKind)
    requires f.literal == 0 && f.pending == [] && f.buffer == segment + CRLF + rest && NoBreaksIn(segment)
    requires LineKindOf(f, segment) == (kind, []) && !kind.SearchKind? && !kind.ESearchKind?
    requires kind.TextLine? || TrailingLiteral(segment) == NoLiteral
    ensures Drain(f).1 == [Bare(kind)] + StreamLines(rest)
  {
    hide TakeLine, LineKindOf, TrailingLiteral, Drain;
    BareTaken(f, segment, rest, kind);
    DrainStep(f);
    FreshAppend(rest);
  }

  lemma BareGoesOn(f: Framer, segment: bytes, payload: bytes, rest: bytes, kind: LineKind)
    requires f.literal == 0 && f.pending == [] && Calm(segment) && |payload| <= MAX_UINT32 && rest != []
    requires f.buffer == segment + Declared(|payload|) + CRLF + (payload + rest)
    requires LineKindOf(f, segment + Declared(|payload|)) == (kind, []) && !kind.TextLine? && !kind.SearchKind? && !kind.ESearchKind?
    ensures Drain(f).1 == [Bare(kind)] + Drain(Framer(rest, 0, true, [])).1
  {
    hide TakeLine, LineKindOf, Drain, Declared, Calm;
    BareDeclared(f, segment, payload, rest, kind);
    DrainStep(f);
    SkipTo(TakeLine(f).0, payload, rest);
  }

  // ---- One response ----

  /** Every line the segment may begin is of this kind. */
  ghost predicate Kinded(f: Framer, segment: bytes, kind: LineKind) {
    && LineKindOf(f, segment) == (kind, [])
    && forall size: nat :: LineKindOf(f, segment + Declared(size)) == (kind, [])
  }

  lemma ResumedIsData(f: Framer, segment: bytes)
    requires f.continues && f.pending == []
    ensures Kinded(f, segment, DataLine)
  {
  }

  /** Data is read to its end whatever literals stand in it. */
  lemma {:induction false} DataRead(f: Framer, segment: bytes, tokens: seq<Token>, rest: bytes, kind: LineKind)
    requires f.literal == 0 && f.pending == [] && f.buffer == segment + Wire(tokens) + CRLF + rest
    requires Calm(segment) && CalmTokens(tokens) && Kinded(f, segment, kind)
    requires !kind.TextLine? && !kind.SearchKind? && !kind.ESearchKind?
    requires f.continues || tokens == [] || tokens[0].Lit?
    ensures Drain(f).1 == BareLines(kind, tokens) + StreamLines(rest)
    decreases |tokens|
  {
    hide Drain, StreamLines, Wire, Calm, Declared, CalmTokens, LineKindOf;
    if tokens == [] {
      NothingSent();
      assert segment + [] == segment;
      CalmEnds(segment);
      BareEnds(f, segment, rest, kind);
    } else {
      TokensSplit(tokens);
      var later := tokens[1..];
      match tokens[0]
      case Text(text) =>
        TextWire(segment, text, later, rest);
        CalmConcat(segment, text);
        ResumedIsData(f, segment);
        ResumedIsData(f, segment + text);
        DataRead(f, segment + text, later, rest, kind);
      case Lit(payload) =>
        var more := Wire(later) + CRLF + rest;
        LitWire(segment, payload, later, rest);
        BareGoesOn(f, segment, payload, more, kind);
        var next := Framer(more, 0, true, []);
        assert [] + Wire(later) + CRLF + rest == more;
        NothingIsCalm();
        ResumedIsData(next, []);
        DataRead(next, [], later, rest, DataLine);
        Assoc([Bare(kind)], BareLines(DataLine, later), StreamLines(rest));
    }
  }

  lemma CalmEnds(segment: bytes)
    requires Calm(segment)
    ensures NoBreaksIn(segment) && TrailingLiteral(segment) == NoLiteral
  {
    NoTrailing(segment);
  }

  lemma NothingIsCalm()
    ensures Calm([])
  {
  }

  // ---- Heads with a literal behind them ----

  /** A head with more text behind it. */
  function Longer(h: Head, more: bytes): Head {
    match h
    case Continuation(text) => Continuation(text + more)
    case Answer(tag, condition, rest) => Answer(tag, condition, rest + more)
    case Named(number, name, rest) => Named(number, name, rest + more)
    case Unknown(number, other, rest) => Unknown(number, other, rest + more)
  }

  lemma LongerPrints(h: Head, more: bytes)
    ensures PrintHead(Longer(h, more)) == PrintHead(h) + more
  {
    match h
    case Continuation(text) => Assoc([PLUS], text, more);
    case Answer(tag, condition, rest) => Behind(tag + [SP], condition, rest, more);
    case Named(number, name, rest) => Behind([STAR, SP] + NumberFirst(number), ControlGrammar.PrintName(name), rest, more);
    case Unknown(number, other, rest) => Behind([STAR, SP] + NumberFirst(number), other, rest, more);
  }

  lemma Behind(a: bytes, b: bytes, c: bytes, d: bytes)
    ensures a + (b + (c + d)) == a + (b + c) + d
  {
  }

  /** A declared literal changes neither what a head is nor its kind. */
  lemma LongerSame(h: Head, size: nat)
    requires WfHead(h) && !KindOf(h).TextLine?
    ensures var g := Longer(h, Declared(size)); WfHead(g) && KindOf(g) == KindOf(h)
  {
    hide Declared, Known;
    DeclaredPlain(size);
    var declared := Declared(size);
    assert !WireAtomChar(LBRACE);
    if !h.Continuation? {
      CloseLonger(h.rest, declared);
    }
  }

  lemma CloseLonger(rest: bytes, declared: bytes)
    requires declared != [] && declared[0] == LBRACE && RBRACKET !in declared
    ensures CodeCloses(rest + declared) <==> CodeCloses(rest)
  {
    var all := rest + declared;
    assert forall k :: 0 <= k < |rest| ==> all[k] == rest[k];
    if |rest| < 2 {
      if |rest| == 1 {
        assert all[1] == LBRACE;
      } else {
        assert all[0] == LBRACE;
      }
      assert |all| >= 2 ==> all[..2] != [SP, LBRACKET];
    } else {
      assert all[..2] == rest[..2];
      assert forall k :: |rest| <= k < |all| ==> all[k] == declared[k - |rest|];
    }
  }

  lemma HeadKinded(f: Framer, h: Head)
    requires WfHead(h) && !f.continues && f.pending == [] && !KindOf(h).TextLine? && !KindOf(h).SearchKind? && !KindOf(h).ESearchKind?
    ensures Kinded(f, PrintHead(h), KindOf(h))
  {
    hide Classify, Declared, PrintHead, Longer, WfHead, KindOf;
    HeadClassified(h);
    TextOfOthers(h);
    forall size: nat ensures Classify(PrintHead(h) + Declared(size)) == (KindOf(h), []) {
      LongerSame(h, size);
      LongerPrints(h, Declared(size));
      HeadClassified(Longer(h, Declared(size)));
      TextOfOthers(Longer(h, Declared(size)));
    }
  }

  lemma TextOfOthers(h: Head)
    requires !KindOf(h).SearchKind? && !KindOf(h).ESearchKind?
    ensures TextOf(h) == []
  {
  }

  /** The observer reads such a response to its end. */
  lemma OtherRead(h: Head, tokens: seq<Token>, rest: bytes)
    requires WfOther(h, tokens)
    ensures StreamLines(PrintHead(h) + Wire(tokens) + CRLF + rest) == OtherLines(h, tokens) + StreamLines(rest)
  {
    hide Drain, Wire, Calm, CalmTokens, Classify, PrintHead, WfHead, KindOf, BareLines, Kinded;
    var stream := PrintHead(h) + Wire(tokens) + CRLF + rest;
    var f := Append(FRESH, stream);
    FreshAppend(stream);
    if KindOf(h).TextLine? {
      NothingSent();
      assert PrintHead(h) + [] == PrintHead(h);
      HeadClassified(h);
      TextOfOthers(h);
      BareEnds(f, PrintHead(h), rest, TextLine);
      OneBare(TextLine);
    } else {
      HeadKinded(f, h);
      DataRead(f, PrintHead(h), tokens, rest, KindOf(h));
    }
  }

  lemma OneBare(kind: LineKind)
    ensures BareLines(kind, []) == [Bare(kind)]
  {
  }

  // ---- What the lines say ----

  /** No line says a number; they complain exactly when the first has no class. */
  lemma {:induction false} BareJudged(kind: LineKind, tokens: seq<Token>, w: Window)
    requires !kind.SearchKind? && !kind.ESearchKind?
    ensures var lines := BareLines(kind, tokens);
            && AllNumbers(lines) == [] && (AllProper(lines, w) <==> !kind.Unclassified?)
            && !HasKind(lines, SearchKind) && !HasKind(lines, ESearchKind)
    decreases |tokens|
  {
    if tokens == [] {
      OneJudged(kind, [], w);
      assert [Bare(kind)] + [] == [Bare(kind)];
    } else if tokens[0].Lit? {
      BareJudged(DataLine, tokens[1..], w);
      OneJudged(kind, BareLines(DataLine, tokens[1..]), w);
    } else {
      BareJudged(kind, tokens[1..], w);
    }
  }

  lemma OneJudged(kind: LineKind, lines: seq<Line>, w: Window)
    requires !kind.SearchKind? && !kind.ESearchKind?
    requires AllNumbers(lines) == [] && AllProper(lines, w) && !HasKind(lines, SearchKind) && !HasKind(lines, ESearchKind)
    ensures var all := [Bare(kind)] + lines;
            && AllNumbers(all) == [] && (AllProper(all, w) <==> !kind.Unclassified?)
            && !HasKind(all, SearchKind) && !HasKind(all, ESearchKind)
  {
    var all := [Bare(kind)] + lines;
    assert all[1..] == lines && LineNumbers(all[0]) == [];
    assert Proper(Bare(kind), w) <==> !kind.Unclassified?;
    hide Proper, Bare;
    ProperMore(Bare(kind), lines, w);
    assert forall i :: 0 < i < |all| ==> all[i] == lines[i - 1];
  }
}
