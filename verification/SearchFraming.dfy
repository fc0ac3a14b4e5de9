/** Reading one line after another off the stream: lines that end in a declared
    literal, literals that are skipped, and tokens on the wire
    (bridge/imapclient.go:1426-1502, 1796-1831). */
module SearchFraming {
  import opened Octets
  import opened Sequences
  import opened Wrappers
  import opened SearchWire
  import opened SearchSets
  import opened SearchObserver
  import opened SearchSoundness
  import opened SearchPrinter
  import opened SearchLiterals

  // ---- Declared literals ----

  lemma NoTrailing(line: bytes)
    requires Calm(line)
    ensures TrailingLiteral(line) == NoLiteral
  {
  }

  lemma DeclaredPlain(size: nat)
    ensures forall i :: 0 < i < |Declared(size)| ==> Declared(size)[i] == RBRACE || IsDigit(Declared(size)[i])
    ensures |Declared(size)| > 2 && CR !in Declared(size) && LF !in Declared(size)
    ensures Declared(size)[0] == LBRACE && Declared(size)[|Declared(size)| - 1] == RBRACE
    ensures Declared(size)[1..|Declared(size)| - 1] == Decimal(size)
  {
    hide Decimal;
  }

  /** What may stand behind the digits of a literal's size, and behind its brace. */
  function Form(digits: bytes, plus: bool, space: bool): bytes {
    [LBRACE] + digits + (if plus then [PLUS] else []) + [RBRACE] + (if space then [SP] else [])
  }

  lemma FormPlain(digits: bytes, plus: bool, space: bool)
    requires AllDigits(digits)
    ensures var form := Form(digits, plus, space);
            |form| > 0 && form[0] == LBRACE && forall i :: 0 < i < |form| ==> form[i] != QUOTE && form[i] != LBRACE
  {
  }

  lemma FormBraces(line: bytes, form: bytes)
    requires Calm(line) && |form| > 0 && form[0] == LBRACE
    requires forall i :: 0 < i < |form| ==> form[i] != QUOTE && form[i] != LBRACE
    ensures |line| < |line + form| && Braces(line + form, 0, false, None) == (false, Some(|line|))
  {
    var w := line + form;
    BracesAppend(line, form, 0, false);
    assert w[|line|] == form[0];
    forall i | |line| < i < |w| ensures w[i] != QUOTE && w[i] != LBRACE {
      assert w[i] == form[i - |line|];
    }
    PlainBraces(w, |line| + 1, Some(|line|));
  }

  lemma FormTrimmed(line: bytes, digits: bytes, plus: bool, space: bool)
    requires AllDigits(digits) && digits != []
    ensures var w := line + Form(digits, plus, space);
            var trimmed := TrimSuffix(w, SP);
            && |trimmed| > |line| + 1 && trimmed[|trimmed| - 1] == RBRACE
            && TrimSuffix(trimmed[|line| + 1..|trimmed| - 1], PLUS) == digits
  {
    var w := line + Form(digits, plus, space);
    var core := line + [LBRACE] + digits + (if plus then [PLUS] else []) + [RBRACE];
    assert TrimSuffix(w, SP) == core;
    assert core[|line| + 1..|core| - 1] == digits + if plus then [PLUS] else [];
  }

  /** A line ends in a literal of its declared size in each of the four forms
      of a declaration: with a plus sign or without, and before one space or at
      the end of the line. A size beyond 64 bits counts as the largest. */
  lemma LiteralForms(line: bytes, digits: bytes, plus: bool, space: bool)
    requires Calm(line) && digits != [] && AllDigits(digits)
    ensures TrailingLiteral(line + Form(digits, plus, space))
            == Literal(if DecimalValue(digits) <= MAX_UINT64 then DecimalValue(digits) else MAX_UINT64, |line|)
  {
    hide Calm, Braces, Form, DecimalValue, TrimSuffix;
    FormPlain(digits, plus, space);
    FormBraces(line, Form(digits, plus, space));
    FormTrimmed(line, digits, plus, space);
  }

  lemma DeclaredTrails(line: bytes, size: nat)
    requires Calm(line) && size <= MAX_UINT32
    ensures TrailingLiteral(line + Declared(size)) == Literal(size, |line|)
  {
    hide Decimal, DecimalValue, Calm, TrailingLiteral;
    LiteralForms(line, Decimal(size), false, false);
    assert Form(Decimal(size), false, false) == Declared(size);
    DecimalRoundTrip(size);
  }

  // ---- From line to line ----

  lemma SkipTo(f: Framer, payload: bytes, rest: bytes)
    requires f.buffer == payload + rest && f.literal == |payload| && rest != []
    ensures Drain(f) == Drain(f.(buffer := rest, literal := 0))
  {
    hide TakeLine;
    assert (payload + rest)[|payload|..] == rest;
    assert payload == [] ==> payload + rest == rest;
  }

  lemma DrainStep(f: Framer)
    requires f.literal == 0 && LF in f.buffer
    ensures Drain(f).1 == [TakeLine(f).1] + Drain(TakeLine(f).0).1
  {
    hide TakeLine;
    assert Skip(f) == f;
  }

  lemma NothingSent()
    ensures Wire([]) == []
  {
  }

  lemma WireAround(segment: bytes, payload: bytes, later: bytes, rest: bytes)
    ensures segment + (Declared(|payload|) + CRLF + payload + later) + CRLF + rest
            == segment + Declared(|payload|) + CRLF + (payload + (later + CRLF + rest))
  {
    hide Declared;
    var d := Declared(|payload|);
    assert d + CRLF + payload + later == d + CRLF + (payload + later);
    assert segment + (d + CRLF + (payload + later)) == segment + d + CRLF + (payload + later);
    assert segment + d + CRLF + (payload + later) + CRLF + rest == segment + d + CRLF + (payload + later + CRLF + rest);
    assert payload + later + CRLF + rest == payload + (later + CRLF + rest);
  }

  lemma TextWire(segment: bytes, text: bytes, later: seq<Token>, rest: bytes)
    ensures segment + Wire([Text(text)] + later) + CRLF + rest == (segment + text) + Wire(later) + CRLF + rest
  {
    var tokens := [Text(text)] + later;
    assert tokens[1..] == later;
    assert Wire(tokens) == text + Wire(later);
    Assoc(segment, text, Wire(later));
  }

  lemma LitWire(segment: bytes, payload: bytes, later: seq<Token>, rest: bytes)
    ensures segment + Wire([Lit(payload)] + later) + CRLF + rest
            == segment + Declared(|payload|) + CRLF + (payload + (Wire(later) + CRLF + rest))
  {
    hide Declared;
    var tokens := [Lit(payload)] + later;
    assert tokens[1..] == later;
    assert Wire(tokens) == Declared(|payload|) + CRLF + payload + Wire(later);
    WireAround(segment, payload, Wire(later), rest);
  }

  lemma TokensSplit(tokens: seq<Token>)
    requires tokens != [] && CalmTokens(tokens)
    ensures tokens == [tokens[0]] + tokens[1..] && CalmToken(tokens[0]) && CalmTokens(tokens[1..])
  {
    hide CalmToken;
  }

  // ---- What the lines say ----

  ghost predicate AllProper(lines: seq<Line>, w: Window) {
    forall i :: 0 <= i < |lines| ==> Proper(lines[i], w)
  }

  lemma ProperMore(first: Line, lines: seq<Line>, w: Window)
    ensures AllProper([first] + lines, w) <==> Proper(first, w) && AllProper(lines, w)
  {
    hide Proper;
    var all := [first] + lines;
    assert all[0] == first && forall i :: 0 <= i < |lines| ==> all[i + 1] == lines[i];
  }

  ghost predicate HasKind(lines: seq<Line>, kind: LineKind) {
    exists i :: 0 <= i < |lines| && lines[i].kind == kind
  }
}
