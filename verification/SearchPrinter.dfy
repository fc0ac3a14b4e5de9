/** One SEARCH response as a server prints it (section 7.2.5 of RFC 3501), and
    how the observer reads it. */
module SearchPrinter {
  import opened Octets
  import opened Wrappers
  import opened QuarantineLexis
  import opened SearchWire
  import opened SearchObserver
  import opened SearchSoundness
  import ControlGrammar

  function NumberText(ns: seq<nat>): bytes {
    if ns == [] then [] else [SP] + Decimal(ns[0]) + NumberText(ns[1..])
  }

  /** The modification sequence that may follow the numbers: with a space
      before it or not, its name in any case, and a space at the end or not. */
  datatype ModSeq = ModSeq(apart: bool, name: ControlGrammar.Name, digits: bytes, trailing: bool)

  predicate WfModSeq(g: Option<ModSeq>) {
    g.Some? ==>
      && ControlGrammar.WfName(g.value.name) && g.value.name.word == MODSEQ
      && g.value.digits != [] && AllDigits(g.value.digits) && DecimalValue(g.value.digits) <= MAX_UINT64
  }

  function Blank(yes: bool): bytes {
    if yes then [SP] else []
  }

  function Group(g: ModSeq): bytes {
    [LPAREN] + (ControlGrammar.PrintName(g.name) + [SP] + g.digits) + [RPAREN] + Blank(g.trailing)
  }

  function GroupText(g: Option<ModSeq>): bytes {
    if g.None? then [] else Blank(g.value.apart) + Group(g.value)
  }

  /** What follows the name on a SEARCH line. */
  function SearchText(ns: seq<nat>, g: Option<ModSeq>): bytes {
    NumberText(ns) + GroupText(g)
  }

  function SearchLine(ns: seq<nat>, g: Option<ModSeq>): bytes {
    [STAR, SP] + SEARCH + SearchText(ns, g)
  }

  predicate Plain(b: byte) {
    IsDigit(b) || b == SP
  }

  lemma {:induction false} NumberTextPlain(ns: seq<nat>)
    ensures forall i :: 0 <= i < |NumberText(ns)| ==> Plain(NumberText(ns)[i])
    ensures NumberText(ns) != [] ==> NumberText(ns)[0] == SP
  {
    hide Decimal;
    if ns != [] {
      NumberTextPlain(ns[1..]);
    }
  }

  // ---- Words ----

  lemma {:induction false} WordFields(digits: bytes, rest: bytes, word: bytes)
    requires AllDigits(digits)
    ensures Fields(digits + rest, word) == Fields(rest, word + digits)
    decreases |digits|
  {
    if digits == [] {
      assert digits + rest == rest && word + digits == word;
    } else {
      var s := digits + rest;
      assert s[0] == digits[0] && s[1..] == digits[1..] + rest;
      assert SpaceAt(s) == 0;
      WordFields(digits[1..], rest, word + [digits[0]]);
      assert word + [digits[0]] + digits[1..] == word + digits;
    }
  }

  function Spelled(ns: seq<nat>): (r: seq<bytes>)
    ensures |r| == |ns| && forall i :: 0 <= i < |r| ==> r[i] == Decimal(ns[i])
  {
    if ns == [] then [] else [Decimal(ns[0])] + Spelled(ns[1..])
  }

  lemma {:induction false} NumberFields(ns: seq<nat>, word: bytes)
    ensures Fields(NumberText(ns), word) == (if word == [] then [] else [word]) + Spelled(ns)
    decreases |ns|
  {
    hide Decimal;
    var done := if word == [] then [] else [word];
    if ns != [] {
      var digits, later := Decimal(ns[0]), NumberText(ns[1..]);
      var text := NumberText(ns);
      assert text == [SP] + (digits + later);
      assert SpaceAt(text) == 1 && text[1..] == digits + later;
      WordFields(digits, later, []);
      assert [] + digits == digits;
      NumberFields(ns[1..], digits);
      assert Fields(text, word) == done + ([digits] + Spelled(ns[1..]));
    }
  }

  lemma ParseDecimal(n: nat)
    requires n <= MAX_UINT32
    ensures ParseUint(Decimal(n), MAX_UINT32) == Some(n)
  {
    DecimalRoundTrip(n);
  }

  lemma {:induction false} SpelledNumbers(ns: seq<nat>)
    requires forall i :: 0 <= i < |ns| ==> ns[i] <= MAX_UINT32
    ensures AllParse(Spelled(ns)) && Numbers(Spelled(ns)) == ns
    decreases |ns|
  {
    hide Decimal, ParseUint;
    forall i | 0 <= i < |ns| ensures ParseUint(Spelled(ns)[i], MAX_UINT32).Some? {
      ParseDecimal(ns[i]);
    }
    if ns != [] {
      ParseDecimal(ns[0]);
      SpelledNumbers(ns[1..]);
      assert Spelled(ns)[1..] == Spelled(ns[1..]);
    }
  }

  // ---- One line ----

  lemma {:induction false} SpanWord(atom: bytes, rest: bytes)
    requires forall i :: 0 <= i < |atom| ==> WireAtomChar(atom[i])
    requires rest != [] ==> !WireAtomChar(rest[0])
    ensures SpanAtom(atom + rest) == (atom, rest)
    decreases |atom|
  {
    hide WireAtomChar;
    var s := atom + rest;
    if atom == [] {
      assert s == rest;
    } else {
      assert s[0] == atom[0] && s[1..] == atom[1..] + rest;
      SpanWord(atom[1..], rest);
      assert [atom[0]] + atom[1..] == atom;
    }
  }

  lemma SearchIsSearch()
    ensures !StatusName(SEARCH) && UpperIs(SEARCH, SEARCH)
    ensures forall i :: 0 <= i < |SEARCH| ==> WireAtomChar(SEARCH[i]) && !IsDigit(SEARCH[i])
  {
    UppersToItself(SEARCH);
    hide UpperIs;
    NotStatus();
  }

  lemma NotStatus()
    ensures !StatusName(SEARCH)
  {
    assert Upper(SEARCH[0]) == 0x53 && OK[0] == 0x4f && PREAUTH[0] == 0x50 && NO[0] == 0x4e && BAD[0] == 0x42 && BYE[0] == 0x42;
  }

  lemma GroupPlain(g: ModSeq)
    requires WfModSeq(Some(g))
    ensures var inner := ControlGrammar.PrintName(g.name) + [SP] + g.digits;
            forall i :: 0 <= i < |inner| ==> inner[i] !in {QUOTE, LBRACE, LPAREN, CR, LF}
  {
    ControlGrammar.LettersPlain(g.name.word, g.name.cases);
    hide DecimalValue;
  }

  lemma SearchTextPlain(ns: seq<nat>, g: Option<ModSeq>)
    requires WfModSeq(g)
    ensures var text := SearchText(ns, g);
            && (forall i :: 0 <= i < |text| ==> text[i] !in {QUOTE, LBRACE, CR, LF})
            && (text != [] ==> text[0] == SP || text[0] == LPAREN)
  {
    hide NumberText, DecimalValue, ControlGrammar.WfName, ControlGrammar.PrintName;
    NumberTextPlain(ns);
    if g.Some? {
      GroupPlain(g.value);
    }
  }

  lemma SearchClassified(ns: seq<nat>, g: Option<ModSeq>)
    requires WfModSeq(g)
    ensures Classify(SearchLine(ns, g)) == (SearchKind, SearchText(ns, g))
  {
    hide UpperIs, SpanAtom, StatusName, SearchText, DataName;
    var line, text := SearchLine(ns, g), SearchText(ns, g);
    SearchTextPlain(ns, g);
    SearchIsSearch();
    SpanWord(SEARCH, text);
    assert line[1..][0] == SP && line[1..][1..] == SEARCH + text;
  }

  lemma {:induction false} PlainBraces(line: bytes, index: nat, opening: Option<nat>)
    requires opening.Some? ==> opening.value < |line| && line[opening.value] == LBRACE
    requires forall i :: index <= i < |line| ==> line[i] != QUOTE && line[i] != LBRACE
    ensures Braces(line, index, false, opening) == (false, opening)
    decreases |line| - index
  {
    if index < |line| {
      PlainBraces(line, index + 1, opening);
    }
  }

  lemma SearchLineText(ns: seq<nat>, g: Option<ModSeq>)
    requires WfModSeq(g)
    ensures forall i :: 0 <= i < |SearchLine(ns, g)| ==> SearchLine(ns, g)[i] !in {QUOTE, LBRACE, CR, LF}
    ensures TrailingLiteral(SearchLine(ns, g)) == NoLiteral
  {
    hide Braces, SearchText, WfModSeq;
    SearchTextPlain(ns, g);
    var line, text := SearchLine(ns, g), SearchText(ns, g);
    var k := |[STAR, SP] + SEARCH|;
    assert forall i :: k <= i < |line| ==> line[i] == text[i - k];
    PlainBraces(line, 0, None);
  }

  // ---- The group after the numbers ----

  /** The name of the group folds to the one the code looks for. */
  lemma {:induction false} LettersFold(word: bytes, cases: seq<ControlGrammar.Case>)
    requires |cases| == |word| && ControlGrammar.Capitals(word)
    requires forall i :: 0 <= i < |word| && cases[i].Foreign? ==> word[i] == 0x53
    ensures FoldIs(ControlGrammar.Letters(word, cases), word)
    decreases |word|
  {
    if word != [] {
      var first, later := ControlGrammar.Letter(word[0], cases[0]), ControlGrammar.Letters(word[1..], cases[1..]);
      LettersFold(word[1..], cases[1..]);
      assert (first + later)[|first|..] == later;
    }
  }

  lemma NameFolds(n: ControlGrammar.Name)
    requires ControlGrammar.WfName(n) && n.word == MODSEQ
    ensures FoldIs(ControlGrammar.PrintName(n), MODSEQ) && SP !in ControlGrammar.PrintName(n)
  {
    LettersFold(n.word, n.cases);
    ControlGrammar.NamePlain(n);
  }

  lemma GroupRead(g: ModSeq)
    requires WfModSeq(Some(g))
    ensures ModSeqGroup(Group(g))
  {
    hide FoldIs, DecimalValue, ControlGrammar.PrintName, ControlGrammar.WfName, Cut;
    var inner := ControlGrammar.PrintName(g.name) + [SP] + g.digits;
    var core := [LPAREN] + inner + [RPAREN];
    assert TrimSuffix(Group(g), SP) == core;
    assert TrimPrefix(core, LPAREN) == inner + [RPAREN];
    assert TrimSuffix(inner + [RPAREN], RPAREN) == inner;
    NameFolds(g.name);
    CutAt(ControlGrammar.PrintName(g.name), g.digits, SP);
  }

  lemma {:induction false} TrailingSpace(s: bytes, word: bytes)
    requires forall i :: 0 <= i < |s| ==> Plain(s[i])
    ensures Fields(s + [SP], word) == Fields(s, word)
    decreases |s|
  {
    var t := s + [SP];
    if s == [] {
      assert t == [SP] && t[1..] == [];
    } else {
      assert t[0] == s[0] && t[1..] == s[1..] + [SP];
      TrailingSpace(s[1..], if s[0] == SP then [] else word + [s[0]]);
    }
  }

  lemma CutAtGroup(before: bytes, group: bytes)
    requires LPAREN !in before && (group != [] ==> group[0] == LPAREN && ModSeqGroup(group))
    ensures BeforeGroup(before + group) == before && GroupOk(before + group)
  {
    hide ModSeqGroup;
    var text := before + group;
    if group == [] {
      assert text == before && text[..|text|] == text;
    } else {
      assert text == before + [LPAREN] + group[1..];
      FindAt(before, group[1..], LPAREN);
      assert text[|before|..] == group && text[..|before|] == before;
    }
  }

  /** A line is cut between its numbers and its group. */
  lemma GroupCut(ns: seq<nat>, g: Option<ModSeq>)
    requires WfModSeq(g)
    ensures var text := SearchText(ns, g);
            && BeforeGroup(text) == NumberText(ns) + (if g.None? then [] else Blank(g.value.apart))
            && GroupOk(text)
  {
    hide NumberText, ModSeqGroup, Group, WfModSeq, BeforeGroup, GroupOk;
    NumberTextPlain(ns);
    if g.None? {
      assert NumberText(ns) + [] + [] == NumberText(ns) + [];
      CutAtGroup(NumberText(ns) + [], []);
    } else {
      GroupStarts(g.value);
      GroupRead(g.value);
      CutAtGroup(NumberText(ns) + Blank(g.value.apart), Group(g.value));
      assert NumberText(ns) + Blank(g.value.apart) + Group(g.value) == NumberText(ns) + (Blank(g.value.apart) + Group(g.value));
    }
  }

  lemma GroupStarts(g: ModSeq)
    ensures Group(g) != [] && Group(g) == [LPAREN] + Group(g)[1..]
  {
  }

  function SearchEvent(ns: seq<nat>, g: Option<ModSeq>): Line {
    Line(false, SearchKind, SearchText(ns, g), true)
  }

  lemma LineCut(line: bytes, rest: bytes)
    requires LF !in line
    ensures var stream := line + CRLF + rest;
            && LF in stream && Find(stream, LF) == |line| + 1
            && stream[..|line| + 1] == line + [CR] && stream[|line| + 2..] == rest
  {
    var stream := line + CRLF + rest;
    assert stream == (line + [CR]) + [LF] + rest;
    FindAt(line + [CR], rest, LF);
    assert stream[|line| + 1] == LF;
  }

  lemma FirstLineIs(f: Framer, segment: bytes)
    requires Find(f.buffer, LF) == |segment| + 1 < |f.buffer| && f.buffer[..|segment| + 1] == segment + [CR]
    ensures FirstLine(f) == f.pending + segment
  {
    assert TrimSuffix(segment + [CR], CR) == segment;
  }

  /** Taking a line that is whole and without a literal. */
  lemma WholeTaken(f: Framer, segment: bytes, rest: bytes, kind: LineKind, text: bytes)
    requires f.buffer == segment + CRLF + rest && LF !in segment && CR !in f.pending + segment
    requires LineKindOf(f, f.pending + segment) == (kind, text) && kind != Unclassified
    requires TrailingLiteral(f.pending + segment) == NoLiteral
    ensures LF in f.buffer && TakeLine(f) == (Framer(rest, 0, false, []), Line(false, kind, text, true))
  {
    hide LineKindOf, TrailingLiteral, Find, FirstLine;
    LineCut(segment, rest);
    FirstLineIs(f, segment);
  }

  lemma SearchTaken(ns: seq<nat>, g: Option<ModSeq>, rest: bytes)
    requires WfModSeq(g)
    ensures LF in SearchLine(ns, g) + CRLF + rest
    ensures TakeLine(Append(FRESH, SearchLine(ns, g) + CRLF + rest)) == (Append(FRESH, rest), SearchEvent(ns, g))
  {
    hide Classify, TrailingLiteral, SearchLine, TakeLine, SearchText, WfModSeq;
    var line := SearchLine(ns, g);
    SearchLineText(ns, g);
    SearchClassified(ns, g);
    var stream := line + CRLF + rest;
    FreshAppend(stream);
    FreshAppend(rest);
    assert [] + line == line;
    WholeTaken(Framer(stream, 0, false, []), line, rest, SearchKind, SearchText(ns, g));
  }

  lemma FreshAppend(stream: bytes)
    ensures Append(FRESH, stream) == Framer(stream, 0, false, [])
  {
    assert [] + stream == stream;
  }

  /** A printed SEARCH line reads as its numbers, whatever group follows them. */
  lemma EventReads(ns: seq<nat>, g: Option<ModSeq>)
    requires WfModSeq(g) && forall i :: 0 <= i < |ns| ==> ns[i] <= MAX_UINT32
    ensures ReadsAsNumbers(SearchText(ns, g)) && SearchNumbers(SearchText(ns, g)) == ns
  {
    hide NumberText, Fields, GroupOk, AllParse, Numbers, SearchText, WfModSeq;
    GroupCut(ns, g);
    NumberTextPlain(ns);
    TrailingSpace(NumberText(ns), []);
    assert NumberText(ns) + [] == NumberText(ns);
    NumberFields(ns, []);
    SpelledNumbers(ns);
    assert [] + Spelled(ns) == Spelled(ns);
  }
}
