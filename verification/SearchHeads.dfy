/** The beginnings of response lines as a grammar of their own: continuations,
    status answers, named data with and without a number, and what has no known
    name. The classes of the observer are the classes of this grammar
    (bridge/imapclient.go:1508-1594, section 7 of RFC 3501). */
module SearchHeads {
  import opened Octets
  import opened Wrappers
  import opened QuarantineLexis
  import opened SearchWire
  import opened SearchPrinter
  import ControlGrammar

  type Name = ControlGrammar.Name

  const STATUS_WORDS: set<bytes> := {OK, PREAUTH, NO, BAD, BYE}
  const DATA_WORDS: set<bytes> := {ID, CAPABILITY, ENABLED, NAMESPACE, FLAGS, EXISTS, RECENT, LIST, STATUS, FETCH, EXPUNGE,
                                   SORT, THREAD, METADATA, QUOTA, QUOTAROOT, MYRIGHTS, ACL}

  /** rest is all that follows the name on the line. */
  datatype Head =
    | Continuation(text: bytes)
    | Answer(tag: bytes, condition: bytes, rest: bytes)
    | Named(number: Option<bytes>, name: Name, rest: bytes)
    | Unknown(number: Option<bytes>, other: bytes, rest: bytes)

  predicate WireAtom(s: bytes) {
    s != [] && forall i :: 0 <= i < |s| ==> WireAtomChar(s[i])
  }

  /** What follows an atom does not go on with it. */
  predicate Ends(rest: bytes) {
    rest != [] ==> !WireAtomChar(rest[0])
  }

  predicate WfNumber(number: Option<bytes>) {
    number.Some? ==> number.value != [] && AllDigits(number.value) && DecimalValue(number.value) <= MAX_UINT32
  }

  predicate KnownWord(word: bytes) {
    word in STATUS_WORDS || word in DATA_WORDS || word == SEARCH || word == ESEARCH
  }

  /** Whether some spelling of a known word is this name. */
  ghost predicate Known(name: bytes) {
    exists n: Name :: ControlGrammar.WfName(n) && KnownWord(n.word) && ControlGrammar.PrintName(n) == name
  }

  ghost predicate WfHead(h: Head) {
    match h
    case Continuation(_) => true
    case Answer(tag, condition, rest) => WireAtom(tag) && tag[0] != PLUS && WireAtom(condition) && Ends(rest)
    case Named(number, name, rest) => WfNumber(number) && ControlGrammar.WfName(name) && KnownWord(name.word) && Ends(rest)
    case Unknown(number, other, rest) =>
      && WfNumber(number) && WireAtom(other) && (number.None? ==> !IsDigit(other[0])) && !Known(other) && Ends(rest)
  }

  function NumberFirst(number: Option<bytes>): bytes {
    if number.None? then [] else number.value + [SP]
  }

  function PrintHead(h: Head): bytes {
    match h
    case Continuation(text) => [PLUS] + text
    case Answer(tag, condition, rest) => tag + [SP] + (condition + rest)
    case Named(number, name, rest) => [STAR, SP] + NumberFirst(number) + (ControlGrammar.PrintName(name) + rest)
    case Unknown(number, other, rest) => [STAR, SP] + NumberFirst(number) + (other + rest)
  }

  /** A response code after a status name closes on its line. */
  predicate CodeCloses(rest: bytes) {
    |rest| >= 2 && rest[..2] == [SP, LBRACKET] ==> exists k :: 2 <= k < |rest| && rest[k] == RBRACKET
  }

  predicate HasStatus(h: Head) {
    h.Answer? || (h.Named? && h.name.word in STATUS_WORDS)
  }

  /** A status whose response code stays open. */
  predicate Unclosed(h: Head) {
    HasStatus(h) && !CodeCloses(h.rest)
  }

  function KindOf(h: Head): LineKind {
    if h.Continuation? then TextLine
    else if h.Unknown? || Unclosed(h) then Unclassified
    else if HasStatus(h) then TextLine
    else if h.name.word == SEARCH then SearchKind
    else if h.name.word == ESEARCH then ESearchKind
    else DataLine
  }

  /** What a search response says after its name. */
  function TextOf(h: Head): bytes {
    if KindOf(h).SearchKind? || KindOf(h).ESearchKind? then h.rest else []
  }

  // ---- Names ----

  lemma StatusCapitals()
    ensures forall w: bytes :: w in STATUS_WORDS ==> ControlGrammar.Capitals(w) && w != []
    ensures ControlGrammar.Capitals(SEARCH) && ControlGrammar.Capitals(ESEARCH)
  {
  }

  lemma DataCapitals()
    ensures forall w: bytes :: w in DATA_WORDS ==> ControlGrammar.Capitals(w) && w != []
  {
  }

  /** The code's tests of a name are which word it spells. */
  lemma NameTests(n: Name)
    requires ControlGrammar.WfName(n)
    ensures var name := ControlGrammar.PrintName(n);
            && (StatusName(name) <==> n.word in STATUS_WORDS) && (DataName(name) <==> n.word in DATA_WORDS)
            && (UpperIs(name, SEARCH) <==> n.word == SEARCH) && (UpperIs(name, ESEARCH) <==> n.word == ESEARCH)
  {
    hide UpperIs, ControlGrammar.WfName, ControlGrammar.PrintName, ControlGrammar.Capitals;
    StatusCapitals();
    DataCapitals();
    forall w | ControlGrammar.Capitals(w) ensures UpperIs(ControlGrammar.PrintName(n), w) <==> n.word == w {
      ControlGrammar.NameIs(n, w);
    }
  }

  lemma NameIsAtom(n: Name)
    requires ControlGrammar.WfName(n)
    ensures WireAtom(ControlGrammar.PrintName(n)) && !IsDigit(ControlGrammar.PrintName(n)[0])
  {
    ControlGrammar.NamePlain(n);
    ControlGrammar.LettersPlain(n.word, n.cases);
  }

  lemma KnownIff(name: bytes)
    ensures Known(name) <==> StatusName(name) || DataName(name) || UpperIs(name, SEARCH) || UpperIs(name, ESEARCH)
  {
    hide UpperIs, ControlGrammar.WfName, ControlGrammar.PrintName, ControlGrammar.Capitals;
    StatusCapitals();
    DataCapitals();
    forall w: bytes | w in STATUS_WORDS || w in DATA_WORDS || w == SEARCH || w == ESEARCH
      ensures UpperIs(name, w) ==> Known(name)
    {
      if UpperIs(name, w) {
        var n := ControlGrammar.NameSpelled(name, w);
        assert KnownWord(n.word);
      }
    }
    if Known(name) {
      var n: Name :| ControlGrammar.WfName(n) && KnownWord(n.word) && ControlGrammar.PrintName(n) == name;
      NameTests(n);
    }
  }

  lemma CodeClosesIff(rest: bytes)
    ensures StatusKind(rest) == if CodeCloses(rest) then TextLine else Unclassified
  {
    if |rest| >= 2 && rest[0] == SP && rest[1] == LBRACKET {
      assert rest[..2] == [SP, LBRACKET];
    }
  }

  // ---- Classifying printed heads ----

  /** The text after the star is read up to the name. */
  lemma UntaggedRead(number: Option<bytes>, name: bytes, rest: bytes)
    requires WfNumber(number) && WireAtom(name) && (number.None? ==> !IsDigit(name[0])) && Ends(rest)
    ensures Classify([STAR, SP] + NumberFirst(number) + (name + rest)) == NameKind(true, name, rest)
  {
    hide SpanAtom, WireAtomChar, NameKind, DecimalValue;
    var line := [STAR, SP] + NumberFirst(number) + (name + rest);
    SpanWord(name, rest);
    if number.None? {
      assert line[1..][0] == SP && line[1..][1..] == name + rest;
    } else {
      var digits := number.value;
      DigitsAreAtom(digits);
      SpanWord(digits, [SP] + (name + rest));
      assert line[1..][0] == SP && line[1..][1..] == digits + ([SP] + (name + rest));
      assert ([SP] + (name + rest))[1..] == name + rest;
    }
  }

  lemma DigitsAreAtom(digits: bytes)
    requires AllDigits(digits)
    ensures forall i :: 0 <= i < |digits| ==> WireAtomChar(digits[i])
    ensures !WireAtomChar(SP) && !WireAtomChar(STAR) && WireAtomChar(PLUS)
  {
  }

  lemma TaggedRead(tag: bytes, name: bytes, rest: bytes)
    requires WireAtom(tag) && tag[0] != PLUS && WireAtom(name) && Ends(rest)
    ensures Classify(tag + [SP] + (name + rest)) == (StatusKind(rest), [])
  {
    hide SpanAtom, WireAtomChar, StatusKind, UpperIs;
    DigitsAreAtom([]);
    var line := tag + [SP] + (name + rest);
    SpanWord(name, rest);
    SpanWord(tag, [SP] + (name + rest));
    assert line == tag + ([SP] + (name + rest)) && line[0] == tag[0];
    assert ([SP] + (name + rest))[1..] == name + rest;
  }

  /** The class of a printed head is the one it was printed for. */
  lemma HeadClassified(h: Head)
    requires WfHead(h)
    ensures Classify(PrintHead(h)) == (KindOf(h), TextOf(h))
  {
    hide Classify, ControlGrammar.WfName, ControlGrammar.PrintName, WfNumber, WireAtom, WireAtomChar, UpperIs, StatusName, DataName,
         StatusKind, CodeCloses, Known;
    match h
    case Continuation(text) => ContinuationRead(text);
    case Answer(tag, condition, rest) =>
      TaggedRead(tag, condition, rest);
      CodeClosesIff(rest);
    case Named(number, name, rest) =>
      NameIsAtom(name);
      UntaggedRead(number, ControlGrammar.PrintName(name), rest);
      NameTests(name);
      NonEmpty(ControlGrammar.PrintName(name));
      WordsApart(name.word);
      CodeClosesIff(rest);
    case Unknown(number, other, rest) =>
      UntaggedRead(number, other, rest);
      KnownIff(other);
      NonEmpty(other);
  }

  lemma NonEmpty(s: bytes)
    requires WireAtom(s)
    ensures s != []
  {
  }

  lemma WordsApart(word: bytes)
    ensures word in STATUS_WORDS ==> word !in DATA_WORDS && word != SEARCH && word != ESEARCH
    ensures word in DATA_WORDS ==> word != SEARCH && word != ESEARCH
    ensures SEARCH != ESEARCH
  {
  }

  lemma ContinuationRead(text: bytes)
    ensures Classify([PLUS] + text) == (TextLine, [])
  {
  }

  // ---- Every classified line has a head ----

  /** A known head whose response code, if it has one, closes. */
  ghost predicate Readable(h: Head) {
    WfHead(h) && !h.Unknown? && !Unclosed(h)
  }

  ghost predicate HasHead(line: bytes) {
    exists h :: Readable(h) && PrintHead(h) == line
  }

  /** The spelling of a known name. */
  lemma KnownSpelled(name: bytes) returns (n: Name)
    requires Known(name)
    ensures ControlGrammar.WfName(n) && KnownWord(n.word) && ControlGrammar.PrintName(n) == name
  {
    n :| ControlGrammar.WfName(n) && KnownWord(n.word) && ControlGrammar.PrintName(n) == name;
  }

  lemma SpanIsAtom(s: bytes)
    ensures var (atom, rest) := SpanAtom(s);
            s == atom + rest && (atom != [] ==> WireAtom(atom)) && Ends(rest)
  {
  }

  /** A name classified on an untagged line makes it a proper head. */
  lemma NamedFound(number: Option<bytes>, name: bytes, rest: bytes) returns (h: Head)
    requires WfNumber(number) && Ends(rest) && NameKind(true, name, rest).0 != Unclassified
    ensures Readable(h) && PrintHead(h) == [STAR, SP] + NumberFirst(number) + (name + rest)
  {
    hide UpperIs, StatusName, DataName, StatusKind, CodeCloses, WfNumber, Known, ControlGrammar.WfName, ControlGrammar.PrintName, KnownWord;
    KnownIff(name);
    var n := KnownSpelled(name);
    NameTests(n);
    CodeClosesIff(rest);
    h := Named(number, n, rest);
  }

  lemma TaggedFound(tag: bytes, name: bytes, rest: bytes) returns (h: Head)
    requires WireAtom(tag) && tag[0] != PLUS && WireAtom(name) && Ends(rest) && StatusKind(rest) != Unclassified
    ensures Readable(h) && PrintHead(h) == tag + [SP] + (name + rest)
  {
    hide StatusKind, CodeCloses;
    CodeClosesIff(rest);
    h := Answer(tag, name, rest);
  }

  lemma UntaggedFound(line: bytes) returns (h: Head)
    requires line != [] && line[0] == STAR && Classify(line).0 != Unclassified
    ensures Readable(h) && PrintHead(h) == line
  {
    hide SpanAtom, WireAtomChar, NameKind, DecimalValue, Readable;
    var rest := line[1..];
    var (name, after) := SpanAtom(rest[1..]);
    SpanIsAtom(rest[1..]);
    assert line == [STAR, SP] + rest[1..];
    if name != [] && IsDigit(name[0]) {
      SpanIsAtom(after[1..]);
      var (kind, tail) := SpanAtom(after[1..]);
      h := NamedFound(Some(name), kind, tail);
      assert after == [SP] + (kind + tail);
      assert line == [STAR, SP] + (name + [SP]) + (kind + tail);
    } else {
      h := NamedFound(None, name, after);
      assert [STAR, SP] + [] == [STAR, SP];
    }
  }

  lemma AnswerFound(line: bytes) returns (h: Head)
    requires line != [] && line[0] != STAR && line[0] != PLUS && Classify(line).0 != Unclassified
    ensures Readable(h) && PrintHead(h) == line
  {
    hide SpanAtom, WireAtomChar, StatusKind, UpperIs, DataName, Readable;
    var (tag, rest) := SpanAtom(line);
    SpanIsAtom(line);
    var (name, after) := SpanAtom(rest[1..]);
    SpanIsAtom(rest[1..]);
    assert tag[0] == line[0];
    h := TaggedFound(tag, name, after);
    assert line == tag + ([SP] + (name + after));
  }

  lemma ContinuationFound(line: bytes) returns (h: Head)
    requires line != [] && line[0] == PLUS
    ensures Readable(h) && PrintHead(h) == line
  {
    h := Continuation(line[1..]);
  }

  lemma HeadFound(line: bytes) returns (h: Head)
    requires Classify(line).0 != Unclassified
    ensures Readable(h) && PrintHead(h) == line
  {
    hide Classify, Readable;
    NothingUnclassified();
    if line[0] == PLUS {
      h := ContinuationFound(line);
    } else if line[0] == STAR {
      h := UntaggedFound(line);
    } else {
      h := AnswerFound(line);
    }
  }

  lemma NothingUnclassified()
    ensures Classify([]).0 == Unclassified
  {
  }

  /** The lines the observer can classify are exactly the proper heads; every
      other line counts against the command. */
  lemma ClassifiedIff(line: bytes)
    ensures Classify(line).0 != Unclassified <==> HasHead(line)
  {
    hide Classify, Readable, PrintHead;
    if Classify(line).0 != Unclassified {
      var h := HeadFound(line);
      assert Readable(h) && PrintHead(h) == line;
    }
    if HasHead(line) {
      var h :| Readable(h) && PrintHead(h) == line;
      ReadableKind(h);
    }
  }

  lemma ReadableKind(h: Head)
    requires Readable(h)
    ensures Classify(PrintHead(h)).0 != Unclassified
  {
    hide Classify, PrintHead, WfHead;
    HeadClassified(h);
  }
}
